/** utils.py: the compact, high-signal browser state handed to the language model --
    visible text of a subtree cut to a character budget, an allow-list of
    attributes, and one summary per interactive element in index order. */
module Projection {
  import opened Wrappers
  import opened Text
  import opened Dom
  import DomProperties

  /** The marker appended to cut text, read as the single character U+2026; in
      utils.py the literal is stored as its UTF-8 bytes decoded as Windows-1252. */
  const Ellipsis: char := '\U{2026}'

  /** The character budget `get_llm_browser_state` gives each element's text. */
  const ContentCharLimit: nat := 300

  // ---------------------------------------------------------------------------
  // _collect_visible_text
  // ---------------------------------------------------------------------------

  /** The exception the nested `dfs` can raise: a call past Python's recursion limit. */
  datatype WalkError = RecursionError

  /** A piece the text walk may collect: the normalized, non-empty text of a
      visible text node of the arena. */
  ghost predicate IsVisiblePiece(nodes: map<NodeId, Node>, p: string) {
    p != [] && exists id :: id in nodes && nodes[id].TextNode? && nodes[id].isVisible
                            && NormalizeWhitespace(nodes[id].text) == p
  }

  /** The nested `dfs` of `_collect_visible_text` entered at `id` with the pieces
      collected so far. It stops as soon as the pieces joined by spaces reach
      `limit`, skips a hidden element together with its whole subtree, and takes a
      text node's normalized text when the node is visible and the text non-empty.
      `depth` is the number of further nested calls the recursion limit leaves room
      for; a call beyond it raises `RecursionError`. A visible text node takes one
      level for its call of `_normalize_whitespace`, and each child of an element
      one level for its own `dfs`. */
  function Dfs(nodes: map<NodeId, Node>, id: NodeId, pieces: seq<string>, limit: nat, depth: nat): Result<seq<string>, WalkError>
    decreases depth, 1
  {
    if |Join(" ", pieces)| >= limit || id !in nodes then Success(pieces)
    else
      match nodes[id]
      case TextNode(text, visible, _) =>
        var txt := NormalizeWhitespace(text);
        if !visible then Success(pieces)
        else if depth == 0 then Failure(RecursionError)
        else Success(if txt != "" then pieces + [txt] else pieces)
      case ElementNode(_, _, _, children, visible, _, _, _, _, _, _, _) =>
        if !visible then Success(pieces) else DfsAll(nodes, children, pieces, limit, depth)
  }

  /** The loop `for child in n.children: dfs(child)`; each call takes one level. */
  function DfsAll(nodes: map<NodeId, Node>, ids: seq<NodeId>, pieces: seq<string>, limit: nat, depth: nat): Result<seq<string>, WalkError>
    decreases depth, 0, |ids|
  {
    if ids == [] then Success(pieces)
    else if depth == 0 then Failure(RecursionError)
    else
      var r := Dfs(nodes, ids[0], pieces, limit, depth - 1);
      if r.Failure? then r else DfsAll(nodes, ids[1..], r.value, limit, depth)
  }

  /** The walk only appends to the pieces, and what it appends is the normalized,
      non-empty text of visible text nodes. */
  ghost predicate Extends(nodes: map<NodeId, Node>, pieces: seq<string>, r: seq<string>) {
    && |pieces| <= |r|
    && (forall k :: 0 <= k < |pieces| ==> r[k] == pieces[k])
    && (forall k :: |pieces| <= k < |r| ==> IsVisiblePiece(nodes, r[k]))
  }

  lemma ExtendsTrans(nodes: map<NodeId, Node>, a: seq<string>, b: seq<string>, c: seq<string>)
    requires Extends(nodes, a, b) && Extends(nodes, b, c)
    ensures Extends(nodes, a, c)
  {
    forall k | |a| <= k < |c| ensures IsVisiblePiece(nodes, c[k]) {
      if k < |b| {
        assert c[k] == b[k];
      }
    }
  }

  lemma {:induction false} DfsExtends(nodes: map<NodeId, Node>, id: NodeId, pieces: seq<string>, limit: nat, depth: nat)
    ensures Dfs(nodes, id, pieces, limit, depth).Success? ==> Extends(nodes, pieces, Dfs(nodes, id, pieces, limit, depth).value)
    decreases depth, 1
  {
    if !(|Join(" ", pieces)| >= limit || id !in nodes) {
      match nodes[id]
      case TextNode(text, visible, _) =>
        var txt := NormalizeWhitespace(text);
        if visible && txt != "" {
          var r := pieces + [txt];
          assert r[|pieces|] == txt;
          assert IsVisiblePiece(nodes, txt);
        }
      case ElementNode(_, _, _, children, visible, _, _, _, _, _, _, _) =>
        if visible {
          DfsAllExtends(nodes, children, pieces, limit, depth);
        }
    }
  }

  lemma {:induction false} DfsAllExtends(nodes: map<NodeId, Node>, ids: seq<NodeId>, pieces: seq<string>, limit: nat, depth: nat)
    ensures DfsAll(nodes, ids, pieces, limit, depth).Success? ==> Extends(nodes, pieces, DfsAll(nodes, ids, pieces, limit, depth).value)
    decreases depth, 0, |ids|
  {
    if ids != [] && depth > 0 {
      var mid := Dfs(nodes, ids[0], pieces, limit, depth - 1);
      DfsExtends(nodes, ids[0], pieces, limit, depth - 1);
      if mid.Success? {
        DfsAllExtends(nodes, ids[1..], mid.value, limit, depth);
        if DfsAll(nodes, ids[1..], mid.value, limit, depth).Success? {
          ExtendsTrans(nodes, pieces, mid.value, DfsAll(nodes, ids[1..], mid.value, limit, depth).value);
        }
      }
    }
  }

  /** More room below the recursion limit never changes a walk that finished. */
  lemma {:induction false} DfsDeeper(nodes: map<NodeId, Node>, id: NodeId, pieces: seq<string>, limit: nat, depth: nat, more: nat)
    requires Dfs(nodes, id, pieces, limit, depth).Success? && depth <= more
    ensures Dfs(nodes, id, pieces, limit, more) == Dfs(nodes, id, pieces, limit, depth)
    decreases depth, 1
  {
    if !(|Join(" ", pieces)| >= limit || id !in nodes) && nodes[id].ElementNode? && nodes[id].isVisible {
      DfsAllDeeper(nodes, nodes[id].children, pieces, limit, depth, more);
    }
  }

  lemma {:induction false} DfsAllDeeper(nodes: map<NodeId, Node>, ids: seq<NodeId>, pieces: seq<string>, limit: nat, depth: nat, more: nat)
    requires DfsAll(nodes, ids, pieces, limit, depth).Success? && depth <= more
    ensures DfsAll(nodes, ids, pieces, limit, more) == DfsAll(nodes, ids, pieces, limit, depth)
    decreases depth, 0, |ids|
  {
    if ids != [] {
      DfsDeeper(nodes, ids[0], pieces, limit, depth - 1, more - 1);
      var mid := Dfs(nodes, ids[0], pieces, limit, depth - 1);
      DfsAllDeeper(nodes, ids[1..], mid.value, limit, depth, more);
    }
  }

  /** Every child of a visible element is a node of lower rank. */
  ghost predicate Ranked(nodes: map<NodeId, Node>, rank: map<NodeId, int>) {
    forall x :: x in nodes ==>
      && x in rank && rank[x] >= 0
      && (nodes[x].ElementNode? && nodes[x].isVisible ==>
            forall j :: 0 <= j < |nodes[x].children| ==>
              nodes[x].children[j] in nodes && nodes[x].children[j] in rank && rank[nodes[x].children[j]] < rank[x])
  }

  /** On an arena without cycles through visible elements, the walk from a node
      finishes whenever the recursion limit leaves room for more levels than the
      node's rank: one per element on the way down and one for the text node's
      `_normalize_whitespace` at the bottom. */
  lemma {:induction false} RankedDfsFinishes(nodes: map<NodeId, Node>, rank: map<NodeId, int>, id: NodeId, pieces: seq<string>, limit: nat, depth: nat)
    requires Ranked(nodes, rank) && (id in nodes ==> rank[id] < depth)
    ensures Dfs(nodes, id, pieces, limit, depth).Success?
    decreases depth, 1
  {
    if !(|Join(" ", pieces)| >= limit || id !in nodes) && nodes[id].ElementNode? && nodes[id].isVisible {
      RankedDfsAllFinishes(nodes, rank, id, nodes[id].children, pieces, limit, depth);
    }
  }

  lemma {:induction false} RankedDfsAllFinishes(nodes: map<NodeId, Node>, rank: map<NodeId, int>, parent: NodeId, ids: seq<NodeId>, pieces: seq<string>, limit: nat, depth: nat)
    requires Ranked(nodes, rank) && parent in rank && rank[parent] < depth
    requires forall j :: 0 <= j < |ids| ==> ids[j] in nodes && ids[j] in rank && rank[ids[j]] < rank[parent]
    ensures DfsAll(nodes, ids, pieces, limit, depth).Success?
    decreases depth, 0, |ids|
  {
    if ids != [] {
      assert ids[0] in nodes && rank[ids[0]] < rank[parent];
      RankedDfsFinishes(nodes, rank, ids[0], pieces, limit, depth - 1);
      var mid := Dfs(nodes, ids[0], pieces, limit, depth - 1);
      forall j | 0 <= j < |ids[1..]| ensures ids[1..][j] in nodes && ids[1..][j] in rank && rank[ids[1..][j]] < rank[parent] {
        assert ids[1..][j] == ids[j + 1];
      }
      RankedDfsAllFinishes(nodes, rank, parent, ids[1..], mid.value, limit, depth);
    }
  }

  /** The cut of the final text: kept unchanged when it fits, otherwise the first
      `limit - 1` characters (Python's `text[:-1]` when `limit` is 0) with trailing
      whitespace removed, followed by the marker. */
  function Truncate(text: string, limit: nat): string {
    if |text| <= limit then text
    else
      var kept := if limit >= 1 then text[..limit - 1] else text[..|text| - 1];
      RStrip(kept) + [Ellipsis]
  }

  /** A text that fits is returned unchanged; a cut one ends in the marker, is
      otherwise a prefix of the text without trailing whitespace, and has at most
      `limit` characters when `limit` is positive. */
  lemma TruncateSpec(text: string, limit: nat)
    ensures var r := Truncate(text, limit);
      && (|text| <= limit ==> r == text)
      && (|text| > limit ==> r != [] && r[|r| - 1] == Ellipsis)
      && (|text| > limit ==> |r| - 1 < |text| && r[..|r| - 1] == text[..|r| - 1])
      && (|text| > limit && |r| >= 2 ==> !IsSpace(r[|r| - 2]))
      && (|text| > limit && limit >= 1 ==> |r| <= limit)
  {
    if |text| > limit {
      var kept := if limit >= 1 then text[..limit - 1] else text[..|text| - 1];
      RStripSpec(kept);
      var r := RStrip(kept) + [Ellipsis];
      assert r[..|r| - 1] == RStrip(kept);
    }
  }

  /** Cutting a normalized text drops at most one whitespace character before the
      marker, so the result has `limit` or `limit - 1` characters. */
  lemma TruncateNormalizedLength(text: string, limit: nat)
    requires IsNormalized(text) && |text| > limit >= 1
    ensures limit - 1 <= |Truncate(text, limit)| <= limit
  {
    var kept := text[..limit - 1];
    TruncateSpec(text, limit);
    if kept != [] && IsSpace(kept[|kept| - 1]) {
      var i := |kept| - 1;
      assert IsSpace(text[i]);
      assert i > 0;
      assert !IsSpace(text[i - 1]);
      assert kept[..i] == text[..i];
      assert RStrip(kept) == RStrip(kept[..i]);
      assert RStrip(kept[..i]) == kept[..i];
    } else {
      assert RStrip(kept) == kept;
    }
  }

  /** What `_collect_visible_text(node, limit)` returns for the node `id`, or the
      `RecursionError` its walk raises. */
  function VisibleText(nodes: map<NodeId, Node>, id: NodeId, limit: nat, depth: nat): Result<string, WalkError> {
    var pieces := Dfs(nodes, id, [], limit, depth);
    if pieces.Failure? then Failure(pieces.error)
    else Success(Truncate(NormalizeWhitespace(Join(" ", pieces.value)), limit))
  }

  /** The nested `dfs`, appending to the collected pieces. */
  method CollectFrom(nodes: map<NodeId, Node>, id: NodeId, pieces: seq<string>, limit: nat, depth: nat)
    returns (r: Result<seq<string>, WalkError>)
    ensures r == Dfs(nodes, id, pieces, limit, depth)
    decreases depth
  {
    if |Join(" ", pieces)| >= limit || id !in nodes {
      return Success(pieces);
    }
    var n := nodes[id];
    if n.TextNode? {
      if !n.isVisible {
        return Success(pieces);
      }
      if depth == 0 {
        return Failure(RecursionError);
      }
      var txt := NormalizeWhitespace(n.text);
      if txt != "" {
        return Success(pieces + [txt]);
      }
      return Success(pieces);
    }
    if !n.isVisible {
      return Success(pieces);
    }
    var acc := pieces;
    var j := 0;
    while j < |n.children|
      invariant 0 <= j <= |n.children|
      invariant DfsAll(nodes, n.children[j..], acc, limit, depth) == Dfs(nodes, id, pieces, limit, depth)
    {
      if depth == 0 {
        return Failure(RecursionError);
      }
      assert n.children[j..][1..] == n.children[j + 1..];
      var sub := CollectFrom(nodes, n.children[j], acc, limit, depth - 1);
      if sub.Failure? {
        return sub;
      }
      acc := sub.value;
      j := j + 1;
    }
    return Success(acc);
  }

  /** utils.py `_collect_visible_text`. */
  method CollectVisibleText(nodes: map<NodeId, Node>, id: NodeId, limit: nat, depth: nat) returns (text: Result<string, WalkError>)
    ensures text == VisibleText(nodes, id, limit, depth)
  {
    var pieces := CollectFrom(nodes, id, [], limit, depth);
    if pieces.Failure? {
      return Failure(pieces.error);
    }
    var joined := NormalizeWhitespace(Join(" ", pieces.value));
    return Success(Truncate(joined, limit));
  }

  /** Every collected piece is normalized and non-empty, so joining them already
      gives normalized text and the second normalization changes nothing. */
  lemma VisibleTextBeforeCut(nodes: map<NodeId, Node>, id: NodeId, limit: nat, depth: nat)
    requires Dfs(nodes, id, [], limit, depth).Success?
    ensures var pieces := Dfs(nodes, id, [], limit, depth).value;
      NormalizeWhitespace(Join(" ", pieces)) == Join(" ", pieces)
  {
    var pieces := Dfs(nodes, id, [], limit, depth).value;
    DfsExtends(nodes, id, [], limit, depth);
    forall k | 0 <= k < |pieces| ensures IsNormalized(pieces[k]) && pieces[k] != [] {
      assert IsVisiblePiece(nodes, pieces[k]);
      var t :| t in nodes && nodes[t].TextNode? && nodes[t].isVisible && NormalizeWhitespace(nodes[t].text) == pieces[k];
      NormalizeWhitespaceShape(nodes[t].text);
    }
    JoinNormalized(pieces);
    NormalizeFixedPoint(Join(" ", pieces));
  }

  /** Normalizing and then cutting any text gives at most `limit` characters; the
      normalized text comes back unchanged when it fits, and otherwise the result
      has at least `limit - 1` characters and ends in the marker. */
  lemma NormalizedCutBounds(s: string, limit: nat)
    requires limit >= 1
    ensures var full := NormalizeWhitespace(s);
      var r := Truncate(full, limit);
      && |r| <= limit
      && (|full| <= limit ==> r == full)
      && (|full| > limit ==> limit - 1 <= |r| && r[|r| - 1] == Ellipsis)
  {
    var full := NormalizeWhitespace(s);
    NormalizeWhitespaceShape(s);
    TruncateSpec(full, limit);
    if |full| > limit {
      TruncateNormalizedLength(full, limit);
    }
  }

  /** A hidden element contributes nothing from its subtree, also when the walk
      starts at it. */
  lemma HiddenElementGivesNothing(nodes: map<NodeId, Node>, id: NodeId, pieces: seq<string>, limit: nat, depth: nat)
    requires id in nodes && nodes[id].ElementNode? && !nodes[id].isVisible
    ensures Dfs(nodes, id, pieces, limit, depth) == Success(pieces)
    ensures VisibleText(nodes, id, limit, depth) == Success("")
  {
  }

  /** A visible text node reached before the budget is used up raises exactly when
      no level is left for `_normalize_whitespace`. Otherwise it adds one piece, its
      normalized text, exactly when it is visible, that text is non-empty and the
      budget is not yet used up. */
  lemma TextNodeContribution(nodes: map<NodeId, Node>, id: NodeId, pieces: seq<string>, limit: nat, depth: nat)
    requires id in nodes && nodes[id].TextNode?
    ensures var r := Dfs(nodes, id, pieces, limit, depth);
      var txt := NormalizeWhitespace(nodes[id].text);
      && (r.Failure? <==> nodes[id].isVisible && |Join(" ", pieces)| < limit && depth == 0)
      && (r.Success? ==> (r.value != pieces <==> nodes[id].isVisible && txt != "" && |Join(" ", pieces)| < limit))
      && (r.Success? && r.value != pieces ==> r.value == pieces + [txt])
  {
  }

  /** The pass ranks its arena by position: when no element lists itself, every
      child comes strictly earlier in the pass than its parent, and the walk from
      any node finishes once the recursion limit leaves room for as many levels as
      the pass has entries, the text node's `_normalize_whitespace` included. */
  lemma PassWithoutSelfChildFinishes(es: seq<(NodeId, NodeData)>, id: NodeId, pieces: seq<string>, limit: nat, depth: nat)
    requires DistinctIds(es) && |es| <= depth
    requires var nodes := Build(es).nodeMap;
      forall x :: x in nodes && nodes[x].ElementNode? ==> x !in nodes[x].children
    ensures Dfs(Build(es).nodeMap, id, pieces, limit, depth).Success?
  {
    var nodes := Build(es).nodeMap;
    var rank := map x | x in nodes :: DomProperties.IndexOf(es, x);
    forall x | x in nodes
      ensures x in rank && 0 <= rank[x] < |es|
      ensures nodes[x].ElementNode? && nodes[x].isVisible ==>
                forall j :: 0 <= j < |nodes[x].children| ==>
                  nodes[x].children[j] in nodes && nodes[x].children[j] in rank && rank[nodes[x].children[j]] < rank[x]
    {
      DomProperties.PassRanksNode(es, x);
      if nodes[x].ElementNode? {
        var cs := nodes[x].children;
        forall j | 0 <= j < |cs| ensures rank[cs[j]] != rank[x] {
          assert cs[j] in cs;
        }
      }
    }
    assert Ranked(nodes, rank);
    RankedDfsFinishes(nodes, rank, id, pieces, limit, depth);
  }

  /** `n` pieces "abc". */
  function Copies(n: nat): seq<string> {
    seq(n, _ => "abc")
  }

  /** `n` pieces "abc" joined by spaces: a space exactly at every fourth position. */
  lemma {:induction false} CopiesJoin(n: nat)
    requires n >= 1
    ensures |Join(" ", Copies(n))| == 4 * n - 1
    ensures forall i :: 0 <= i < 4 * n - 1 ==> (IsSpace(Join(" ", Copies(n))[i]) <==> i % 4 == 3)
    ensures n >= 2 ==> Join(" ", Copies(n)) == Join(" ", Copies(n - 1)) + " abc"
  {
    if n >= 2 {
      CopiesJoin(n - 1);
      assert Copies(n)[1..] == Copies(n - 1);
      var rest := Join(" ", Copies(n - 1));
      var j := Join(" ", Copies(n));
      assert j == "abc" + " " + rest;
      if n >= 3 {
        assert Copies(n - 1)[1..] == Copies(n - 2);
        assert rest == "abc" + " " + Join(" ", Copies(n - 2));
      } else {
        assert rest == "abc";
      }
      forall i | 0 <= i < 4 * n - 1 ensures IsSpace(j[i]) <==> i % 4 == 3 {
        if i >= 4 {
          assert j[i] == rest[i - 4];
        }
      }
    } else {
      assert Join(" ", Copies(1)) == "abc";
    }
  }

  /** The arena of a visible element "e" whose children are the visible text node
      "t", holding "abc", and then "e" itself. */
  ghost predicate SelfChildArena(nodes: map<NodeId, Node>) {
    && "t" in nodes && nodes["t"].TextNode? && nodes["t"].isVisible && nodes["t"].text == "abc"
    && "e" in nodes && nodes["e"].ElementNode? && nodes["e"].isVisible && nodes["e"].children == ["t", "e"]
  }

  /** Before the 76th round the joined pieces are under the budget. */
  lemma CopiesShort(n: nat)
    requires n < 76
    ensures |Join(" ", Copies(n))| < 300
  {
    if n >= 1 {
      CopiesJoin(n);
    }
  }

  /** The text node "t" adds one more "abc" before the budget is reached, given a
      level for its `_normalize_whitespace`, and raises without one. */
  lemma TextRound(nodes: map<NodeId, Node>, n: nat, depth: nat)
    requires SelfChildArena(nodes) && n < 76
    ensures depth == 0 ==> Dfs(nodes, "t", Copies(n), 300, depth) == Failure(RecursionError)
    ensures depth > 0 ==> Dfs(nodes, "t", Copies(n), 300, depth) == Success(Copies(n + 1))
  {
    CopiesShort(n);
    assert IsNormalized("abc");
    NormalizeFixedPoint("abc");
    assert Copies(n) + ["abc"] == Copies(n + 1);
  }

  /** One round through "e" before the budget is reached: with fewer than two
      levels left, the call to "t" or its `_normalize_whitespace` raises; otherwise
      "t" adds one "abc" and the walk re-enters "e" one level deeper. */
  lemma SelfChildRound(nodes: map<NodeId, Node>, n: nat, depth: nat)
    requires SelfChildArena(nodes) && n < 76
    ensures depth <= 1 ==> Dfs(nodes, "e", Copies(n), 300, depth) == Failure(RecursionError)
    ensures depth >= 2 ==> Dfs(nodes, "e", Copies(n), 300, depth) == Dfs(nodes, "e", Copies(n + 1), 300, depth - 1)
  {
    CopiesShort(n);
    assert Dfs(nodes, "e", Copies(n), 300, depth) == DfsAll(nodes, ["t", "e"], Copies(n), 300, depth);
    if depth == 1 {
      TextRound(nodes, n, 0);
    } else if depth >= 2 {
      TextRound(nodes, n, depth - 1);
      assert ["t", "e"][1..] == ["e"];
      var inner := Dfs(nodes, "e", Copies(n + 1), 300, depth - 1);
      assert DfsAll(nodes, ["e"], Copies(n + 1), 300, depth) ==
             if inner.Failure? then inner else DfsAll(nodes, [], inner.value, 300, depth);
    }
  }

  /** Each round through "e" collects one more "abc" and takes one level, until the
      76 pieces joined reach 303 characters and the budget check returns; the last
      round also needs a level for the text node's `_normalize_whitespace`. */
  lemma {:induction false} SelfChildRounds(nodes: map<NodeId, Node>, n: nat, depth: nat)
    requires SelfChildArena(nodes) && n <= 76
    ensures n < 76 ==> (Dfs(nodes, "e", Copies(n), 300, depth).Success? <==> 77 - n <= depth)
    ensures n == 76 || 77 - n <= depth ==> Dfs(nodes, "e", Copies(n), 300, depth) == Success(Copies(76))
    decreases 76 - n
  {
    if n < 76 {
      SelfChildRound(nodes, n, depth);
      if depth >= 2 {
        SelfChildRounds(nodes, n + 1, depth - 1);
      }
    } else {
      CopiesJoin(76);
    }
  }

  /** On that arena `_collect_visible_text` repeats "abc" up to the budget: with room
      for 77 levels or more it returns 300 characters, 75 rounds of "abc" joined
      by spaces and the marker; with less it raises `RecursionError`. */
  lemma SelfChildRepeatsText(nodes: map<NodeId, Node>, depth: nat)
    requires SelfChildArena(nodes)
    ensures var r := VisibleText(nodes, "e", ContentCharLimit, depth);
      && (r.Success? <==> depth >= 77)
      && (r.Success? ==> |r.value| == 300 && r.value == Join(" ", Copies(75)) + [Ellipsis])
  {
    SelfChildRounds(nodes, 0, depth);
    if depth >= 77 {
      var j := Join(" ", Copies(76));
      CopiesJoin(76);
      VisibleTextBeforeCut(nodes, "e", ContentCharLimit, depth);
      var kept := Join(" ", Copies(75));
      CopiesJoin(75);
      assert j[..299] == kept;
      assert !IsSpace(kept[298]);
      assert RStrip(kept) == kept;
    }
  }

  /** The arena of a visible element "e" whose only child is itself. */
  ghost predicate SelfLoopArena(nodes: map<NodeId, Node>) {
    "e" in nodes && nodes["e"].ElementNode? && nodes["e"].isVisible && nodes["e"].children == ["e"]
  }

  /** A round through "e" that collects nothing re-enters it with the same pieces:
      the walk raises `RecursionError` however much room the limit leaves. */
  lemma {:induction false} SelfLoopRecursesForever(nodes: map<NodeId, Node>, limit: nat, depth: nat)
    requires SelfLoopArena(nodes) && limit >= 1
    ensures Dfs(nodes, "e", [], limit, depth) == Failure(RecursionError)
    ensures VisibleText(nodes, "e", limit, depth) == Failure(RecursionError)
    decreases depth
  {
    if depth > 0 {
      SelfLoopRecursesForever(nodes, limit, depth - 1);
      assert ["e"][1..] == [];
    }
  }

  /** `construct_dom_tree` builds both arenas: an element id is already in the
      node map when its own child loop runs. */
  lemma SelfChildPages()
    ensures var page := EvalPage([("t", DomProperties.TextData("abc")),
                                  ("e", DomProperties.ElementData("div", [StrId("t"), StrId("e")], None))], StrId("e"));
      DomTreeOf(page).Success? && SelfChildArena(DomTreeOf(page).value.nodes)
    ensures var page := EvalPage([("e", DomProperties.ElementData("div", [StrId("e")], None))], StrId("e"));
      DomTreeOf(page).Success? && SelfLoopArena(DomTreeOf(page).value.nodes)
  {
    DomProperties.SelfChildIsAttached();
    DomProperties.SelfLoopIsAttached();
  }

  // ---------------------------------------------------------------------------
  // _select_key_attributes
  // ---------------------------------------------------------------------------

  /** The attributes worth showing, in the order they are reported. */
  const IncludeKeys: seq<string> := [
    "href", "title", "name", "type", "role", "value", "placeholder", "alt",
    "aria-label", "aria-expanded", "aria-checked", "data-state"]

  /** The order of the output: the listed keys, then `src`. */
  const KeyOrder: seq<string> := IncludeKeys + ["src"]

  /** An ordered dict of attribute values; `None` stands for JSON null. */
  type AttributeList = seq<(string, Option<string>)>

  /** A listed key is copied when present with a value other than null and "". */
  predicate Keeps(attrs: map<string, Option<string>>, key: string) {
    key in attrs && attrs[key] != None && attrs[key] != Some("")
  }

  /** The kept keys among `keys`, with their values, in the order of `keys`. */
  function Picked(attrs: map<string, Option<string>>, keys: seq<string>): (r: AttributeList)
    ensures forall e :: e in r ==> e.0 in keys && Keeps(attrs, e.0) && e.1 == attrs[e.0]
    ensures forall k :: k in keys && Keeps(attrs, k) ==> (k, attrs[k]) in r
  {
    if keys == [] then []
    else
      var k := keys[|keys| - 1];
      Picked(attrs, keys[..|keys| - 1]) + (if Keeps(attrs, k) then [(k, attrs[k])] else [])
  }

  /** What `_select_key_attributes(attrs, tag)` returns. */
  function KeyAttributes(attrs: map<string, Option<string>>, tag: string): AttributeList {
    Picked(attrs, IncludeKeys) + (if tag == "img" && "src" in attrs then [("src", attrs["src"])] else [])
  }

  predicate HasKey(r: AttributeList, k: string) {
    exists i :: 0 <= i < |r| && r[i].0 == k
  }

  /** The last position of `k` in `keys`, or -1. */
  function IndexIn(keys: seq<string>, k: string): (r: int)
    ensures -1 <= r < |keys|
    ensures r >= 0 ==> keys[r] == k
    ensures k in keys ==> r >= 0
  {
    if keys == [] then -1
    else if keys[|keys| - 1] == k then |keys| - 1
    else IndexIn(keys[..|keys| - 1], k)
  }

  predicate DistinctKeys(keys: seq<string>) {
    forall i, j :: 0 <= i < j < |keys| ==> keys[i] != keys[j]
  }

  /** Picked entries follow the order of `keys`. */
  lemma {:induction false} PickedOrdered(attrs: map<string, Option<string>>, keys: seq<string>)
    requires DistinctKeys(keys)
    ensures var r := Picked(attrs, keys);
      forall i, j :: 0 <= i < j < |r| ==> IndexIn(keys, r[i].0) < IndexIn(keys, r[j].0)
  {
    if keys != [] {
      var init := keys[..|keys| - 1];
      var last := keys[|keys| - 1];
      assert DistinctKeys(init);
      PickedOrdered(attrs, init);
      assert forall i, j :: 0 <= i < j < |Picked(attrs, init)| ==>
        IndexIn(init, Picked(attrs, init)[i].0) < IndexIn(init, Picked(attrs, init)[j].0);
      var p := Picked(attrs, init);
      forall e | e in p ensures e.0 != last && IndexIn(keys, e.0) == IndexIn(init, e.0) {
        var a :| 0 <= a < |init| && init[a] == e.0;
        assert keys[a] == init[a];
      }
      var r := Picked(attrs, keys);
      assert r == p + (if Keeps(attrs, last) then [(last, attrs[last])] else []);
      assert IndexIn(keys, last) == |keys| - 1;
      forall i, j | 0 <= i < j < |r| ensures IndexIn(keys, r[i].0) < IndexIn(keys, r[j].0) {
        assert r[i] == p[i] && p[i] in p;
        if j < |p| {
          assert r[j] == p[j] && p[j] in p;
          assert IndexIn(init, p[i].0) < IndexIn(init, p[j].0);
        } else {
          assert r[j].0 == last;
          assert IndexIn(init, p[i].0) < |init|;
        }
      }
    }
  }

  lemma KeyListFacts()
    ensures "src" !in IncludeKeys && DistinctKeys(IncludeKeys)
    ensures |KeyOrder| == 13 && KeyOrder[..12] == IncludeKeys && KeyOrder[12] == "src"
  {
  }

  /** `_select_key_attributes`: a listed key is in the output exactly when its value
      is neither null nor ""; `src` exactly when the tag is `img` and `src` is
      present, whatever its value; and every value is the input's. */
  lemma KeyAttributesMembers(attrs: map<string, Option<string>>, tag: string)
    ensures forall k :: k in IncludeKeys ==> (HasKey(KeyAttributes(attrs, tag), k) <==> Keeps(attrs, k))
    ensures HasKey(KeyAttributes(attrs, tag), "src") <==> tag == "img" && "src" in attrs
    ensures forall e :: e in KeyAttributes(attrs, tag) ==> e.0 in KeyOrder && e.0 in attrs && e.1 == attrs[e.0]
  {
    KeyListFacts();
    var p := Picked(attrs, IncludeKeys);
    var r := KeyAttributes(attrs, tag);
    assert r == p + (if tag == "img" && "src" in attrs then [("src", attrs["src"])] else []);
    forall k | k in IncludeKeys ensures HasKey(r, k) <==> Keeps(attrs, k) {
      if Keeps(attrs, k) {
        assert (k, attrs[k]) in p;
        var i :| 0 <= i < |p| && p[i] == (k, attrs[k]);
        assert r[i] == p[i];
      }
      if HasKey(r, k) {
        var i :| 0 <= i < |r| && r[i].0 == k;
        assert i < |p|;
        assert r[i] == p[i] && p[i] in p;
      }
    }
    forall i | 0 <= i < |p| ensures r[i].0 != "src" {
      assert r[i] == p[i] && p[i] in p;
    }
    if tag == "img" && "src" in attrs {
      assert r[|r| - 1].0 == "src";
    }
    forall e | e in r ensures e.0 in KeyOrder && e.0 in attrs && e.1 == attrs[e.0] {
      if e !in p {
        assert e == ("src", attrs["src"]);
      }
    }
  }

  /** The output follows the order of the list, with `src` last; so no key repeats. */
  lemma KeyAttributesOrdered(attrs: map<string, Option<string>>, tag: string)
    ensures forall i, j :: 0 <= i < j < |KeyAttributes(attrs, tag)| ==>
              IndexIn(KeyOrder, KeyAttributes(attrs, tag)[i].0) < IndexIn(KeyOrder, KeyAttributes(attrs, tag)[j].0)
  {
    KeyListFacts();
    var p := Picked(attrs, IncludeKeys);
    var r := KeyAttributes(attrs, tag);
    assert r == p + (if tag == "img" && "src" in attrs then [("src", attrs["src"])] else []);
    PickedOrdered(attrs, IncludeKeys);
    assert forall i, j :: 0 <= i < j < |Picked(attrs, IncludeKeys)| ==>
      IndexIn(IncludeKeys, Picked(attrs, IncludeKeys)[i].0) < IndexIn(IncludeKeys, Picked(attrs, IncludeKeys)[j].0);
    forall e | e in p ensures IndexIn(KeyOrder, e.0) == IndexIn(IncludeKeys, e.0) < 12 {
      assert e.0 != "src";
    }
    assert IndexIn(KeyOrder, "src") == 12;
    forall i, j | 0 <= i < j < |r| ensures IndexIn(KeyOrder, r[i].0) < IndexIn(KeyOrder, r[j].0) {
      assert r[i] == p[i] && p[i] in p;
      if j < |p| {
        assert r[j] == p[j] && p[j] in p;
      } else {
        assert r[j].0 == "src";
      }
    }
  }

  /** utils.py `_select_key_attributes`: the result dict filled in a loop. */
  method SelectKeyAttributes(attrs: map<string, Option<string>>, tag: string) returns (result: AttributeList)
    ensures result == KeyAttributes(attrs, tag)
  {
    result := [];
    var i := 0;
    while i < |IncludeKeys|
      invariant 0 <= i <= |IncludeKeys|
      invariant result == Picked(attrs, IncludeKeys[..i])
    {
      var key := IncludeKeys[i];
      assert IncludeKeys[..i + 1][..i] == IncludeKeys[..i];
      if key in attrs && attrs[key] != None && attrs[key] != Some("") {
        result := result + [(key, attrs[key])];
      }
      i := i + 1;
    }
    assert IncludeKeys[..i] == IncludeKeys;
    if tag == "img" && "src" in attrs {
      result := result + [("src", attrs["src"])];
    }
  }

  // ---------------------------------------------------------------------------
  // get_llm_browser_state
  // ---------------------------------------------------------------------------

  datatype ElementSummary = ElementSummary(index: int, tag: string, attributes: AttributeList, content: string)

  /** The returned dict: `current_url`, `interactive_elements` and `total_interactive`. */
  datatype LlmBrowserState = LlmBrowserState(currentUrl: Option<string>, elements: seq<ElementSummary>, totalInteractive: int)

  /** The summary of the element that carries index `k` in the selector map, or the
      `RecursionError` of its text walk. */
  function Summary(t: Snapshot, k: int, depth: nat): (r: Result<ElementSummary, WalkError>)
    requires Summarizable(t, k)
    ensures r.Success? ==> r.value.index == k
  {
    var id := t.selectorMap[k];
    var e := t.nodes[id];
    var content := VisibleText(t.nodes, id, ContentCharLimit, depth);
    if content.Failure? then Failure(content.error)
    else Success(ElementSummary(k, e.tagName, KeyAttributes(e.attributes, e.tagName), content.value))
  }

  /** The selector map's entry `k` names an element of the arena. */
  predicate Summarizable(t: Snapshot, k: int) {
    k in t.selectorMap && t.selectorMap[k] in t.nodes && t.nodes[t.selectorMap[k]].ElementNode?
  }

  /** The keys among `ks` whose entry names an element, in the order of `ks`. */
  function KeptKeys(t: Snapshot, ks: seq<int>): (r: seq<int>)
    ensures forall i :: 0 <= i < |r| ==> Summarizable(t, r[i]) && r[i] in ks
  {
    if ks == [] then []
    else
      var k := ks[|ks| - 1];
      KeptKeys(t, ks[..|ks| - 1]) + (if Summarizable(t, k) then [k] else [])
  }

  /** Over strictly ascending keys, the kept keys are strictly ascending and a key
      is kept exactly when it names an element. */
  lemma {:induction false} KeptKeysSpec(t: Snapshot, ks: seq<int>)
    requires forall i, j :: 0 <= i < j < |ks| ==> ks[i] < ks[j]
    ensures var r := KeptKeys(t, ks);
      && (forall i, j :: 0 <= i < j < |r| ==> r[i] < r[j])
      && (forall k :: k in ks && Summarizable(t, k) ==> k in r)
  {
    if ks != [] {
      var init := ks[..|ks| - 1];
      var last := ks[|ks| - 1];
      KeptKeysSpec(t, init);
      var p := KeptKeys(t, init);
      var r := KeptKeys(t, ks);
      assert r == p + (if Summarizable(t, last) then [last] else []);
      forall x | x in init ensures x < last {
        var b :| 0 <= b < |init| && init[b] == x;
        assert ks[b] == x;
      }
      forall i | 0 <= i < |p| ensures r[i] == p[i] && p[i] < last {
        assert p[i] in init;
      }
      forall k | k in ks && Summarizable(t, k) ensures k in r {
        if k != last {
          assert k in init;
          assert k in p;
        }
      }
    }
  }

  /** Some element of a non-empty set. */
  lemma Pick(s: set<int>) returns (y: int)
    requires s != {}
    ensures y in s
  {
    assert (forall z :: z !in s) ==> s == {};
    y :| y in s;
  }

  lemma MinExists(s: set<int>)
    requires s != {}
    ensures exists m :: m in s && forall x :: x in s ==> m <= x
    decreases |s|
  {
    var y := Pick(s);
    var rest := s - {y};
    if |rest| == 0 {
      forall x | x in s ensures y <= x {
        assert x !in rest;
      }
    } else {
      assert rest != {};
      MinExists(rest);
      var m :| m in rest && forall x :: x in rest ==> m <= x;
      var least := if y < m then y else m;
      forall x | x in s ensures least <= x {
        if x != y {
          assert x in rest;
        }
      }
      assert least in s;
    }
  }

  /** Python's `sorted(keys)` on a set of integers. */
  method SortedKeys(keys: set<int>) returns (r: seq<int>)
    ensures forall i, j :: 0 <= i < j < |r| ==> r[i] < r[j]
    ensures forall k :: k in r <==> k in keys
  {
    r := [];
    var rest := keys;
    while rest != {}
      invariant forall k :: k in keys <==> k in r || k in rest
      invariant forall k :: k in r ==> k !in rest
      invariant forall i, x :: 0 <= i < |r| && x in rest ==> r[i] < x
      invariant forall i, j :: 0 <= i < j < |r| ==> r[i] < r[j]
      decreases |rest|
    {
      MinExists(rest);
      var m :| m in rest && forall x :: x in rest ==> m <= x;
      r := r + [m];
      rest := rest - {m};
    }
  }

  /** The summaries of the keys among `ks` whose entry names an element, in the
      order of `ks`; the first failing text walk raises. */
  function Summaries(t: Snapshot, ks: seq<int>, depth: nat): Result<seq<ElementSummary>, WalkError> {
    if ks == [] then Success([])
    else
      var k := ks[|ks| - 1];
      var init := Summaries(t, ks[..|ks| - 1], depth);
      if init.Failure? || !Summarizable(t, k) then init
      else
        var s := Summary(t, k, depth);
        if s.Failure? then Failure(s.error) else Success(init.value + [s.value])
  }

  /** Every kept key among `ks` has a text walk that finishes. */
  predicate AllWalk(t: Snapshot, ks: seq<int>, depth: nat) {
    forall i :: 0 <= i < |ks| && Summarizable(t, ks[i]) ==> Summary(t, ks[i], depth).Success?
  }

  lemma AllWalkSnoc(t: Snapshot, ks: seq<int>, depth: nat)
    requires ks != []
    ensures var k := ks[|ks| - 1];
      AllWalk(t, ks, depth) <==> AllWalk(t, ks[..|ks| - 1], depth) && (Summarizable(t, k) ==> Summary(t, k, depth).Success?)
  {
    var init := ks[..|ks| - 1];
    forall i | 0 <= i < |init| ensures init[i] == ks[i] {
    }
  }

  lemma {:induction false} SummariesSucceed(t: Snapshot, ks: seq<int>, depth: nat)
    ensures Summaries(t, ks, depth).Success? <==> AllWalk(t, ks, depth)
  {
    if ks != [] {
      SummariesSucceed(t, ks[..|ks| - 1], depth);
      AllWalkSnoc(t, ks, depth);
    }
  }

  lemma {:induction false} SummariesContent(t: Snapshot, ks: seq<int>, depth: nat)
    ensures Summaries(t, ks, depth).Success? ==>
              && |Summaries(t, ks, depth).value| == |KeptKeys(t, ks)|
              && forall a :: 0 <= a < |KeptKeys(t, ks)| ==>
                   Summary(t, KeptKeys(t, ks)[a], depth) == Success(Summaries(t, ks, depth).value[a])
  {
    if ks != [] {
      SummariesContent(t, ks[..|ks| - 1], depth);
    }
  }

  /** The summaries are produced exactly when the text walk of every kept key
      finishes; there is then one per kept key, and it is that key's summary. */
  lemma SummariesSpec(t: Snapshot, ks: seq<int>, depth: nat)
    ensures Summaries(t, ks, depth).Success? <==>
              forall i :: 0 <= i < |ks| && Summarizable(t, ks[i]) ==> Summary(t, ks[i], depth).Success?
    ensures Summaries(t, ks, depth).Success? ==>
              && |Summaries(t, ks, depth).value| == |KeptKeys(t, ks)|
              && forall a :: 0 <= a < |KeptKeys(t, ks)| ==>
                   Summary(t, KeptKeys(t, ks)[a], depth) == Success(Summaries(t, ks, depth).value[a])
  {
    SummariesSucceed(t, ks, depth);
    SummariesContent(t, ks, depth);
  }

  /** utils.py `get_llm_browser_state`: one summary per selector map entry naming an
      element, in strictly ascending index order, with `total_interactive` its count;
      it raises when the text walk of such an element does. */
  method GetLlmBrowserState(url: Option<string>, t: Snapshot, depth: nat) returns (s: Result<LlmBrowserState, WalkError>)
    ensures s.Success? <==> forall k :: Summarizable(t, k) ==> Summary(t, k, depth).Success?
    ensures s.Success? ==> s.value.currentUrl == url
    ensures s.Success? ==> s.value.totalInteractive == |s.value.elements|
    ensures s.Success? ==> forall i, j :: 0 <= i < j < |s.value.elements| ==> s.value.elements[i].index < s.value.elements[j].index
    ensures s.Success? ==> forall i :: 0 <= i < |s.value.elements| ==>
              Summarizable(t, s.value.elements[i].index) &&
              Summary(t, s.value.elements[i].index, depth) == Success(s.value.elements[i])
    ensures s.Success? ==> forall k :: Summarizable(t, k) ==> exists i :: 0 <= i < |s.value.elements| && s.value.elements[i].index == k
  {
    var keys := SortedKeys(t.selectorMap.Keys);
    var elements: seq<ElementSummary> := [];
    var i := 0;
    while i < |keys|
      invariant 0 <= i <= |keys|
      invariant Summaries(t, keys[..i], depth) == Success(elements)
    {
      var index := keys[i];
      var id := t.selectorMap[index];
      assert keys[..i + 1][..i] == keys[..i];
      assert keys[..i + 1][i] == index;
      if id in t.nodes && t.nodes[id].ElementNode? {
        var e := t.nodes[id];
        var content := CollectVisibleText(t.nodes, id, ContentCharLimit, depth);
        if content.Failure? {
          assert !Summary(t, index, depth).Success?;
          return Failure(content.error);
        }
        var attrs := SelectKeyAttributes(e.attributes, e.tagName);
        elements := elements + [ElementSummary(index, e.tagName, attrs, content.value)];
      }
      i := i + 1;
    }
    assert keys[..i] == keys;
    var kept := KeptKeys(t, keys);
    KeptKeysSpec(t, keys);
    SummariesSpec(t, keys, depth);
    s := Success(LlmBrowserState(url, elements, |elements|));
    forall a | 0 <= a < |elements| ensures elements[a].index == kept[a] {
    }
    forall k | Summarizable(t, k) ensures Summary(t, k, depth).Success? && exists a :: 0 <= a < |elements| && elements[a].index == k {
      assert k in keys;
      var b :| 0 <= b < |keys| && keys[b] == k;
      assert k in kept;
      var a :| 0 <= a < |kept| && kept[a] == k;
      assert elements[a].index == k;
    }
  }
}
