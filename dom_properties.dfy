/** What the pass of `construct_dom_tree` guarantees, stated against the input map:
    which ids are built, what each node holds, which children are attached and in
    which order, where `parent` points, what the selector map holds and when the
    call fails. */
module DomProperties {
  import opened Wrappers
  import opened Dom

  /** The ids of the non-empty descriptors among `es`. */
  function Built(es: seq<(NodeId, NodeData)>): set<NodeId> {
    set i | 0 <= i < |es| && es[i].1.Data? :: es[i].0
  }

  /** The declared child ids, as `str()` gives them, that are among `built`, in declared order. */
  function KnownChildren(cids: seq<RawId>, built: set<NodeId>): seq<NodeId> {
    if cids == [] then []
    else
      var c := IdString(cids[|cids| - 1]);
      KnownChildren(cids[..|cids| - 1], built) + (if c in built then [c] else [])
  }

  /** The position in the pass of the last entry with id `id`, or -1. */
  function IndexOf(es: seq<(NodeId, NodeData)>, id: NodeId): (r: int)
    ensures -1 <= r < |es|
    ensures r >= 0 ==> es[r].0 == id
  {
    if es == [] then -1
    else if es[|es| - 1].0 == id then |es| - 1
    else IndexOf(es[..|es| - 1], id)
  }

  // ---------------------------------------------------------------------------
  // Helpers about the definitions
  // ---------------------------------------------------------------------------

  lemma BuiltSnoc(es: seq<(NodeId, NodeData)>)
    requires es != []
    ensures Built(es) == Built(es[..|es| - 1]) + (if es[|es| - 1].1.Data? then {es[|es| - 1].0} else {})
  {
    var init := es[..|es| - 1];
    forall id | id in Built(es)
      ensures id in Built(init) + (if es[|es| - 1].1.Data? then {es[|es| - 1].0} else {})
    {
      var i :| 0 <= i < |es| && es[i].1.Data? && es[i].0 == id;
      if i < |es| - 1 {
        assert init[i] == es[i];
      }
    }
    forall id | id in Built(init) ensures id in Built(es) {
      var i :| 0 <= i < |init| && init[i].1.Data? && init[i].0 == id;
      assert es[i] == init[i];
    }
  }

  lemma {:induction false} KnownChildrenIff(cids: seq<RawId>, built: set<NodeId>, k: NodeId)
    ensures k in KnownChildren(cids, built) <==>
              k in built && exists j :: 0 <= j < |cids| && IdString(cids[j]) == k
  {
    if cids != [] {
      var init := cids[..|cids| - 1];
      KnownChildrenIff(init, built, k);
      if exists j :: 0 <= j < |cids| && IdString(cids[j]) == k {
        var j :| 0 <= j < |cids| && IdString(cids[j]) == k;
        if j < |cids| - 1 {
          assert init[j] == cids[j];
        }
      }
      if exists j :: 0 <= j < |init| && IdString(init[j]) == k {
        var j :| 0 <= j < |init| && IdString(init[j]) == k;
        assert cids[j] == init[j];
      }
    }
  }

  lemma {:induction false} IndexOfDistinct(es: seq<(NodeId, NodeData)>, i: nat)
    requires DistinctIds(es) && i < |es|
    ensures IndexOf(es, es[i].0) == i
  {
    if i < |es| - 1 {
      assert es[..|es| - 1][i] == es[i];
      IndexOfDistinct(es[..|es| - 1], i);
    }
  }

  lemma IndexOfSnoc(es: seq<(NodeId, NodeData)>, id: NodeId)
    requires es != [] && es[|es| - 1].0 != id
    ensures IndexOf(es, id) == IndexOf(es[..|es| - 1], id)
  {
  }

  /** The ids of a distinct map's prefix are not the id of its last entry. */
  lemma LastIdIsNew(es: seq<(NodeId, NodeData)>)
    requires es != [] && DistinctIds(es)
    ensures es[|es| - 1].0 !in Built(es[..|es| - 1])
    ensures DistinctIds(es[..|es| - 1])
  {
    var init := es[..|es| - 1];
    forall i | 0 <= i < |init| ensures init[i].0 != es[|es| - 1].0 {
      assert init[i] == es[i];
    }
  }

  lemma DetachedKind(n: Node)
    ensures Detached(n).ElementNode? == n.ElementNode?
    ensures n.ElementNode? ==> Detached(n).highlightIndex == n.highlightIndex
  {
  }

  /** One turn of the child loop sets the parent of `c`, when built, and appends it
      to the attaching element's children; nothing else changes. */
  lemma AttachOneFacts(nodes: map<NodeId, Node>, pid: NodeId, c: NodeId)
    requires pid in nodes && nodes[pid].ElementNode?
    ensures var r := AttachOne(nodes, pid, c);
      && (forall k :: k in nodes ==> Detached(r[k]) == Detached(nodes[k]))
      && (forall k :: k in nodes && k != pid && nodes[k].ElementNode? ==>
            r[k].ElementNode? && r[k].children == nodes[k].children)
      && r[pid].children == nodes[pid].children + (if c in nodes then [c] else [])
      && (forall k :: k in nodes ==> r[k].parent == if k == c then Some(pid) else nodes[k].parent)
  {
    if c in nodes {
      var r := AttachOne(nodes, pid, c);
      forall k | k in nodes ensures Detached(r[k]) == Detached(nodes[k]) {
        if k == c || k == pid {
          DetachedKind(nodes[k]);
        }
      }
    }
  }

  /** The child loop of one element changes only `parent` fields and the `children`
      of the attaching element, which grows by the already-built declared children. */
  lemma {:induction false} AttachFacts(nodes: map<NodeId, Node>, pid: NodeId, cids: seq<RawId>)
    requires pid in nodes && nodes[pid].ElementNode?
    ensures var r := Attach(nodes, pid, cids);
      && (forall k :: k in nodes ==> Detached(r[k]) == Detached(nodes[k]))
      && (forall k :: k in nodes && k != pid && nodes[k].ElementNode? ==>
            r[k].ElementNode? && r[k].children == nodes[k].children)
      && r[pid].children == nodes[pid].children + KnownChildren(cids, nodes.Keys)
      && (forall k :: k in nodes ==>
            r[k].parent == if k in KnownChildren(cids, nodes.Keys) then Some(pid) else nodes[k].parent)
  {
    if cids != [] {
      var init := cids[..|cids| - 1];
      var c := IdString(cids[|cids| - 1]);
      AttachFacts(nodes, pid, init);
      var prev := Attach(nodes, pid, init);
      AttachOneFacts(prev, pid, c);
      var r := Attach(nodes, pid, cids);
      assert r == AttachOne(prev, pid, c);
      assert KnownChildren(cids, nodes.Keys)
          == KnownChildren(init, nodes.Keys) + (if c in nodes.Keys then [c] else []);
      forall k | k in nodes
        ensures r[k].parent == if k in KnownChildren(cids, nodes.Keys) then Some(pid) else nodes[k].parent
      {
        KnownChildrenIff(cids, nodes.Keys, k);
        KnownChildrenIff(init, nodes.Keys, k);
      }
    }
  }

  // ---------------------------------------------------------------------------
  // Which nodes are built, and with which fields
  // ---------------------------------------------------------------------------

  /** `node_map` holds exactly the ids of the non-empty descriptors: an empty
      descriptor yields no node. */
  lemma {:induction false} BuildKeys(es: seq<(NodeId, NodeData)>)
    ensures Build(es).nodeMap.Keys == Built(es)
  {
    if es != [] {
      BuildKeys(es[..|es| - 1]);
      BuiltSnoc(es);
    }
  }

  /** The node built under a descriptor's id is what `_parse_node` makes of that
      descriptor, apart from the links the pass adds (`children`, `parent`). */
  lemma {:induction false} BuildNode(es: seq<(NodeId, NodeData)>, i: nat)
    requires DistinctIds(es) && i < |es| && es[i].1.Data?
    ensures es[i].0 in Build(es).nodeMap
    ensures Detached(Build(es).nodeMap[es[i].0]) == ParseNode(es[i].1).0.value
  {
    var init := es[..|es| - 1];
    var e := es[|es| - 1];
    var s := Build(init);
    LastIdIsNew(es);
    BuildKeys(init);
    var parsed := ParseNode(e.1);
    if i < |es| - 1 {
      assert init[i] == es[i];
      BuildNode(init, i);
    }
    if parsed.0.Some? {
      var nodes := s.nodeMap[e.0 := parsed.0.value];
      if parsed.0.value.ElementNode? {
        AttachFacts(nodes, e.0, parsed.1);
      }
    }
  }

  /** An element's children are its declared child ids, in declared order, kept
      only when that id was built earlier in the pass or is the element's own id;
      ids that are absent or come later are skipped without an error. */
  lemma {:induction false} BuildChildren(es: seq<(NodeId, NodeData)>, i: nat)
    requires DistinctIds(es) && i < |es| && IsElementData(es[i].1)
    ensures es[i].0 in Build(es).nodeMap && Build(es).nodeMap[es[i].0].ElementNode?
    ensures Build(es).nodeMap[es[i].0].children == KnownChildren(ParseNode(es[i].1).1, Built(es[..i + 1]))
  {
    var init := es[..|es| - 1];
    var e := es[|es| - 1];
    var s := Build(init);
    LastIdIsNew(es);
    BuildKeys(init);
    BuiltSnoc(es);
    BuildNode(es, i);
    DetachedKind(Build(es).nodeMap[es[i].0]);
    var parsed := ParseNode(e.1);
    if i < |es| - 1 {
      assert init[i] == es[i];
      assert init[..i + 1] == es[..i + 1];
      BuildChildren(init, i);
      if parsed.0.Some? {
        var nodes := s.nodeMap[e.0 := parsed.0.value];
        if parsed.0.value.ElementNode? {
          AttachFacts(nodes, e.0, parsed.1);
        }
      }
    } else {
      assert es[..i + 1] == es;
      var nodes := s.nodeMap[e.0 := parsed.0.value];
      assert nodes.Keys == Built(es);
      AttachFacts(nodes, e.0, parsed.1);
      assert Build(es).nodeMap == Attach(nodes, e.0, parsed.1);
      assert nodes[e.0].children == [];
    }
  }

  /** A child the pass attaches to an element comes from the map and was built no
      later in the pass than that element. */
  lemma ChildrenBuiltEarlier(es: seq<(NodeId, NodeData)>, i: nat)
    requires DistinctIds(es) && i < |es| && IsElementData(es[i].1)
    ensures es[i].0 in Build(es).nodeMap && Build(es).nodeMap[es[i].0].ElementNode?
    ensures var cs := Build(es).nodeMap[es[i].0].children;
      forall j :: 0 <= j < |cs| ==> cs[j] in Build(es).nodeMap && 0 <= IndexOf(es, cs[j]) <= i
  {
    BuildChildren(es, i);
    BuildKeys(es);
    var cs := Build(es).nodeMap[es[i].0].children;
    var built := Built(es[..i + 1]);
    forall j | 0 <= j < |cs| ensures cs[j] in Build(es).nodeMap && 0 <= IndexOf(es, cs[j]) <= i {
      KnownChildrenIff(ParseNode(es[i].1).1, built, cs[j]);
      var k :| 0 <= k < |es[..i + 1]| && es[..i + 1][k].1.Data? && es[..i + 1][k].0 == cs[j];
      assert es[k] == es[..i + 1][k];
      IndexOfDistinct(es, k);
    }
  }

  /** A built node's position in the pass, and its children's, which are no later. */
  lemma PassRanksNode(es: seq<(NodeId, NodeData)>, x: NodeId)
    requires DistinctIds(es) && x in Build(es).nodeMap
    ensures 0 <= IndexOf(es, x) < |es|
    ensures Build(es).nodeMap[x].ElementNode? ==>
      var cs := Build(es).nodeMap[x].children;
      forall j :: 0 <= j < |cs| ==> cs[j] in Build(es).nodeMap && 0 <= IndexOf(es, cs[j]) <= IndexOf(es, x)
  {
    BuildKeys(es);
    var i :| 0 <= i < |es| && es[i].1.Data? && es[i].0 == x;
    IndexOfDistinct(es, i);
    if Build(es).nodeMap[x].ElementNode? {
      BuildNode(es, i);
      DetachedKind(Build(es).nodeMap[x]);
      ChildrenBuiltEarlier(es, i);
    }
  }

  /** Text descriptors give text nodes, which have no children. */
  lemma TextDescriptorGivesTextNode(es: seq<(NodeId, NodeData)>, i: nat)
    requires DistinctIds(es) && i < |es| && es[i].1.Data? && es[i].1.d.nodeType == Some(TextNodeType)
    ensures es[i].0 in Build(es).nodeMap && Build(es).nodeMap[es[i].0].TextNode?
    ensures Build(es).nodeMap[es[i].0].text == es[i].1.d.text.GetOr("")
  {
    BuildNode(es, i);
  }

  /** Missing keys take their defaults: a descriptor that sets none of the modelled
      keys gives an element with every flag false, no attributes, no children, no
      highlight index and no viewport information. */
  lemma DefaultsOfBareDescriptor()
    ensures ParseNode(Data(NoFields)) ==
            (Some(ElementNode("", "", map[], [], false, false, false, false, false, None, None, None)), [])
  {
  }

  // ---------------------------------------------------------------------------
  // Parent links
  // ---------------------------------------------------------------------------

  /** Every `parent` names an element that has the node among its children, and a
      node attached by several elements points to the one the pass reached last. */
  ghost predicate ParentLinks(es: seq<(NodeId, NodeData)>, nodes: map<NodeId, Node>) {
    && (forall c :: c in nodes && nodes[c].parent.Some? ==>
          var p := nodes[c].parent.value;
          p in nodes && nodes[p].ElementNode? && c in nodes[p].children)
    && (forall p, c :: p in nodes && nodes[p].ElementNode? && c in nodes[p].children ==>
          c in nodes && nodes[c].parent.Some? && IndexOf(es, p) <= IndexOf(es, nodes[c].parent.value))
  }

  lemma {:induction false} BuildParents(es: seq<(NodeId, NodeData)>)
    requires DistinctIds(es)
    ensures ParentLinks(es, Build(es).nodeMap)
  {
    if es != [] {
      var init := es[..|es| - 1];
      var e := es[|es| - 1];
      var s := Build(init);
      LastIdIsNew(es);
      BuildKeys(init);
      BuildParents(init);
      var parsed := ParseNode(e.1);
      if parsed.0.Some? {
        var n := parsed.0.value;
        var nodes := s.nodeMap[e.0 := n];
        var r := Build(es).nodeMap;
        forall x | x in s.nodeMap ensures IndexOf(es, x) == IndexOf(init, x) {
          IndexOfSnoc(es, x);
        }
        if n.ElementNode? {
          var kc := KnownChildren(parsed.1, nodes.Keys);
          AttachFacts(nodes, e.0, parsed.1);
          assert r == Attach(nodes, e.0, parsed.1);
          assert r[e.0].children == kc;
          forall c | c in r && r[c].parent.Some?
            ensures var p := r[c].parent.value; p in r && r[p].ElementNode? && c in r[p].children
          {
            if c !in kc {
              var p := s.nodeMap[c].parent.value;
              assert p != e.0;
            }
          }
          forall p, c | p in r && r[p].ElementNode? && c in r[p].children
            ensures c in r && r[c].parent.Some? && IndexOf(es, p) <= IndexOf(es, r[c].parent.value)
          {
            if p == e.0 {
              KnownChildrenIff(parsed.1, nodes.Keys, c);
            } else {
              DetachedKind(r[p]);
              DetachedKind(s.nodeMap[p]);
              assert c in s.nodeMap[p].children;
              if c !in kc {
                var q := s.nodeMap[c].parent.value;
                assert q in s.nodeMap;
              }
            }
          }
        } else {
          assert r == nodes;
          forall p, c | p in r && r[p].ElementNode? && c in r[p].children
            ensures c in r && r[c].parent.Some? && IndexOf(es, p) <= IndexOf(es, r[c].parent.value)
          {
            assert p != e.0;
            var q := s.nodeMap[c].parent.value;
            assert q in s.nodeMap;
          }
        }
      } else {
        forall x | x in s.nodeMap ensures IndexOf(es, x) == IndexOf(init, x) {
          IndexOfSnoc(es, x);
        }
      }
    }
  }

  // ---------------------------------------------------------------------------
  // The selector map
  // ---------------------------------------------------------------------------

  /** The selector map's keys are exactly the non-null highlight indices of element
      descriptors (0 included); text descriptors never contribute. */
  lemma {:induction false} SelectorKeys(es: seq<(NodeId, NodeData)>, k: int)
    ensures k in Build(es).selectorMap <==>
              exists i :: 0 <= i < |es| && IsElementData(es[i].1) && es[i].1.d.highlightIndex == Some(k)
  {
    if es != [] {
      var init := es[..|es| - 1];
      SelectorKeys(init, k);
      if exists i :: 0 <= i < |init| && IsElementData(init[i].1) && init[i].1.d.highlightIndex == Some(k) {
        var i :| 0 <= i < |init| && IsElementData(init[i].1) && init[i].1.d.highlightIndex == Some(k);
        assert es[i] == init[i];
      }
      if exists i :: 0 <= i < |es| && IsElementData(es[i].1) && es[i].1.d.highlightIndex == Some(k) {
        var i :| 0 <= i < |es| && IsElementData(es[i].1) && es[i].1.d.highlightIndex == Some(k);
        if i < |es| - 1 {
          assert init[i] == es[i];
        }
      }
    }
  }

  /** Each selector map entry names a built element carrying that index, and for a
      repeated index the element the pass built last wins. */
  lemma {:induction false} SelectorTargets(es: seq<(NodeId, NodeData)>, k: int)
    requires DistinctIds(es) && k in Build(es).selectorMap
    ensures var s := Build(es); var id := s.selectorMap[k];
      && id in s.nodeMap && s.nodeMap[id].ElementNode? && s.nodeMap[id].highlightIndex == Some(k)
      && forall i :: 0 <= i < |es| && IsElementData(es[i].1) && es[i].1.d.highlightIndex == Some(k) ==>
           i <= IndexOf(es, id)
  {
    var init := es[..|es| - 1];
    var e := es[|es| - 1];
    var s := Build(init);
    LastIdIsNew(es);
    BuildKeys(init);
    var parsed := ParseNode(e.1);
    var b := Build(es);
    if parsed.0.Some? && parsed.0.value.ElementNode? && parsed.0.value.highlightIndex == Some(k) {
      var n := parsed.0.value;
      var nodes := s.nodeMap[e.0 := n];
      AttachFacts(nodes, e.0, parsed.1);
      DetachedKind(b.nodeMap[e.0]);
      DetachedKind(n);
      assert b.selectorMap[k] == e.0;
      IndexOfDistinct(es, |es| - 1);
    } else {
      assert b.selectorMap[k] == s.selectorMap[k];
      SelectorTargets(init, k);
      var id := s.selectorMap[k];
      assert id != e.0;
      IndexOfSnoc(es, id);
      if parsed.0.Some? {
        var nodes := s.nodeMap[e.0 := parsed.0.value];
        if parsed.0.value.ElementNode? {
          AttachFacts(nodes, e.0, parsed.1);
          DetachedKind(b.nodeMap[id]);
          DetachedKind(s.nodeMap[id]);
        }
      }
      forall i | 0 <= i < |es| && IsElementData(es[i].1) && es[i].1.d.highlightIndex == Some(k)
        ensures i <= IndexOf(es, id)
      {
        if i < |es| - 1 {
          assert init[i] == es[i];
        }
      }
    }
  }

  // ---------------------------------------------------------------------------
  // The outcome of construct_dom_tree
  // ---------------------------------------------------------------------------

  /** The call succeeds exactly when the map holds, under `str(rootId)`, a
      non-empty descriptor that is not a text node; it then returns that element
      as the root, and otherwise raises. */
  lemma DomTreeOfOutcome(page: EvalPage)
    ensures var root := IdString(page.rootId);
      DomTreeOf(page).Success? <==>
        exists i :: 0 <= i < |page.nodes| && page.nodes[i].0 == root && IsElementData(page.nodes[i].1)
    ensures DomTreeOf(page).Success? ==>
      var t := DomTreeOf(page).value;
      && t.root == IdString(page.rootId)
      && t.root in t.nodes && t.nodes[t.root].ElementNode?
      && t.nodes == Build(page.nodes).nodeMap && t.selectorMap == Build(page.nodes).selectorMap
  {
    var es := page.nodes;
    var root := IdString(page.rootId);
    BuildKeys(es);
    var s := Build(es);
    if root in s.nodeMap {
      var i :| 0 <= i < |es| && es[i].1.Data? && es[i].0 == root;
      BuildNode(es, i);
      DetachedKind(s.nodeMap[root]);
      forall j | 0 <= j < |es| && es[j].0 == root ensures j == i {
      }
    }
  }

  /** The shape of a successful snapshot: the root is an element, every selector
      entry names an element carrying that index, children and parents are built
      nodes, and parent links agree with child lists. */
  ghost predicate WellFormedSnapshot(t: Snapshot) {
    && t.root in t.nodes && t.nodes[t.root].ElementNode?
    && (forall k :: k in t.selectorMap ==>
          t.selectorMap[k] in t.nodes && t.nodes[t.selectorMap[k]].ElementNode?
          && t.nodes[t.selectorMap[k]].highlightIndex == Some(k))
    && (forall c :: c in t.nodes && t.nodes[c].parent.Some? ==>
          var p := t.nodes[c].parent.value;
          p in t.nodes && t.nodes[p].ElementNode? && c in t.nodes[p].children)
    && (forall p, c :: p in t.nodes && t.nodes[p].ElementNode? && c in t.nodes[p].children ==>
          c in t.nodes && t.nodes[c].parent.Some?)
  }

  lemma SnapshotWellFormed(page: EvalPage)
    requires DomTreeOf(page).Success?
    ensures WellFormedSnapshot(DomTreeOf(page).value)
  {
    DomTreeOfOutcome(page);
    BuildParents(page.nodes);
    var s := Build(page.nodes);
    forall k | k in s.selectorMap
      ensures s.selectorMap[k] in s.nodeMap && s.nodeMap[s.selectorMap[k]].ElementNode?
      ensures s.nodeMap[s.selectorMap[k]].highlightIndex == Some(k)
    {
      SelectorTargets(page.nodes, k);
    }
  }

  // ---------------------------------------------------------------------------
  // Worked cases
  // ---------------------------------------------------------------------------

  function TextData(t: string): NodeData {
    Data(NoFields.(nodeType := Some(TextNodeType), text := Some(t), isVisible := Some(true)))
  }

  function ElementData(tag: string, children: seq<RawId>, index: Option<int>): NodeData {
    Data(NoFields.(tagName := Some(tag), children := Some(children), highlightIndex := index, isVisible := Some(true)))
  }

  /** Root "0" declares children "1" and "2", and "2" is not in the map: the root
      gets exactly one child, "1", and there is no error. */
  lemma MissingChildIsSkipped()
    ensures var page := EvalPage([("1", TextData("a")), ("0", ElementData("div", [StrId("1"), StrId("2")], None))],
                                 StrId("0"));
      DomTreeOf(page).Success? && DomTreeOf(page).value.nodes["0"].children == ["1"]
  {
    var es: seq<(NodeId, NodeData)> := [("1", TextData("a")), ("0", ElementData("div", [StrId("1"), StrId("2")], None))];
    BuildChildren(es, 1);
    assert es[..2] == es;
    assert Built(es) == {"1", "0"} by {
      assert es[0].0 == "1" && es[1].0 == "0";
    }
    assert KnownChildren([StrId("1"), StrId("2")], {"1", "0"}) == ["1"] by {
      assert [StrId("1"), StrId("2")][..1] == [StrId("1")];
      assert [StrId("1")][..0] == [];
    }
  }

  /** The pass is order dependent: a child listed after its parent in the map is
      not attached. */
  lemma ChildAfterParentIsNotAttached()
    ensures var page := EvalPage([("0", ElementData("div", [StrId("1")], None)), ("1", TextData("a"))], StrId("0"));
      DomTreeOf(page).Success? && DomTreeOf(page).value.nodes["0"].children == []
  {
    var es: seq<(NodeId, NodeData)> := [("0", ElementData("div", [StrId("1")], None)), ("1", TextData("a"))];
    BuildChildren(es, 0);
    assert es[..1] == [es[0]];
    assert Built([es[0]]) == {"0"};
    assert KnownChildren([StrId("1")], {"0"}) == [] by {
      assert [StrId("1")][..0] == [];
    }
  }

  /** Two elements claiming highlight index 5: the one later in the map wins. */
  lemma LaterIndexWins()
    ensures Build([("a", ElementData("a", [], Some(5))), ("b", ElementData("b", [], Some(5)))]).selectorMap
            == map[5 := "b"]
  {
  }

  /** An element may list itself: its id is already in the map when its own child
      loop runs. Here element "e" lists the text node "t" and then itself. */
  lemma SelfChildIsAttached()
    ensures var page := EvalPage([("t", TextData("abc")), ("e", ElementData("div", [StrId("t"), StrId("e")], None))],
                                 StrId("e"));
      && DomTreeOf(page).Success?
      && var nodes := DomTreeOf(page).value.nodes;
      && "t" in nodes && nodes["t"].TextNode? && nodes["t"].isVisible && nodes["t"].text == "abc"
      && "e" in nodes && nodes["e"].ElementNode? && nodes["e"].isVisible && nodes["e"].children == ["t", "e"]
  {
    var es: seq<(NodeId, NodeData)> := [("t", TextData("abc")), ("e", ElementData("div", [StrId("t"), StrId("e")], None))];
    BuildNode(es, 0);
    BuildNode(es, 1);
    BuildChildren(es, 1);
    assert es[..2] == es;
    assert Built(es) == {"t", "e"} by {
      assert es[0].0 == "t" && es[1].0 == "e";
    }
    assert KnownChildren([StrId("t"), StrId("e")], {"t", "e"}) == ["t", "e"] by {
      assert [StrId("t"), StrId("e")][..1] == [StrId("t")];
      assert [StrId("t")][..0] == [];
    }
  }

  /** An element whose only declared child is itself becomes its own only child. */
  lemma SelfLoopIsAttached()
    ensures var page := EvalPage([("e", ElementData("div", [StrId("e")], None))], StrId("e"));
      && DomTreeOf(page).Success?
      && var nodes := DomTreeOf(page).value.nodes;
      && "e" in nodes && nodes["e"].ElementNode? && nodes["e"].isVisible && nodes["e"].children == ["e"]
  {
    var es: seq<(NodeId, NodeData)> := [("e", ElementData("div", [StrId("e")], None))];
    BuildNode(es, 0);
    BuildChildren(es, 0);
    assert es[..1] == es;
    assert Built(es) == {"e"} by {
      assert es[0].0 == "e";
    }
    assert KnownChildren([StrId("e")], {"e"}) == ["e"] by {
      assert [StrId("e")][..0] == [];
    }
  }
}
