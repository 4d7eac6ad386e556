/** dom.py: the typed DOM built from the in-page script's flat `{ rootId, map }` result.

    Node objects are represented by their ids: the built nodes live in an arena
    (`map<NodeId, Node>`), a child list holds child ids and `parent` holds the id of
    the element whose loop attached the node last. Object identity, sharing of one
    child by several parents and a node listed as its own child are thereby kept. */
module Dom {
  import opened Wrappers
  import Text

  type NodeId = string

  const TextNodeType: string := "TEXT_NODE"

  /** A node id as the script may hand it over, a JSON string or a number;
      `str()` turns either into a key of the map. */
  datatype RawId = StrId(s: string) | IntId(n: int)

  /** Python's `str(child_id)`. */
  function IdString(r: RawId): NodeId {
    match r
    case StrId(s) => s
    case IntId(n) => Text.IntToString(n)
  }

  /** The `viewport` entry of a descriptor: absent, present but not a dict, or a dict. */
  datatype ViewportField = NoViewport | NonDictViewport | ViewportDict(width: Option<real>, height: Option<real>)

  /** One descriptor dict of the script's map. Each field is `None` when the key is
      absent (or holds JSON null); attribute values are `None` for JSON null. */
  datatype Descriptor = Descriptor(
    nodeType: Option<string>,
    text: Option<string>,
    tagName: Option<string>,
    xpath: Option<string>,
    attributes: Option<map<string, Option<string>>>,
    children: Option<seq<RawId>>,
    isVisible: Option<bool>,
    isInteractive: Option<bool>,
    isTopElement: Option<bool>,
    isInViewport: Option<bool>,
    shadowRoot: Option<bool>,
    highlightIndex: Option<int>,
    viewport: ViewportField)

  /** A value of the script's map: `Empty` is a falsy one (`None` or `{}`). */
  datatype NodeData = Empty | Data(d: Descriptor)

  /** A descriptor dict none of whose modelled keys is set. */
  const NoFields: Descriptor :=
    Descriptor(None, None, None, None, None, None, None, None, None, None, None, None, NoViewport)

  datatype ViewportInfo = ViewportInfo(width: int, height: int)

  /** `DOMTextNode` and `DOMElementNode`. */
  datatype Node =
    | TextNode(text: string, isVisible: bool, parent: Option<NodeId>)
    | ElementNode(
        tagName: string,
        xpath: string,
        attributes: map<string, Option<string>>,
        children: seq<NodeId>,
        isVisible: bool,
        isInteractive: bool,
        isTopElement: bool,
        isInViewport: bool,
        shadowRoot: bool,
        highlightIndex: Option<int>,
        viewportInfo: Option<ViewportInfo>,
        parent: Option<NodeId>)

  /** `InteractiveDomMap`: highlight index to the element carrying it. */
  type SelectorMap = map<int, NodeId>

  /** Python's `bool(node_data.get(key, False))` on a JSON boolean. */
  function Flag(b: Option<bool>): bool {
    b == Some(true)
  }

  /** A non-empty descriptor not tagged `TEXT_NODE`: it becomes an element. */
  predicate IsElementData(nd: NodeData) {
    nd.Data? && nd.d.nodeType != Some(TextNodeType)
  }

  /** The node with its links cut: what `_parse_node` produces for it. */
  function Detached(n: Node): Node {
    match n
    case TextNode(text, visible, _) => TextNode(text, visible, None)
    case ElementNode(tag, xpath, attrs, _, visible, interactive, top, inViewport, shadow, index, viewport, _) =>
      ElementNode(tag, xpath, attrs, [], visible, interactive, top, inViewport, shadow, index, viewport, None)
  }

  /** dom.py `_parse_node`: the node and the declared child ids of one descriptor. */
  function ParseNode(data: NodeData): (r: (Option<Node>, seq<RawId>))
    ensures r.0.None? <==> data.Empty?
    ensures r.0.Some? ==> Detached(r.0.value) == r.0.value
    ensures r.0.Some? ==> (r.0.value.ElementNode? <==> IsElementData(data))
    ensures r.0.Some? && r.0.value.ElementNode? ==> r.0.value.highlightIndex == data.d.highlightIndex
    ensures !IsElementData(data) ==> r.1 == []
  {
    match data
    case Empty => (None, [])
    case Data(d) =>
      if d.nodeType == Some(TextNodeType) then
        (Some(TextNode(d.text.GetOr(""), Flag(d.isVisible), None)), [])
      else
        var viewportInfo :=
          match d.viewport
          case ViewportDict(w, h) => Some(ViewportInfo(Text.Trunc(w.GetOr(0.0)), Text.Trunc(h.GetOr(0.0))))
          case _ => None;
        var element := ElementNode(
          d.tagName.GetOr(""),
          d.xpath.GetOr(""),
          d.attributes.GetOr(map[]),
          [],
          Flag(d.isVisible),
          Flag(d.isInteractive),
          Flag(d.isTopElement),
          Flag(d.isInViewport),
          Flag(d.shadowRoot),
          d.highlightIndex,
          viewportInfo,
          None);
        (Some(element), d.children.GetOr([]))
  }

  // ---------------------------------------------------------------------------
  // Specification of the pass of construct_dom_tree
  // ---------------------------------------------------------------------------

  datatype BuildState = BuildState(nodeMap: map<NodeId, Node>, selectorMap: SelectorMap)

  /** One turn of the child loop: attach `c` to `pid` if `c` is already built. */
  function AttachOne(nodes: map<NodeId, Node>, pid: NodeId, c: NodeId): (r: map<NodeId, Node>)
    requires pid in nodes && nodes[pid].ElementNode?
    ensures r.Keys == nodes.Keys && r[pid].ElementNode?
  {
    if c !in nodes then nodes
    else
      var n1 := nodes[c := nodes[c].(parent := Some(pid))];
      n1[pid := n1[pid].(children := n1[pid].children + [c])]
  }

  /** The child loop of one element over its first `|cids|` declared child ids. */
  function Attach(nodes: map<NodeId, Node>, pid: NodeId, cids: seq<RawId>): (r: map<NodeId, Node>)
    requires pid in nodes && nodes[pid].ElementNode?
    ensures r.Keys == nodes.Keys && r[pid].ElementNode?
  {
    if cids == [] then nodes
    else AttachOne(Attach(nodes, pid, cids[..|cids| - 1]), pid, IdString(cids[|cids| - 1]))
  }

  /** One turn of the pass over the map: parse, register, index, attach. */
  function Step(s: BuildState, e: (NodeId, NodeData)): BuildState {
    var parsed := ParseNode(e.1);
    match parsed.0
    case None => s
    case Some(n) =>
      var nodes := s.nodeMap[e.0 := n];
      var sel := if n.ElementNode? && n.highlightIndex.Some? then s.selectorMap[n.highlightIndex.value := e.0]
                 else s.selectorMap;
      if n.ElementNode? then BuildState(Attach(nodes, e.0, parsed.1), sel) else BuildState(nodes, sel)
  }

  /** The state after the pass has handled the entries `es`, in order. */
  function Build(es: seq<(NodeId, NodeData)>): BuildState {
    if es == [] then BuildState(map[], map[]) else Step(Build(es[..|es| - 1]), es[|es| - 1])
  }

  /** The keys of a Python dict are distinct. */
  predicate DistinctIds(es: seq<(NodeId, NodeData)>) {
    forall i, j :: 0 <= i < j < |es| ==> es[i].0 != es[j].0
  }

  /** The script's `map`, in the dict's iteration order. */
  type PageMap = es: seq<(NodeId, NodeData)> | DistinctIds(es) witness []

  /** The evaluated page `{ rootId, map }`. */
  datatype EvalPage = EvalPage(nodes: PageMap, rootId: RawId)

  datatype DomError = MalformedSnapshot

  /** The result of `construct_dom_tree`: the root's id, the node arena and the selector map. */
  datatype Snapshot = Snapshot(root: NodeId, nodes: map<NodeId, Node>, selectorMap: SelectorMap)

  /** What `construct_dom_tree` returns, or the `ValueError` it raises. */
  function DomTreeOf(page: EvalPage): Result<Snapshot, DomError> {
    var s := Build(page.nodes);
    var root := IdString(page.rootId);
    if root !in s.nodeMap || !s.nodeMap[root].ElementNode? then Failure(MalformedSnapshot)
    else Success(Snapshot(root, s.nodeMap, s.selectorMap))
  }

  /** The child loop of `construct_dom_tree` for the element `nodeId`: each
      declared child already in the map gets its parent set and is appended to the
      element's children, in declaration order. */
  method AttachChildren(nodes: map<NodeId, Node>, nodeId: NodeId, childrenIds: seq<RawId>)
    returns (nodeMap: map<NodeId, Node>)
    requires nodeId in nodes && nodes[nodeId].ElementNode?
    ensures nodeMap == Attach(nodes, nodeId, childrenIds)
  {
    nodeMap := nodes;
    var j := 0;
    while j < |childrenIds|
      invariant 0 <= j <= |childrenIds|
      invariant nodeMap == Attach(nodes, nodeId, childrenIds[..j])
    {
      var childId := IdString(childrenIds[j]);
      assert childrenIds[..j + 1][..j] == childrenIds[..j];
      ghost var next := AttachOne(nodeMap, nodeId, childId);
      if childId in nodeMap {
        nodeMap := nodeMap[childId := nodeMap[childId].(parent := Some(nodeId))];
        nodeMap := nodeMap[nodeId := nodeMap[nodeId].(children := nodeMap[nodeId].children + [childId])];
      }
      assert nodeMap == next;
      j := j + 1;
    }
    assert childrenIds[..|childrenIds|] == childrenIds;
  }

  /** dom.py `construct_dom_tree`: one ordered pass filling `node_map` and
      `selector_map` and appending each element's already-built children. */
  method ConstructDomTree(page: EvalPage) returns (r: Result<Snapshot, DomError>)
    ensures r == DomTreeOf(page)
  {
    var es := page.nodes;
    var nodeMap: map<NodeId, Node> := map[];
    var selectorMap: SelectorMap := map[];
    var i := 0;
    while i < |es|
      invariant 0 <= i <= |es|
      invariant BuildState(nodeMap, selectorMap) == Build(es[..i])
    {
      var nodeId := es[i].0;
      var parsed := ParseNode(es[i].1);
      assert es[..i + 1][..i] == es[..i];
      if parsed.0.Some? {
        var node := parsed.0.value;
        var childrenIds := parsed.1;
        nodeMap := nodeMap[nodeId := node];
        if node.ElementNode? && node.highlightIndex.Some? {
          selectorMap := selectorMap[node.highlightIndex.value := nodeId];
        }
        if node.ElementNode? {
          nodeMap := AttachChildren(nodeMap, nodeId, childrenIds);
        }
      }
      i := i + 1;
    }
    assert es[..|es|] == es;
    var root := IdString(page.rootId);
    if root !in nodeMap || !nodeMap[root].ElementNode? {
      r := Failure(MalformedSnapshot);
    } else {
      r := Success(Snapshot(root, nodeMap, selectorMap));
    }
  }
}
