/**
  The scene-graph node of framework/source/Node.cpp, as values.

  Nodes live in an arena: a map from node identities to node records. A
  record holds the node's name, its parent back-pointer (an identity or
  nothing), its ordered list of children and its two transforms. The parent
  link and the child list are independent of each other, as in the source:
  nothing here keeps them consistent.

  The recursive queries of Node.cpp (getDepth, getPath, getChildren,
  printChildren) are functions over the arena; the state changes
  (addChildren, setParent, removeChildren, the transform setters) are
  transition functions that the methods of NodeArena.Arena are proved to
  perform.
 */
module Nodes {
  import opened Wrappers
  import opened Matrices

  type NodeId = nat

  datatype Node = Node(
    name: string,
    parent: Option<NodeId>,
    children: seq<NodeId>,
    local: Mat4,
    world: Mat4)

  type Graph = map<NodeId, Node>

  /** The record built by `Node(name)`: no parent, no children, identity transforms. */
  function Named(name: string): Node
  {
    Node(name, None, [], Identity, Identity)
  }

  /** The record built by `Node(name, parent)`: the parent is set, no child list is touched. */
  function WithParent(name: string, parent: NodeId): Node
  {
    Node(name, Some(parent), [], Identity, Identity)
  }

  /** What `Node()` determines: an empty name, no parent, no children (the transforms are left indeterminate). */
  predicate DefaultBuilt(n: Node)
  {
    n.name == "" && n.parent == None && n.children == []
  }

  /** Every parent and every child is a node of the arena (no dangling pointer). */
  ghost predicate Closed(g: Graph)
  {
    forall id :: id in g ==>
      (g[id].parent.Some? ==> g[id].parent.value in g) &&
      (forall i :: 0 <= i < |g[id].children| ==> g[id].children[i] in g)
  }

  // ---------------------------------------------------------------------
  // The parent chain

  /** Following parents from `id` reaches a parentless node in at most `n` steps. */
  ghost predicate RootedWithin(g: Graph, id: NodeId, n: nat)
    decreases n
  {
    id in g &&
    match g[id].parent
    case None => true
    case Some(p) => n > 0 && RootedWithin(g, p, n - 1)
  }

  /** The parent chain of `id` is finite: getDepth and getPath terminate on it. */
  ghost predicate Rooted(g: Graph, id: NodeId)
  {
    id in g && exists n: nat :: RootedWithin(g, id, n)
  }

  /** `m` is the least number of steps within which the parent chain of `id` ends. */
  ghost predicate LeastRooted(g: Graph, id: NodeId, m: nat)
  {
    RootedWithin(g, id, m) && forall k: nat :: k < m ==> !RootedWithin(g, id, k)
  }

  lemma LeastRootedExists(g: Graph, id: NodeId, n: nat)
    requires RootedWithin(g, id, n)
    ensures exists m: nat :: LeastRooted(g, id, m)
    decreases n
  {
    if exists k: nat :: k < n && RootedWithin(g, id, k) {
      var k: nat :| k < n && RootedWithin(g, id, k);
      LeastRootedExists(g, id, k);
    } else {
      assert LeastRooted(g, id, n);
    }
  }

  /** The least number of parent steps that reaches a parentless node. */
  ghost function Rank(g: Graph, id: NodeId): (r: nat)
    requires Rooted(g, id)
    ensures RootedWithin(g, id, r)
    ensures forall k: nat :: k < r ==> !RootedWithin(g, id, k)
  {
    var n: nat :| RootedWithin(g, id, n);
    LeastRootedExists(g, id, n);
    var m: nat :| LeastRooted(g, id, m);
    m
  }

  lemma ParentRank(g: Graph, id: NodeId)
    requires Rooted(g, id) && g[id].parent.Some?
    ensures Rooted(g, g[id].parent.value)
    ensures Rank(g, g[id].parent.value) < Rank(g, id)
  {
    var p := g[id].parent.value;
    var r := Rank(g, id);
    assert RootedWithin(g, p, r - 1);
  }

  /** `getDepth`: 0 without a parent, otherwise one more than the parent's depth. */
  function Depth(g: Graph, id: NodeId): nat
    requires Rooted(g, id)
    decreases Rank(g, id)
  {
    match g[id].parent
    case None => 0
    case Some(p) => ParentRank(g, id); Depth(g, p) + 1
  }

  /** `getPath`: "/" + name without a parent, otherwise the parent's path, "/" and the name. */
  function Path(g: Graph, id: NodeId): string
    requires Rooted(g, id)
    decreases Rank(g, id)
  {
    match g[id].parent
    case None => "/" + g[id].name
    case Some(p) => ParentRank(g, id); Path(g, p) + "/" + g[id].name
  }

  /** The nodes on the parent chain of `id`, `id` included. */
  ghost function Chain(g: Graph, id: NodeId): (c: set<NodeId>)
    requires Rooted(g, id)
    ensures id in c
    ensures forall y :: y in c ==> y in g
    decreases Rank(g, id)
  {
    match g[id].parent
    case None => {id}
    case Some(p) => ParentRank(g, id); {id} + Chain(g, p)
  }

  // ---------------------------------------------------------------------
  // The child graph

  /** Every downward path of child links from `id` visits at most `n` nodes. */
  ghost predicate HeightWithin(g: Graph, id: NodeId, n: nat)
    decreases n
  {
    id in g && n > 0 &&
    forall i :: 0 <= i < |g[id].children| ==> HeightWithin(g, g[id].children[i], n - 1)
  }

  /** The subtree below `id` is finite: getChildren and printChildren terminate on it. */
  ghost predicate Finite(g: Graph, id: NodeId)
  {
    id in g && exists n: nat :: HeightWithin(g, id, n)
  }

  /** `m` is the least bound on the downward paths from `id`. */
  ghost predicate LeastHeight(g: Graph, id: NodeId, m: nat)
  {
    HeightWithin(g, id, m) && forall k: nat :: k < m ==> !HeightWithin(g, id, k)
  }

  lemma LeastHeightExists(g: Graph, id: NodeId, n: nat)
    requires HeightWithin(g, id, n)
    ensures exists m: nat :: LeastHeight(g, id, m)
    decreases n
  {
    if exists k: nat :: k < n && HeightWithin(g, id, k) {
      var k: nat :| k < n && HeightWithin(g, id, k);
      LeastHeightExists(g, id, k);
    } else {
      assert LeastHeight(g, id, n);
    }
  }

  /** The number of nodes on the longest downward path from `id`. */
  ghost function Height(g: Graph, id: NodeId): (h: nat)
    requires Finite(g, id)
    ensures HeightWithin(g, id, h)
    ensures forall k: nat :: k < h ==> !HeightWithin(g, id, k)
  {
    var n: nat :| HeightWithin(g, id, n);
    LeastHeightExists(g, id, n);
    var m: nat :| LeastHeight(g, id, m);
    m
  }

  /** Every node of `cs` has a finite subtree lower than `h`. */
  ghost predicate Below(g: Graph, cs: seq<NodeId>, h: nat)
  {
    forall i :: 0 <= i < |cs| ==> Finite(g, cs[i]) && Height(g, cs[i]) < h
  }

  lemma ChildrenBelow(g: Graph, id: NodeId)
    requires Finite(g, id)
    ensures Below(g, g[id].children, Height(g, id))
  {
    var cs := g[id].children;
    var h := Height(g, id);
    forall i | 0 <= i < |cs|
      ensures Finite(g, cs[i]) && Height(g, cs[i]) < h
    {
      assert HeightWithin(g, cs[i], h - 1);
    }
  }

  /**
    `getChildren(name)`: the children are scanned in order; each child's own
    name is tested first, then its subtree is searched, before the next
    sibling. The node itself is never tested. A result is a node of the
    arena with the requested name.
   */
  function Find(g: Graph, id: NodeId, name: string): (r: Option<NodeId>)
    requires Finite(g, id)
    ensures r.Some? ==> r.value in g && g[r.value].name == name
    decreases Height(g, id), 1, 0
  {
    ChildrenBelow(g, id);
    FindAmong(g, g[id].children, name, Height(g, id))
  }

  function FindAmong(g: Graph, cs: seq<NodeId>, name: string, ghost h: nat): (r: Option<NodeId>)
    requires Below(g, cs, h)
    ensures r.Some? ==> r.value in g && g[r.value].name == name
    decreases h, 0, |cs|
  {
    if cs == [] then None
    else if g[cs[0]].name == name then Some(cs[0])
    else match Find(g, cs[0], name)
      case Some(x) => Some(x)
      case None => FindAmong(g, cs[1..], name, h)
  }

  /** One step of a pre-order traversal: a node and the level it is visited at. */
  datatype Visit = Visit(node: NodeId, level: nat)

  /**
    The pre-order traversal of the subtree of `id`, starting at `level`: the
    node itself, then the traversal of each child, in list order, one level
    deeper. Every visited node is in the arena, the walk starts at `id`, and
    every later visit is deeper than `level`.
   */
  function Walk(g: Graph, id: NodeId, level: nat): (w: seq<Visit>)
    requires Finite(g, id)
    ensures |w| > 0 && w[0] == Visit(id, level)
    ensures forall i :: 0 <= i < |w| ==> w[i].node in g
    ensures forall i :: 0 < i < |w| ==> w[i].level > level
    decreases Height(g, id), 1, 0
  {
    ChildrenBelow(g, id);
    [Visit(id, level)] + WalkAmong(g, g[id].children, level + 1, Height(g, id))
  }

  function WalkAmong(g: Graph, cs: seq<NodeId>, level: nat, ghost h: nat): (w: seq<Visit>)
    requires Below(g, cs, h)
    ensures forall i :: 0 <= i < |w| ==> w[i].node in g && w[i].level >= level
    decreases h, 0, |cs|
  {
    if cs == [] then []
    else Walk(g, cs[0], level) + WalkAmong(g, cs[1..], level, h)
  }

  /** The proper descendants of `id` in the order getChildren examines them. */
  function Descendants(g: Graph, id: NodeId): (d: seq<NodeId>)
    requires Finite(g, id)
    ensures forall i :: 0 <= i < |d| ==> d[i] in g
  {
    var w := Walk(g, id, 0);
    seq(|w| - 1, i requires 0 <= i < |w| - 1 => w[i + 1].node)
  }

  /** One line of `printChildren(level)`: ".- name" at level 0, otherwise `level` bars and "- name". */
  function Line(level: nat, name: string): string
  {
    if level == 0 then ".- " + name
    else seq(level, _ => '|') + "- " + name
  }

  /** `printChildren(level)`: this node's line, then each child's lines at level + 1, in list order. */
  function PrintLines(g: Graph, id: NodeId, level: nat): seq<string>
    requires Finite(g, id)
    decreases Height(g, id), 1, 0
  {
    ChildrenBelow(g, id);
    [Line(level, g[id].name)] + PrintAmong(g, g[id].children, level + 1, Height(g, id))
  }

  function PrintAmong(g: Graph, cs: seq<NodeId>, level: nat, ghost h: nat): seq<string>
    requires Below(g, cs, h)
    decreases h, 0, |cs|
  {
    if cs == [] then []
    else PrintLines(g, cs[0], level) + PrintAmong(g, cs[1..], level, h)
  }

  // ---------------------------------------------------------------------
  // State changes

  /**
    `std::list::remove`: every element equal to `x` is dropped; the others
    stay, in their order.
   */
  function RemoveAll(cs: seq<NodeId>, x: NodeId): (r: seq<NodeId>)
    ensures x !in r
    ensures forall y :: y != x ==> (y in r <==> y in cs)
    ensures multiset(r) == multiset(cs)[x := 0]
  {
    if cs == [] then []
    else
      assert cs == [cs[0]] + cs[1..];
      (if cs[0] == x then [] else [cs[0]]) + RemoveAll(cs[1..], x)
  }

  /** `addChildren`: `c` is pushed at the back of the child list of `id`. */
  function AppendChild(g: Graph, id: NodeId, c: NodeId): Graph
    requires id in g
  {
    g[id := g[id].(children := g[id].children + [c])]
  }

  /** `setParent`: the back-pointer of `c` is rebound to `p`. */
  function Reparent(g: Graph, c: NodeId, p: NodeId): Graph
    requires c in g
  {
    g[c := g[c].(parent := Some(p))]
  }

  /** The removal step of `removeChildren`: `f` is dropped from the child list of `p`. */
  function Unlink(g: Graph, p: NodeId, f: NodeId): Graph
    requires p in g
  {
    g[p := g[p].(children := RemoveAll(g[p].children, f))]
  }

  /**
    `removeChildren(name)`: search the subtree with getChildren; if a node is
    found and it has a parent, unlink it from that parent's list. The found
    node (or nothing) is returned with the new arena.
   */
  function Removal(g: Graph, id: NodeId, name: string): (Graph, Option<NodeId>)
    requires Closed(g) && Finite(g, id)
  {
    match Find(g, id, name)
    case None => (g, None)
    case Some(f) =>
      match g[f].parent
      case None => (g, Some(f))
      case Some(p) => (Unlink(g, p, f), Some(f))
  }

  /** `setLocalTransform`. */
  function SetLocal(g: Graph, id: NodeId, m: Mat4): Graph
    requires id in g
  {
    g[id := g[id].(local := m)]
  }

  /** `setWorldTransform`. */
  function SetWorld(g: Graph, id: NodeId, m: Mat4): Graph
    requires id in g
  {
    g[id := g[id].(world := m)]
  }
}
