/**
  The walk-through of framework/tests/tests.cpp, lines 7-22, on one arena:
  a chain ch1 <- ch2 <- ch3 is built, ch1 is moved under root, the child
  lists are linked, ch3 is searched from root, two more children are added
  and the scene is printed.
 */
module Scenario {
  import opened Wrappers
  import opened Matrices
  import opened Nodes
  import NodeArena
  import NodeProperties
  import SceneGraphs

  /** Four pairwise different identities. */
  predicate Apart4(ch1: NodeId, ch2: NodeId, ch3: NodeId, root: NodeId)
  {
    ch1 != ch2 && ch1 != ch3 && ch1 != root && ch2 != ch3 && ch2 != root && ch3 != root
  }

  /** Six pairwise different identities. */
  predicate Apart(ch1: NodeId, ch2: NodeId, ch3: NodeId, root: NodeId, ch12: NodeId, ch22: NodeId)
  {
    Apart4(ch1, ch2, ch3, root) &&
    ch12 != ch1 && ch12 != ch2 && ch12 != ch3 && ch12 != root &&
    ch22 != ch1 && ch22 != ch2 && ch22 != ch3 && ch22 != root && ch22 != ch12
  }

  /** The arena after line 11 of the walk-through: ch1 hangs below root, no child list is filled. */
  ghost predicate Chained(g: Graph, ch1: NodeId, ch2: NodeId, ch3: NodeId, root: NodeId)
  {
    g == map[ch1 := WithParent("ch1", root), ch2 := WithParent("ch2", ch1),
             ch3 := WithParent("ch3", ch2), root := Named("root")]
  }

  /** The arena after line 15: each node is on its parent's child list. */
  ghost predicate LinkedChain(g: Graph, ch1: NodeId, ch2: NodeId, ch3: NodeId, root: NodeId)
  {
    g == map[ch1 := Node("ch1", Some(root), [ch2], Identity, Identity),
             ch2 := Node("ch2", Some(ch1), [ch3], Identity, Identity),
             ch3 := WithParent("ch3", ch2),
             root := Node("root", None, [ch1], Identity, Identity)]
  }

  /** The arena after line 20: the child lists are filled in as the test links them. */
  ghost predicate Linked(g: Graph, ch1: NodeId, ch2: NodeId, ch3: NodeId, root: NodeId, ch12: NodeId, ch22: NodeId)
  {
    g == map[ch1 := Node("ch1", Some(root), [ch2, ch22], Identity, Identity),
             ch2 := Node("ch2", Some(ch1), [ch3], Identity, Identity),
             ch3 := WithParent("ch3", ch2),
             root := Node("root", None, [ch1, ch12], Identity, Identity),
             ch12 := WithParent("ch12", root),
             ch22 := WithParent("ch22", ch1)]
  }

  /** Lines 7-12: the path and depth of ch3 follow the chain rebuilt by `setParent`. */
  method BuildChain() returns (a: NodeArena.Arena, ch1: NodeId, ch2: NodeId, ch3: NodeId, root: NodeId,
                               path: string, depth: nat)
    ensures fresh(a) && a.Valid()
    ensures Apart4(ch1, ch2, ch3, root)
    ensures Chained(a.nodes, ch1, ch2, ch3, root)
    ensures path == "/root/ch1/ch2/ch3" && depth == 3
  {
    a := new NodeArena.Arena();
    ch1 := a.NewNode("ch1");
    ch2 := a.NewChildNode("ch2", ch1);
    ch3 := a.NewChildNode("ch3", ch2);
    root := a.NewNode("root");
    a.SetParent(ch1, root);
    assert a.nodes[ch1] == WithParent("ch1", root);
    ChainedPath(a.nodes, ch1, ch2, ch3, root);
    path, depth := Path(a.nodes, ch3), Depth(a.nodes, ch3);
  }

  /** Line 12 on the rebuilt chain: ch3 sits three steps below root. */
  lemma ChainedPath(g: Graph, ch1: NodeId, ch2: NodeId, ch3: NodeId, root: NodeId)
    requires Apart4(ch1, ch2, ch3, root) && Chained(g, ch1, ch2, ch3, root)
    ensures Rooted(g, ch3) && Path(g, ch3) == "/root/ch1/ch2/ch3" && Depth(g, ch3) == 3
  {
    assert RootedWithin(g, ch3, 3);
    assert Path(g, root) == "/root" && Depth(g, root) == 0;
    assert Path(g, ch1) == "/root/ch1" && Depth(g, ch1) == 1;
    assert Path(g, ch2) == "/root/ch1/ch2" && Depth(g, ch2) == 2;
  }

  /** Lines 13-16 on the linked chain: the search from root reaches ch3 through ch1 and ch2. */
  lemma SearchReachesCh3(g: Graph, ch1: NodeId, ch2: NodeId, ch3: NodeId, root: NodeId)
    requires Apart4(ch1, ch2, ch3, root) && LinkedChain(g, ch1, ch2, ch3, root)
    ensures Finite(g, root) && Find(g, root, "ch3") == Some(ch3)
  {
    assert HeightWithin(g, ch3, 1);
    assert HeightWithin(g, ch2, 2);
    assert HeightWithin(g, ch1, 3);
    assert HeightWithin(g, root, 4);
    assert Find(g, ch2, "ch3") == Some(ch3);
    assert Find(g, ch1, "ch3") == Some(ch3);
  }

  /** Lines 13-15: each node is pushed on its parent's child list. */
  method LinkChain(a: NodeArena.Arena, ch1: NodeId, ch2: NodeId, ch3: NodeId, root: NodeId)
    requires a.Valid() && Apart4(ch1, ch2, ch3, root) && Chained(a.nodes, ch1, ch2, ch3, root)
    modifies a
    ensures a.Valid() && LinkedChain(a.nodes, ch1, ch2, ch3, root)
  {
    var nil: seq<NodeId> := [];
    a.AddChildren(root, ch1);
    assert nil + [ch1] == [ch1];
    assert a.nodes[root] == Node("root", None, [ch1], Identity, Identity);
    a.AddChildren(ch1, ch2);
    assert nil + [ch2] == [ch2];
    assert a.nodes[ch1] == Node("ch1", Some(root), [ch2], Identity, Identity);
    a.AddChildren(ch2, ch3);
    assert nil + [ch3] == [ch3];
    assert a.nodes[ch2] == Node("ch2", Some(ch1), [ch3], Identity, Identity);
  }

  /** Line 16: `root->getChildren("ch3")` finds the node named ch3. */
  method SearchCh3(a: NodeArena.Arena, ch1: NodeId, ch2: NodeId, ch3: NodeId, root: NodeId)
    returns (foundName: Option<string>)
    requires Apart4(ch1, ch2, ch3, root) && LinkedChain(a.nodes, ch1, ch2, ch3, root)
    ensures foundName == Some("ch3")
  {
    SearchReachesCh3(a.nodes, ch1, ch2, ch3, root);
    var found := a.GetChildren(root, "ch3");
    foundName := if found.Some? then Some(a.GetName(found.value)) else None;
  }

  /** Lines 17-20: ch12 is added below root and ch22 below ch1. */
  method AddLeaves(a: NodeArena.Arena, ch1: NodeId, ch2: NodeId, ch3: NodeId, root: NodeId)
    returns (ch12: NodeId, ch22: NodeId)
    requires a.Valid() && Apart4(ch1, ch2, ch3, root) && LinkedChain(a.nodes, ch1, ch2, ch3, root)
    modifies a
    ensures a.Valid() && Apart(ch1, ch2, ch3, root, ch12, ch22)
    ensures Linked(a.nodes, ch1, ch2, ch3, root, ch12, ch22)
  {
    var g := a.nodes;
    ch12 := a.NewChildNode("ch12", root);
    ch22 := a.NewChildNode("ch22", ch1);
    a.AddChildren(root, ch12);
    a.AddChildren(ch1, ch22);
    LeavesLinked(g, ch1, ch2, ch3, root, ch12, ch22);
  }

  /** The arena that lines 17-20 build from the linked chain. */
  lemma LeavesLinked(g: Graph, ch1: NodeId, ch2: NodeId, ch3: NodeId, root: NodeId, ch12: NodeId, ch22: NodeId)
    requires Apart4(ch1, ch2, ch3, root) && LinkedChain(g, ch1, ch2, ch3, root)
    requires ch12 !in g && ch22 !in g && ch22 != ch12
    ensures Apart(ch1, ch2, ch3, root, ch12, ch22)
    ensures var g1 := g[ch12 := WithParent("ch12", root)][ch22 := WithParent("ch22", ch1)];
      Linked(AppendChild(AppendChild(g1, root, ch12), ch1, ch22), ch1, ch2, ch3, root, ch12, ch22)
  {
    assert [ch1] + [ch12] == [ch1, ch12] && [ch2] + [ch22] == [ch2, ch22];
  }

  /** A line below the top level is that many bars, a dash and the name. */
  lemma BarLine(level: nat, name: string, expected: string)
    requires level > 0 && |expected| == level + 2 + |name|
    requires forall i :: 0 <= i < level ==> expected[i] == '|'
    requires expected[level..] == "- " + name
    ensures Line(level, name) == expected
  {
    NodeProperties.LineShape(level, name);
    var line := Line(level, name);
    forall i | level <= i < |line|
      ensures line[i] == expected[i]
    {
      assert line[i] == line[level..][i - level];
      assert expected[i] == expected[level..][i - level];
    }
  }

  /** The printout of a node with no children is its own line. */
  lemma PrintLeaf(g: Graph, id: NodeId, level: nat)
    requires Finite(g, id) && g[id].children == []
    ensures PrintLines(g, id, level) == [Line(level, g[id].name)]
  {
  }

  /** The printout of a node with one child: its line, then the child's printout. */
  lemma PrintOneChild(g: Graph, id: NodeId, level: nat, c: NodeId)
    requires Finite(g, id) && g[id].children == [c]
    ensures Finite(g, c)
    ensures PrintLines(g, id, level) == [Line(level, g[id].name)] + PrintLines(g, c, level + 1)
  {
    ChildrenBelow(g, id);
    assert g[id].children[0] == c && [c][1..] == [];
    assert PrintAmong(g, [c], level + 1, Height(g, id)) == PrintLines(g, c, level + 1);
  }

  /** The printout of a node with two children: its line, then both printouts in list order. */
  lemma PrintTwoChildren(g: Graph, id: NodeId, level: nat, c: NodeId, d: NodeId)
    requires Finite(g, id) && g[id].children == [c, d]
    ensures Finite(g, c) && Finite(g, d)
    ensures PrintLines(g, id, level) == [Line(level, g[id].name)] + PrintLines(g, c, level + 1) + PrintLines(g, d, level + 1)
  {
    ChildrenBelow(g, id);
    var h := Height(g, id);
    assert g[id].children[0] == c && g[id].children[1] == d;
    assert [c, d][1..] == [d] && [d][1..] == [];
    assert PrintAmong(g, [d], level + 1, h) == PrintLines(g, d, level + 1);
  }

  /** Every subtree of the linked arena is finite. */
  lemma SceneFinite(g: Graph, ch1: NodeId, ch2: NodeId, ch3: NodeId, root: NodeId, ch12: NodeId, ch22: NodeId)
    requires Apart(ch1, ch2, ch3, root, ch12, ch22) && Linked(g, ch1, ch2, ch3, root, ch12, ch22)
    ensures Finite(g, ch3) && Finite(g, ch22) && Finite(g, ch12)
    ensures Finite(g, ch2) && Finite(g, ch1) && Finite(g, root)
  {
    assert HeightWithin(g, ch3, 1) && HeightWithin(g, ch22, 1) && HeightWithin(g, ch12, 1);
    assert HeightWithin(g, ch2, 2);
    assert HeightWithin(g, ch1, 3);
    assert HeightWithin(g, root, 4);
  }

  /** The part of the printout below ch1, at level 1. */
  lemma PrintedBranch(g: Graph, ch1: NodeId, ch2: NodeId, ch3: NodeId, root: NodeId, ch12: NodeId, ch22: NodeId)
    requires Apart(ch1, ch2, ch3, root, ch12, ch22) && Linked(g, ch1, ch2, ch3, root, ch12, ch22)
    ensures Finite(g, ch1)
    ensures PrintLines(g, ch1, 1) == ["|- ch1", "||- ch2", "|||- ch3", "||- ch22"]
  {
    SceneFinite(g, ch1, ch2, ch3, root, ch12, ch22);
    PrintedTwig(g, ch1, ch2, ch3, root, ch12, ch22);
    assert g[ch1].name == "ch1" && g[ch22].name == "ch22";
    BarLine(2, "ch22", "||- ch22");
    BarLine(1, "ch1", "|- ch1");
    PrintLeaf(g, ch22, 2);
    PrintTwoChildren(g, ch1, 1, ch2, ch22);
  }

  /** The part of the printout below ch2, at level 2. */
  lemma PrintedTwig(g: Graph, ch1: NodeId, ch2: NodeId, ch3: NodeId, root: NodeId, ch12: NodeId, ch22: NodeId)
    requires Apart(ch1, ch2, ch3, root, ch12, ch22) && Linked(g, ch1, ch2, ch3, root, ch12, ch22)
    ensures Finite(g, ch2)
    ensures PrintLines(g, ch2, 2) == ["||- ch2", "|||- ch3"]
  {
    SceneFinite(g, ch1, ch2, ch3, root, ch12, ch22);
    assert g[ch2].name == "ch2" && g[ch3].name == "ch3";
    BarLine(3, "ch3", "|||- ch3");
    BarLine(2, "ch2", "||- ch2");
    PrintLeaf(g, ch3, 3);
    PrintOneChild(g, ch2, 2, ch3);
  }

  /** Lines 21-22 on the linked arena: the printout of the scene rooted at root. */
  lemma PrintedScene(g: Graph, ch1: NodeId, ch2: NodeId, ch3: NodeId, root: NodeId, ch12: NodeId, ch22: NodeId)
    requires Apart(ch1, ch2, ch3, root, ch12, ch22) && Linked(g, ch1, ch2, ch3, root, ch12, ch22)
    ensures Finite(g, root)
    ensures PrintLines(g, root, 0) == [".- root", "|- ch1", "||- ch2", "|||- ch3", "||- ch22", "|- ch12"]
  {
    SceneFinite(g, ch1, ch2, ch3, root, ch12, ch22);
    PrintedBranch(g, ch1, ch2, ch3, root, ch12, ch22);
    assert g[root].name == "root" && g[ch12].name == "ch12";
    BarLine(1, "ch12", "|- ch12");
    PrintLeaf(g, ch12, 1);
    PrintTwoChildren(g, root, 0, ch1, ch12);
    assert Line(0, "root") == ".- root";
  }

  /** Lines 7-22 of the walk-through, end to end. */
  method TestsWalkThrough() returns (path: string, depth: nat, foundName: Option<string>, lines: seq<string>)
    ensures path == "/root/ch1/ch2/ch3" && depth == 3
    ensures foundName == Some("ch3")
    ensures lines == [".- root", "|- ch1", "||- ch2", "|||- ch3", "||- ch22", "|- ch12"]
  {
    var a, ch1, ch2, ch3, root;
    a, ch1, ch2, ch3, root, path, depth := BuildChain();
    LinkChain(a, ch1, ch2, ch3, root);
    foundName := SearchCh3(a, ch1, ch2, ch3, root);
    var ch12, ch22 := AddLeaves(a, ch1, ch2, ch3, root);
    PrintedScene(a.nodes, ch1, ch2, ch3, root, ch12, ch22);
    var scene := new SceneGraphs.SceneGraph.WithRoot("szene", Some(root));
    lines := scene.PrintGraph(a);
  }

  /**
    Lines 24-30: a geometry node is built with `Node(name)` (its only node
    part) and pushed on root's list. The search finds it, and its path is
    "/geo1", not "/root/geo1": `addChildren` does not set the parent.
   */
  method GeometryWalkThrough() returns (name: string, path: string)
    ensures name == "geo1" && path == "/geo1"
  {
    var a := new NodeArena.Arena();
    var rooty := a.NewNode("root");
    var solar := new SceneGraphs.SceneGraph.WithRoot("solar", Some(rooty));
    var gm1 := a.NewNode("geo1");
    a.AddChildren(rooty, gm1);
    assert HeightWithin(a.nodes, gm1, 1) && HeightWithin(a.nodes, rooty, 2);
    var found := a.GetChildren(rooty, "geo1");
    assert a.nodes[rooty].children == [gm1];
    assert found == Some(gm1);
    name := a.GetName(found.value);
    path := Path(a.nodes, gm1);
  }
}
