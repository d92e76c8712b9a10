/**
  What the operations of framework/source/Node.cpp promise, proved about the
  value model of module Nodes.
 */
module NodeProperties {
  import opened Wrappers
  import opened Matrices
  import opened Nodes

  // ---------------------------------------------------------------------
  // Depth and path follow the parent chain

  /**
    Depth and path depend only on the names and parents along the chain:
    an arena that agrees on those gives the same depth and the same path.
   */
  lemma {:induction false} ChainsAgree(g: Graph, g': Graph, x: NodeId)
    requires Rooted(g, x)
    requires forall y :: y in Chain(g, x) ==>
      y in g' && g'[y].name == g[y].name && g'[y].parent == g[y].parent
    ensures Rooted(g', x) && Chain(g', x) == Chain(g, x)
    ensures Depth(g', x) == Depth(g, x) && Path(g', x) == Path(g, x)
    decreases Rank(g, x)
  {
    assert x in Chain(g, x);
    match g[x].parent
    case None =>
      assert RootedWithin(g', x, 0);
    case Some(p) =>
      ParentRank(g, x);
      assert Chain(g, x) == {x} + Chain(g, p);
      ChainsAgree(g, g', p);
      var n: nat :| RootedWithin(g', p, n);
      assert RootedWithin(g', x, n + 1);
  }

  /** The depth is exactly the number of parent steps that reach a parentless node. */
  lemma {:induction false} DepthIsLeastSteps(g: Graph, x: NodeId)
    requires Rooted(g, x)
    ensures LeastRooted(g, x, Depth(g, x))
    decreases Rank(g, x)
  {
    match g[x].parent
    case None =>
      assert RootedWithin(g, x, 0);
    case Some(p) =>
      ParentRank(g, x);
      DepthIsLeastSteps(g, p);
      var d := Depth(g, p);
      assert RootedWithin(g, x, d + 1);
      forall k: nat | k < d + 1
        ensures !RootedWithin(g, x, k)
      {
        if k > 0 {
          assert !RootedWithin(g, p, k - 1);
        }
      }
  }

  /**
    When no name on the chain contains '/', the path holds exactly one '/'
    per node on the chain: depth + 1 of them.
   */
  lemma {:induction false} PathSlashCount(g: Graph, x: NodeId)
    requires Rooted(g, x)
    requires forall y :: y in Chain(g, x) ==> '/' !in g[y].name
    ensures multiset(Path(g, x))['/'] == Depth(g, x) + 1
    decreases Rank(g, x)
  {
    assert x in Chain(g, x);
    var name := g[x].name;
    assert multiset(name)['/'] == 0;
    match g[x].parent
    case None =>
      assert multiset("/" + name) == multiset("/") + multiset(name);
    case Some(p) =>
      ParentRank(g, x);
      assert Chain(g, x) == {x} + Chain(g, p);
      PathSlashCount(g, p);
      assert multiset(Path(g, p) + "/" + name) == multiset(Path(g, p)) + multiset("/") + multiset(name);
  }

  /** The path ends with "/" and the node's own name. */
  lemma PathEndsWithName(g: Graph, x: NodeId)
    requires Rooted(g, x)
    ensures var path, name := Path(g, x), g[x].name;
      |path| > |name| && path[|path| - |name| - 1..] == "/" + name
  {
    var path, name := Path(g, x), g[x].name;
    match g[x].parent
    case None =>
    case Some(p) =>
      ParentRank(g, x);
      assert path == Path(g, p) + ("/" + name);
  }

  /** A parentless node (as `Node(name)` builds it) has depth 0 and path "/" + name. */
  lemma NamedNodeIsRoot(g: Graph, id: NodeId, name: string)
    requires id in g && g[id] == Named(name)
    ensures Rooted(g, id) && Depth(g, id) == 0 && Path(g, id) == "/" + name
    ensures g[id].local == Identity && g[id].world == Identity
  {
    assert RootedWithin(g, id, 0);
  }

  /** What `Node()` determines is enough for depth 0 and path "/". */
  lemma DefaultBuiltIsRoot(g: Graph, id: NodeId)
    requires id in g && DefaultBuilt(g[id])
    ensures Rooted(g, id) && Depth(g, id) == 0 && Path(g, id) == "/"
  {
    assert RootedWithin(g, id, 0);
  }

  /** Adding a fresh node to the arena changes no other node's depth or path. */
  lemma AddNodeKeepsOthers(g: Graph, id: NodeId, n: Node, x: NodeId)
    requires id !in g && Rooted(g, x)
    ensures Rooted(g[id := n], x)
    ensures Depth(g[id := n], x) == Depth(g, x) && Path(g[id := n], x) == Path(g, x)
  {
    ChainsAgree(g, g[id := n], x);
  }

  /**
    `Node(name, parent)`: the new node's depth is the parent's plus one and
    its path extends the parent's, but the parent's child list is unchanged.
   */
  lemma ChildNodeFollowsParent(g: Graph, id: NodeId, name: string, p: NodeId)
    requires id !in g && Rooted(g, p)
    ensures var g' := g[id := WithParent(name, p)];
      Rooted(g', id) && Depth(g', id) == Depth(g, p) + 1 &&
      Path(g', id) == Path(g, p) + "/" + name &&
      g'[p].children == g[p].children &&
      g'[id].local == Identity && g'[id].world == Identity
  {
    var g' := g[id := WithParent(name, p)];
    ChainsAgree(g, g', p);
    var n: nat :| RootedWithin(g', p, n);
    assert RootedWithin(g', id, n + 1);
  }

  // ---------------------------------------------------------------------
  // setParent

  /**
    After `c.setParent(p)`: the parent of `c` is `p`, its depth and path
    follow `p`'s chain, and no child list has changed.
   */
  lemma ReparentedNode(g: Graph, c: NodeId, p: NodeId)
    requires c in g && Rooted(g, p) && c !in Chain(g, p)
    ensures var g' := Reparent(g, c, p);
      Rooted(g', c) && g'[c].parent == Some(p) &&
      Depth(g', c) == Depth(g, p) + 1 &&
      Path(g', c) == Path(g, p) + "/" + g[c].name &&
      g'.Keys == g.Keys &&
      (forall y :: y in g ==> g'[y].children == g[y].children && g'[y].name == g[y].name)
  {
    var g' := Reparent(g, c, p);
    ChainsAgree(g, g', p);
    var n: nat :| RootedWithin(g', p, n);
    assert RootedWithin(g', c, n + 1);
  }

  /** A node whose chain does not pass through `c` keeps its depth and path. */
  lemma ReparentKeepsOthers(g: Graph, c: NodeId, p: NodeId, x: NodeId)
    requires c in g && Rooted(g, x) && c !in Chain(g, x)
    ensures var g' := Reparent(g, c, p);
      Rooted(g', x) && Depth(g', x) == Depth(g, x) && Path(g', x) == Path(g, x)
  {
    ChainsAgree(g, Reparent(g, c, p), x);
  }

  /** Rebinding to a parent whose chain avoids `c` keeps every chain finite. */
  lemma {:induction false} ReparentKeepsRooted(g: Graph, c: NodeId, p: NodeId, x: NodeId)
    requires c in g && Rooted(g, p) && c !in Chain(g, p) && Rooted(g, x)
    ensures Rooted(Reparent(g, c, p), x)
    decreases Rank(g, x)
  {
    var g' := Reparent(g, c, p);
    if c !in Chain(g, x) {
      ChainsAgree(g, g', x);
    } else if x == c {
      ReparentedNode(g, c, p);
    } else {
      assert g[x].parent.Some?;
      var q := g[x].parent.value;
      ParentRank(g, x);
      assert Chain(g, x) == {x} + Chain(g, q);
      ReparentKeepsRooted(g, c, p, q);
      var n: nat :| RootedWithin(g', q, n);
      assert RootedWithin(g', x, n + 1);
    }
  }

  /**
    Depth and path are recomputed on every call, so the nodes below `c` see
    the new chain at once: their depth moves by the change in `c`'s depth,
    and their path keeps its part below `c` behind `c`'s new path.
   */
  lemma {:induction false} ReparentMovesDescendants(g: Graph, c: NodeId, p: NodeId, x: NodeId)
    returns (below: string)
    requires c in g && Rooted(g, p) && c !in Chain(g, p)
    requires Rooted(g, x) && c in Chain(g, x)
    ensures Rooted(g, c) && Rooted(Reparent(g, c, p), x)
    ensures Depth(Reparent(g, c, p), x) + Depth(g, c) == Depth(g, x) + Depth(g, p) + 1
    ensures Path(g, x) == Path(g, c) + below
    ensures Path(Reparent(g, c, p), x) == Path(g, p) + "/" + g[c].name + below
    decreases Rank(g, x)
  {
    var g' := Reparent(g, c, p);
    ReparentKeepsRooted(g, c, p, x);
    if x == c {
      ReparentedNode(g, c, p);
      below := "";
    } else {
      assert g[x].parent.Some?;
      var q := g[x].parent.value;
      ParentRank(g, x);
      assert Chain(g, x) == {x} + Chain(g, q);
      var rest := ReparentMovesDescendants(g, c, p, q);
      ReparentStep(g, c, p, x);
      var tail := "/" + g[x].name;
      below := rest + tail;
      assert Path(g, x) == (Path(g, c) + rest) + tail;
      assert Path(g', x) == (Path(g, p) + "/" + g[c].name + rest) + tail;
    }
  }

  /** Below the moved node, one step up the chain is the same step before and after `setParent`. */
  lemma ReparentStep(g: Graph, c: NodeId, p: NodeId, x: NodeId)
    requires c in g && x != c && Rooted(g, x) && Rooted(Reparent(g, c, p), x) && g[x].parent.Some?
    ensures var g', q := Reparent(g, c, p), g[x].parent.value;
      Rooted(g, q) && Rooted(g', q) &&
      Depth(g, x) == Depth(g, q) + 1 && Path(g, x) == Path(g, q) + "/" + g[x].name &&
      Depth(g', x) == Depth(g', q) + 1 && Path(g', x) == Path(g', q) + "/" + g[x].name
  {
    var g' := Reparent(g, c, p);
    assert g'[x] == g[x];
    ParentRank(g, x);
    ParentRank(g', x);
  }

  // ---------------------------------------------------------------------
  // addChildren

  /** Appending to a child list moves no parent pointer: every depth and path stays. */
  lemma AppendKeepsChains(g: Graph, id: NodeId, c: NodeId, x: NodeId)
    requires id in g && Rooted(g, x)
    ensures var g' := AppendChild(g, id, c);
      Rooted(g', x) && Depth(g', x) == Depth(g, x) && Path(g', x) == Path(g, x)
  {
    ChainsAgree(g, AppendChild(g, id, c), x);
  }

  // ---------------------------------------------------------------------
  // getChildren searches in pre-order

  /** The first visit in `vs` whose node is named `name`. */
  function FirstNamed(g: Graph, vs: seq<Visit>, name: string): Option<NodeId>
    requires forall i :: 0 <= i < |vs| ==> vs[i].node in g
  {
    if vs == [] then None
    else if g[vs[0].node].name == name then Some(vs[0].node)
    else FirstNamed(g, vs[1..], name)
  }

  lemma {:induction false} FirstNamedConcat(g: Graph, a: seq<Visit>, b: seq<Visit>, name: string)
    requires forall i :: 0 <= i < |a| ==> a[i].node in g
    requires forall i :: 0 <= i < |b| ==> b[i].node in g
    ensures FirstNamed(g, a + b, name) ==
      if FirstNamed(g, a, name).Some? then FirstNamed(g, a, name) else FirstNamed(g, b, name)
  {
    if a != [] {
      assert (a + b)[1..] == a[1..] + b;
      FirstNamedConcat(g, a[1..], b, name);
    } else {
      assert a + b == b;
    }
  }

  /** FirstNamed finds nothing exactly when no visit has the name, and otherwise the earliest one. */
  lemma {:induction false} FirstNamedIsEarliest(g: Graph, vs: seq<Visit>, name: string)
    requires forall i :: 0 <= i < |vs| ==> vs[i].node in g
    ensures FirstNamed(g, vs, name).None? <==> forall i :: 0 <= i < |vs| ==> g[vs[i].node].name != name
    ensures FirstNamed(g, vs, name).Some? ==>
      exists i :: 0 <= i < |vs| && vs[i].node == FirstNamed(g, vs, name).value &&
        g[vs[i].node].name == name &&
        forall j :: 0 <= j < i ==> g[vs[j].node].name != name
  {
    if vs != [] && g[vs[0].node].name != name {
      FirstNamedIsEarliest(g, vs[1..], name);
      if FirstNamed(g, vs, name).Some? {
        var i :| 0 <= i < |vs[1..]| && vs[1..][i].node == FirstNamed(g, vs, name).value &&
          g[vs[1..][i].node].name == name &&
          forall j :: 0 <= j < i ==> g[vs[1..][j].node].name != name;
        assert vs[i + 1].node == FirstNamed(g, vs, name).value;
        assert forall j :: 0 <= j < i + 1 ==> g[vs[j].node].name != name by {
          forall j | 0 <= j < i + 1
            ensures g[vs[j].node].name != name
          {
            if j > 0 {
              assert vs[j] == vs[1..][j - 1];
            }
          }
        }
      } else {
        forall i | 0 <= i < |vs|
          ensures g[vs[i].node].name != name
        {
          if i > 0 {
            assert vs[i] == vs[1..][i - 1];
          }
        }
      }
    }
  }

  lemma {:induction false} FindIsFirstInWalk(g: Graph, id: NodeId, name: string, level: nat)
    requires Finite(g, id)
    ensures Find(g, id, name) == FirstNamed(g, Walk(g, id, level)[1..], name)
    decreases Height(g, id), 1, 0
  {
    ChildrenBelow(g, id);
    FindAmongIsFirstInWalk(g, g[id].children, name, level + 1, Height(g, id));
    assert Walk(g, id, level)[1..] == WalkAmong(g, g[id].children, level + 1, Height(g, id));
  }

  lemma {:induction false} FindAmongIsFirstInWalk(g: Graph, cs: seq<NodeId>, name: string, level: nat, h: nat)
    requires Below(g, cs, h)
    ensures FindAmong(g, cs, name, h) == FirstNamed(g, WalkAmong(g, cs, level, h), name)
    decreases h, 0, |cs|
  {
    if cs != [] {
      var w := Walk(g, cs[0], level);
      var rest := WalkAmong(g, cs[1..], level, h);
      FirstNamedConcat(g, w, rest, name);
      FindAmongIsFirstInWalk(g, cs[1..], name, level, h);
      if g[cs[0]].name != name {
        FindIsFirstInWalk(g, cs[0], name, level);
        assert w == [w[0]] + w[1..];
      }
    }
  }

  /**
    `getChildren(name)` returns the first proper descendant, in pre-order
    (each child, then its subtree, then the next sibling), that carries the
    name; it returns nothing exactly when no descendant carries it.
   */
  lemma FindIsFirstDescendant(g: Graph, id: NodeId, name: string)
    requires Finite(g, id)
    ensures var d, r := Descendants(g, id), Find(g, id, name);
      (r.None? <==> forall i :: 0 <= i < |d| ==> g[d[i]].name != name) &&
      (r.Some? ==> (exists i :: 0 <= i < |d| && d[i] == r.value &&
                     forall j :: 0 <= j < i ==> g[d[j]].name != name))
  {
    var w := Walk(g, id, 0);
    var d := Descendants(g, id);
    FindIsFirstInWalk(g, id, name, 0);
    FirstNamedIsEarliest(g, w[1..], name);
    assert forall i :: 0 <= i < |d| ==> d[i] == w[1..][i].node;
  }

  lemma {:induction false} WalkStaysBelow(g: Graph, id: NodeId, level: nat)
    requires Finite(g, id)
    ensures forall i :: 0 <= i < |Walk(g, id, level)| ==>
      Finite(g, Walk(g, id, level)[i].node) && Height(g, Walk(g, id, level)[i].node) <= Height(g, id)
    decreases Height(g, id), 1, 0
  {
    ChildrenBelow(g, id);
    WalkAmongStaysBelow(g, g[id].children, level + 1, Height(g, id));
  }

  lemma {:induction false} WalkAmongStaysBelow(g: Graph, cs: seq<NodeId>, level: nat, h: nat)
    requires Below(g, cs, h)
    ensures forall i :: 0 <= i < |WalkAmong(g, cs, level, h)| ==>
      Finite(g, WalkAmong(g, cs, level, h)[i].node) && Height(g, WalkAmong(g, cs, level, h)[i].node) < h
    decreases h, 0, |cs|
  {
    if cs != [] {
      WalkStaysBelow(g, cs[0], level);
      WalkAmongStaysBelow(g, cs[1..], level, h);
    }
  }

  /** `getChildren` never returns the node it is called on. */
  lemma FindNeverSelf(g: Graph, id: NodeId, name: string)
    requires Finite(g, id)
    ensures Find(g, id, name) != Some(id)
  {
    ChildrenBelow(g, id);
    var w := Walk(g, id, 0);
    WalkAmongStaysBelow(g, g[id].children, 1, Height(g, id));
    assert w[1..] == WalkAmong(g, g[id].children, 1, Height(g, id));
    FindIsFirstDescendant(g, id, name);
  }

  lemma {:induction false} WalkAmongSnoc(g: Graph, cs: seq<NodeId>, c: NodeId, level: nat, h: nat)
    requires Below(g, cs + [c], h)
    ensures Below(g, cs, h) && Finite(g, c) && Height(g, c) < h
    ensures WalkAmong(g, cs + [c], level, h) == WalkAmong(g, cs, level, h) + Walk(g, c, level)
    decreases |cs|
  {
    assert forall i :: 0 <= i < |cs| ==> cs[i] == (cs + [c])[i];
    assert (cs + [c])[|cs|] == c;
    if cs == [] {
      assert [c][1..] == [];
    } else {
      assert (cs + [c])[1..] == cs[1..] + [c];
      WalkAmongSnoc(g, cs[1..], c, level, h);
    }
  }

  /**
    After `addChildren(c)` the appended node is the last child, its parent is
    untouched, and a search of the (still finite) subtree for its name finds
    a node.
   */
  lemma AppendThenFind(g: Graph, id: NodeId, c: NodeId)
    requires id in g && c in g
    requires Finite(AppendChild(g, id, c), id)
    ensures var g' := AppendChild(g, id, c);
      g'[id].children == g[id].children + [c] &&
      g'[c].parent == g[c].parent &&
      Find(g', id, g[c].name).Some?
  {
    var g' := AppendChild(g, id, c);
    var cs := g[id].children;
    ChildrenBelow(g', id);
    var h := Height(g', id);
    WalkAmongSnoc(g', cs, c, 1, h);
    FindIsFirstInWalk(g', id, g[c].name, 0);
    assert Walk(g', id, 0)[1..] == WalkAmong(g', cs, 1, h) + Walk(g', c, 1);
    FirstNamedConcat(g', WalkAmong(g', cs, 1, h), Walk(g', c, 1), g[c].name);
  }

  // ---------------------------------------------------------------------
  // printChildren prints the same pre-order

  /** The printed lines of a sequence of visits. */
  function Render(g: Graph, vs: seq<Visit>): (lines: seq<string>)
    requires forall i :: 0 <= i < |vs| ==> vs[i].node in g
  {
    if vs == [] then [] else [Line(vs[0].level, g[vs[0].node].name)] + Render(g, vs[1..])
  }

  lemma {:induction false} RenderConcat(g: Graph, a: seq<Visit>, b: seq<Visit>)
    requires forall i :: 0 <= i < |a| ==> a[i].node in g
    requires forall i :: 0 <= i < |b| ==> b[i].node in g
    ensures Render(g, a + b) == Render(g, a) + Render(g, b)
  {
    if a == [] {
      assert a + b == b;
    } else {
      assert (a + b)[1..] == a[1..] + b;
      RenderConcat(g, a[1..], b);
    }
  }

  lemma {:induction false} RenderAt(g: Graph, vs: seq<Visit>)
    requires forall i :: 0 <= i < |vs| ==> vs[i].node in g
    ensures |Render(g, vs)| == |vs|
    ensures forall i :: 0 <= i < |vs| ==> Render(g, vs)[i] == Line(vs[i].level, g[vs[i].node].name)
  {
    if vs != [] {
      RenderAt(g, vs[1..]);
      forall i | 0 < i < |vs|
        ensures Render(g, vs)[i] == Line(vs[i].level, g[vs[i].node].name)
      {
        assert vs[i] == vs[1..][i - 1];
      }
    }
  }

  lemma {:induction false} PrintIsRenderedWalk(g: Graph, id: NodeId, level: nat)
    requires Finite(g, id)
    ensures PrintLines(g, id, level) == Render(g, Walk(g, id, level))
    decreases Height(g, id), 1, 0
  {
    ChildrenBelow(g, id);
    var rest := WalkAmong(g, g[id].children, level + 1, Height(g, id));
    PrintAmongIsRenderedWalk(g, g[id].children, level + 1, Height(g, id));
    RenderConcat(g, [Visit(id, level)], rest);
  }

  lemma {:induction false} PrintAmongIsRenderedWalk(g: Graph, cs: seq<NodeId>, level: nat, h: nat)
    requires Below(g, cs, h)
    ensures PrintAmong(g, cs, level, h) == Render(g, WalkAmong(g, cs, level, h))
    decreases h, 0, |cs|
  {
    if cs != [] {
      PrintIsRenderedWalk(g, cs[0], level);
      PrintAmongIsRenderedWalk(g, cs[1..], level, h);
      RenderConcat(g, Walk(g, cs[0], level), WalkAmong(g, cs[1..], level, h));
    }
  }

  /**
    `printChildren(level)` emits one line per node of the pre-order walk, in
    walk order, at the walk's level: the node itself first, at `level`, and
    every descendant deeper.
   */
  lemma PrintFollowsWalk(g: Graph, id: NodeId, level: nat)
    requires Finite(g, id)
    ensures var lines, w := PrintLines(g, id, level), Walk(g, id, level);
      |lines| == |w| &&
      lines[0] == Line(level, g[id].name) &&
      (forall i :: 0 <= i < |w| ==> lines[i] == Line(w[i].level, g[w[i].node].name)) &&
      (forall i :: 0 < i < |w| ==> w[i].level > level)
  {
    PrintIsRenderedWalk(g, id, level);
    RenderAt(g, Walk(g, id, level));
  }

  /** A line below level 0 is `level` bars followed by "- " and the name. */
  lemma LineShape(level: nat, name: string)
    requires level > 0
    ensures var line := Line(level, name);
      |line| == level + 2 + |name| &&
      (forall i :: 0 <= i < level ==> line[i] == '|') &&
      line[level..] == "- " + name
  {
    var line := Line(level, name);
    assert line == seq(level, _ => '|') + ("- " + name);
  }

  // ---------------------------------------------------------------------
  // removeChildren

  /** Removing a value that is not in the list leaves the list as it was. */
  lemma {:induction false} RemoveAllAbsent(cs: seq<NodeId>, x: NodeId)
    requires x !in cs
    ensures RemoveAll(cs, x) == cs
  {
    if cs != [] {
      assert cs[0] != x && x !in cs[1..];
      RemoveAllAbsent(cs[1..], x);
      assert RemoveAll(cs, x) == [cs[0]] + cs[1..];
    }
  }

  /** Removal works element by element, so the kept elements keep their order. */
  lemma {:induction false} RemoveAllConcat(a: seq<NodeId>, b: seq<NodeId>, x: NodeId)
    ensures RemoveAll(a + b, x) == RemoveAll(a, x) + RemoveAll(b, x)
  {
    if a == [] {
      assert a + b == b;
    } else {
      assert (a + b)[1..] == a[1..] + b;
      RemoveAllConcat(a[1..], b, x);
    }
  }

  /** Unlinking changes one child list and no parent: every depth and path stays. */
  lemma UnlinkKeepsChains(g: Graph, p: NodeId, f: NodeId, x: NodeId)
    requires p in g && Rooted(g, x)
    ensures var g' := Unlink(g, p, f);
      Rooted(g', x) && Depth(g', x) == Depth(g, x) && Path(g', x) == Path(g, x)
  {
    ChainsAgree(g, Unlink(g, p, f), x);
  }

  /** Unlinking only drops child links, so a finite subtree stays finite. */
  lemma {:induction false} UnlinkKeepsFinite(g: Graph, p: NodeId, f: NodeId, x: NodeId, n: nat)
    requires p in g && HeightWithin(g, x, n)
    ensures HeightWithin(Unlink(g, p, f), x, n)
    decreases n
  {
    var g' := Unlink(g, p, f);
    var cs, cs' := g[x].children, g'[x].children;
    forall i | 0 <= i < |cs'|
      ensures HeightWithin(g', cs'[i], n - 1)
    {
      assert cs'[i] in cs;
      var j :| 0 <= j < |cs| && cs[j] == cs'[i];
      UnlinkKeepsFinite(g, p, f, cs[j], n - 1);
    }
  }

  /**
    `removeChildren(name)` has exactly three outcomes. A miss returns nothing
    and changes nothing. A hit on a node without a parent returns it and
    changes nothing. A hit on a node with parent `p` returns it and drops
    every occurrence of it from `p`'s list, keeping the rest of that list in
    order; no other list, no name and no parent changes.
   */
  lemma RemovalOutcomes(g: Graph, id: NodeId, name: string)
    requires Closed(g) && Finite(g, id)
    ensures var (g', r) := Removal(g, id, name);
      r == Find(g, id, name) &&
      (r.None? ==> g' == g) &&
      (r.Some? && g[r.value].parent.None? ==> g' == g) &&
      (r.Some? && g[r.value].parent.Some? ==>
        var p := g[r.value].parent.value;
        g'.Keys == g.Keys &&
        r.value !in g'[p].children &&
        multiset(g'[p].children) == multiset(g[p].children)[r.value := 0] &&
        (forall y :: y in g && y != p ==> g'[y] == g[y]) &&
        g'[p].name == g[p].name && g'[p].parent == g[p].parent)
  {
  }

  /** After `removeChildren` the arena is still closed and every chain and subtree keeps its shape. */
  lemma RemovalKeepsShape(g: Graph, id: NodeId, name: string, x: NodeId)
    requires Closed(g) && Finite(g, id)
    ensures Closed(Removal(g, id, name).0)
    ensures Rooted(g, x) ==> var g' := Removal(g, id, name).0;
      Rooted(g', x) && Depth(g', x) == Depth(g, x) && Path(g', x) == Path(g, x)
    ensures Finite(g, x) ==> Finite(Removal(g, id, name).0, x)
  {
    var r := Find(g, id, name);
    if r.Some? && g[r.value].parent.Some? {
      var f, p := r.value, g[r.value].parent.value;
      var g' := Unlink(g, p, f);
      assert Closed(g') by {
        forall y | y in g'
          ensures forall i :: 0 <= i < |g'[y].children| ==> g'[y].children[i] in g'
        {
          forall i | 0 <= i < |g'[y].children|
            ensures g'[y].children[i] in g'
          {
            assert g'[y].children[i] in g[y].children;
          }
        }
      }
      if Rooted(g, x) {
        UnlinkKeepsChains(g, p, f, x);
      }
      if Finite(g, x) {
        UnlinkKeepsFinite(g, p, f, x, Height(g, x));
      }
    }
  }

  /** An example arena: a root holding a child named "x" whose parent pointer is unset. */
  function LooseChildArena(): Graph
  {
    map[0 := Node("root", None, [1], Identity, Identity),
        1 := Node("x", None, [], Identity, Identity)]
  }

  /**
    `removeChildren` unlinks from the found node's own parent, not from the
    list the node was found in: when `addChildren` was used without
    `setParent`, the node is returned but stays in the tree and is found
    again afterwards.
   */
  lemma RemovalOfLooseChildKeepsIt()
    ensures Closed(LooseChildArena()) && Finite(LooseChildArena(), 0)
    ensures Removal(LooseChildArena(), 0, "x") == (LooseChildArena(), Some(1))
    ensures Find(Removal(LooseChildArena(), 0, "x").0, 0, "x") == Some(1)
  {
    var g := LooseChildArena();
    assert HeightWithin(g, 1, 1);
    assert HeightWithin(g, 0, 2);
    ChildrenBelow(g, 0);
    assert Find(g, 0, "x") == FindAmong(g, [1], "x", Height(g, 0));
  }

  // ---------------------------------------------------------------------
  // Child lists alone decide the search

  /** Two arenas with the same nodes, names and child lists. */
  ghost predicate SameTree(g: Graph, g': Graph)
  {
    g.Keys == g'.Keys &&
    forall y :: y in g ==> g'[y].name == g[y].name && g'[y].children == g[y].children
  }

  lemma {:induction false} SameTreeHeightWithin(g: Graph, g': Graph, x: NodeId, n: nat)
    requires SameTree(g, g')
    ensures HeightWithin(g, x, n) <==> HeightWithin(g', x, n)
    decreases n
  {
    if x in g && n > 0 {
      forall i | 0 <= i < |g[x].children|
        ensures HeightWithin(g, g[x].children[i], n - 1) <==> HeightWithin(g', g[x].children[i], n - 1)
      {
        SameTreeHeightWithin(g, g', g[x].children[i], n - 1);
      }
    }
  }

  lemma SameTreeHeight(g: Graph, g': Graph, x: NodeId)
    requires SameTree(g, g') && Finite(g, x)
    ensures Finite(g', x) && Height(g', x) == Height(g, x)
  {
    var h := Height(g, x);
    SameTreeHeightWithin(g, g', x, h);
    var h' := Height(g', x);
    SameTreeHeightWithin(g, g', x, h');
  }

  lemma {:induction false} SameTreeFind(g: Graph, g': Graph, id: NodeId, name: string)
    requires SameTree(g, g') && Finite(g, id)
    ensures Finite(g', id) && Find(g', id, name) == Find(g, id, name)
    decreases Height(g, id), 1, 0
  {
    SameTreeHeight(g, g', id);
    ChildrenBelow(g, id);
    SameTreeFindAmong(g, g', g[id].children, name, Height(g, id));
  }

  lemma {:induction false} SameTreeFindAmong(g: Graph, g': Graph, cs: seq<NodeId>, name: string, h: nat)
    requires SameTree(g, g') && Below(g, cs, h)
    ensures Below(g', cs, h) && FindAmong(g', cs, name, h) == FindAmong(g, cs, name, h)
    decreases h, 0, |cs|
  {
    forall i | 0 <= i < |cs|
      ensures Finite(g', cs[i]) && Height(g', cs[i]) < h
    {
      SameTreeHeight(g, g', cs[i]);
    }
    if cs != [] {
      SameTreeFind(g, g', cs[0], name);
      SameTreeFindAmong(g, g', cs[1..], name, h);
    }
  }

  /** `setParent` touches no child list, so every search gives the same answer afterwards. */
  lemma ReparentKeepsSearch(g: Graph, c: NodeId, p: NodeId, id: NodeId, name: string)
    requires c in g && Finite(g, id)
    ensures Finite(Reparent(g, c, p), id) && Find(Reparent(g, c, p), id, name) == Find(g, id, name)
  {
    SameTreeFind(g, Reparent(g, c, p), id, name);
  }

  // ---------------------------------------------------------------------
  // Transforms

  /**
    `setLocalTransform(m)` then `getLocalTransform()` gives `m`; the world
    transform, every other node, every depth, path and search are unchanged.
   */
  lemma SetLocalThenGet(g: Graph, id: NodeId, m: Mat4, x: NodeId, name: string)
    requires id in g
    ensures var g' := SetLocal(g, id, m);
      g'[id].local == m && g'[id].world == g[id].world &&
      g'.Keys == g.Keys && (forall y :: y in g && y != id ==> g'[y] == g[y]) &&
      (Rooted(g, x) ==> Rooted(g', x) && Depth(g', x) == Depth(g, x) && Path(g', x) == Path(g, x)) &&
      (Finite(g, x) ==> Finite(g', x) && Find(g', x, name) == Find(g, x, name))
  {
    var g' := SetLocal(g, id, m);
    if Rooted(g, x) {
      ChainsAgree(g, g', x);
    }
    if Finite(g, x) {
      SameTreeFind(g, g', x, name);
    }
  }

  /** The same for `setWorldTransform(m)` and `getWorldTransform()`. */
  lemma SetWorldThenGet(g: Graph, id: NodeId, m: Mat4, x: NodeId, name: string)
    requires id in g
    ensures var g' := SetWorld(g, id, m);
      g'[id].world == m && g'[id].local == g[id].local &&
      g'.Keys == g.Keys && (forall y :: y in g && y != id ==> g'[y] == g[y]) &&
      (Rooted(g, x) ==> Rooted(g', x) && Depth(g', x) == Depth(g, x) && Path(g', x) == Path(g, x)) &&
      (Finite(g, x) ==> Finite(g', x) && Find(g', x, name) == Find(g, x, name))
  {
    var g' := SetWorld(g, id, m);
    if Rooted(g, x) {
      ChainsAgree(g, g', x);
    }
    if Finite(g, x) {
      SameTreeFind(g, g', x, name);
    }
  }
}
