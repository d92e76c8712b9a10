/**
  The state-changing side of framework/source/Node.cpp.

  Every `std::shared_ptr<Node>` of the program is a node identity of one
  arena; the arena's `nodes` map holds each node's fields. The methods
  update that map in place, as the member functions of `Node` update their
  object, and each is proved to perform the matching transition function of
  module Nodes. The invariant `Valid` holds of every arena the methods can
  build: identities are handed out fresh, no pointer dangles, and every
  parent chain is finite (`setParent` onto a node's own descendant would
  recurse without end in the source, so it is excluded by its precondition).
  Child lists may form a cycle, as `addChildren` allows; only the search and
  the printout require the subtree they walk to be finite.
 */
module NodeArena {
  import opened Wrappers
  import opened Matrices
  import opened Nodes
  import NodeProperties

  class Arena {
    var nodes: Graph
    /** The identity the next constructed node receives. */
    var next: NodeId

    ghost predicate Valid()
      reads this
    {
      (forall id :: id in nodes ==> id < next) &&
      Closed(nodes) &&
      (forall id :: id in nodes ==> Rooted(nodes, id))
    }

    constructor ()
      ensures Valid() && nodes == map[]
    {
      nodes := map[];
      next := 0;
    }

    /** `Node(name)`: a fresh node with no parent and identity transforms. */
    method NewNode(name: string) returns (id: NodeId)
      requires Valid()
      modifies this
      ensures Valid() && id !in old(nodes)
      ensures nodes == old(nodes)[id := Named(name)]
      ensures Depth(nodes, id) == 0 && Path(nodes, id) == "/" + name
    {
      id := next;
      var g := nodes;
      nodes := nodes[id := Named(name)];
      next := next + 1;
      forall x | x in nodes
        ensures Rooted(nodes, x)
      {
        if x == id {
          NodeProperties.NamedNodeIsRoot(nodes, id, name);
        } else {
          NodeProperties.AddNodeKeepsOthers(g, id, Named(name), x);
        }
      }
      NodeProperties.NamedNodeIsRoot(nodes, id, name);
    }

    /**
      `Node(name, parent)`: a fresh node whose parent is `parent` (the
      source dereferences it, so it must exist). Its depth and path follow
      the parent, and it is not added to the parent's children.
     */
    method NewChildNode(name: string, parent: NodeId) returns (id: NodeId)
      requires Valid() && parent in nodes
      modifies this
      ensures Valid() && id !in old(nodes)
      ensures nodes == old(nodes)[id := WithParent(name, parent)]
      ensures Depth(nodes, id) == Depth(old(nodes), parent) + 1
      ensures Path(nodes, id) == Path(old(nodes), parent) + "/" + name
      ensures nodes[parent].children == old(nodes)[parent].children
    {
      id := next;
      var g := nodes;
      nodes := nodes[id := WithParent(name, parent)];
      next := next + 1;
      NodeProperties.ChildNodeFollowsParent(g, id, name, parent);
      forall x | x in nodes
        ensures Rooted(nodes, x)
      {
        if x != id {
          NodeProperties.AddNodeKeepsOthers(g, id, WithParent(name, parent), x);
        }
      }
    }

    /**
      `Node()`: a fresh node with an empty name, no parent and no children.
      Its transforms are left indeterminate, so nothing is promised of them.
     */
    method NewDefaultNode() returns (id: NodeId)
      requires Valid()
      modifies this
      ensures Valid() && id !in old(nodes)
      ensures nodes.Keys == old(nodes).Keys + {id}
      ensures forall y :: y in old(nodes) ==> nodes[y] == old(nodes)[y]
      ensures DefaultBuilt(nodes[id])
      ensures Depth(nodes, id) == 0 && Path(nodes, id) == "/"
    {
      id := next;
      var g := nodes;
      var n := Node("", None, [], Identity, Identity);
      nodes := nodes[id := n];
      next := next + 1;
      forall x | x in nodes
        ensures Rooted(nodes, x)
      {
        if x == id {
          NodeProperties.DefaultBuiltIsRoot(nodes, id);
        } else {
          NodeProperties.AddNodeKeepsOthers(g, id, n, x);
        }
      }
      NodeProperties.DefaultBuiltIsRoot(nodes, id);
    }

    function GetName(id: NodeId): string
      reads this
      requires id in nodes
    {
      nodes[id].name
    }

    function GetParent(id: NodeId): Option<NodeId>
      reads this
      requires id in nodes
    {
      nodes[id].parent
    }

    /** `getChildrenList`: a copy of the child list. */
    function GetChildrenList(id: NodeId): seq<NodeId>
      reads this
      requires id in nodes
    {
      nodes[id].children
    }

    function GetLocalTransform(id: NodeId): Mat4
      reads this
      requires id in nodes
    {
      nodes[id].local
    }

    function GetWorldTransform(id: NodeId): Mat4
      reads this
      requires id in nodes
    {
      nodes[id].world
    }

    /**
      `addChildren(child)`: `child` is pushed at the back of the child list
      of `id`; the parent pointer of `child` is not touched.
     */
    method AddChildren(id: NodeId, child: NodeId)
      requires Valid() && id in nodes && child in nodes
      modifies this
      ensures Valid() && next == old(next)
      ensures nodes == AppendChild(old(nodes), id, child)
      ensures GetChildrenList(id) == old(GetChildrenList(id)) + [child]
      ensures GetParent(child) == old(GetParent(child))
    {
      var g := nodes;
      nodes := nodes[id := nodes[id].(children := nodes[id].children + [child])];
      forall x | x in nodes
        ensures Rooted(nodes, x)
      {
        NodeProperties.AppendKeepsChains(g, id, child, x);
      }
    }

    /**
      `setParent(parent)`: the back-pointer of `id` is rebound; its depth and
      path now follow `parent`'s chain. No child list changes, the old
      parent's included. The new parent must exist and must not lie below
      `id` on a parent chain: the source recurses without end otherwise.
     */
    method SetParent(id: NodeId, parent: NodeId)
      requires Valid() && id in nodes && parent in nodes
      requires id !in Chain(nodes, parent)
      modifies this
      ensures Valid() && next == old(next)
      ensures nodes == Reparent(old(nodes), id, parent)
      ensures GetParent(id) == Some(parent)
      ensures Depth(nodes, id) == Depth(old(nodes), parent) + 1
      ensures Path(nodes, id) == Path(old(nodes), parent) + "/" + GetName(id)
      ensures forall y :: y in nodes ==> nodes[y].children == old(nodes)[y].children
    {
      var g := nodes;
      nodes := nodes[id := nodes[id].(parent := Some(parent))];
      NodeProperties.ReparentedNode(g, id, parent);
      forall x | x in nodes
        ensures Rooted(nodes, x)
      {
        NodeProperties.ReparentKeepsRooted(g, id, parent, x);
      }
    }

    /**
      `getChildren(name)`: a loop over the child list that returns the first
      child with the name, or else the first hit of that child's own
      search, before moving to the next child; nothing when the loop ends.
     */
    method GetChildren(id: NodeId, name: string) returns (found: Option<NodeId>)
      requires Finite(nodes, id)
      ensures found == Find(nodes, id, name)
      decreases Height(nodes, id)
    {
      var cs := nodes[id].children;
      ChildrenBelow(nodes, id);
      var h := Height(nodes, id);
      var i := 0;
      while i < |cs|
        invariant 0 <= i <= |cs|
        invariant Below(nodes, cs[i..], h)
        invariant Find(nodes, id, name) == FindAmong(nodes, cs[i..], name, h)
      {
        var child := cs[i];
        assert cs[i..][0] == child && cs[i..][1..] == cs[i + 1..];
        if nodes[child].name == name {
          return Some(child);
        }
        var nextChild := GetChildren(child, name);
        if nextChild != None {
          // the source searches the child's subtree a second time to return it
          found := GetChildren(child, name);
          return;
        }
        i := i + 1;
      }
      return None;
    }

    /**
      `removeChildren(name)`: search the subtree; when a node is found and
      it has a parent, drop every occurrence of it from that parent's child
      list. The found node, or nothing, is returned.
     */
    method RemoveChildren(id: NodeId, name: string) returns (found: Option<NodeId>)
      requires Valid() && Finite(nodes, id)
      modifies this
      ensures Valid() && next == old(next)
      ensures found == Find(old(nodes), id, name)
      ensures (nodes, found) == Removal(old(nodes), id, name)
    {
      var g := nodes;
      found := GetChildren(id, name);
      if found != None {
        var parentOfFound := nodes[found.value].parent;
        if parentOfFound != None {
          var p := parentOfFound.value;
          nodes := nodes[p := nodes[p].(children := RemoveAll(nodes[p].children, found.value))];
        }
      }
      NodeProperties.RemovalKeepsShape(g, id, name, 0);
      forall x | x in nodes
        ensures Rooted(nodes, x)
      {
        NodeProperties.RemovalKeepsShape(g, id, name, x);
      }
    }

    /** `setLocalTransform(m)`: only the local transform of `id` changes. */
    method SetLocalTransform(id: NodeId, m: Mat4)
      requires Valid() && id in nodes
      modifies this
      ensures Valid() && next == old(next)
      ensures nodes == SetLocal(old(nodes), id, m)
      ensures GetLocalTransform(id) == m && GetWorldTransform(id) == old(GetWorldTransform(id))
    {
      var g := nodes;
      nodes := nodes[id := nodes[id].(local := m)];
      forall x | x in nodes
        ensures Rooted(nodes, x)
      {
        NodeProperties.SetLocalThenGet(g, id, m, x, "");
      }
    }

    /** `setWorldTransform(m)`: only the world transform of `id` changes. */
    method SetWorldTransform(id: NodeId, m: Mat4)
      requires Valid() && id in nodes
      modifies this
      ensures Valid() && next == old(next)
      ensures nodes == SetWorld(old(nodes), id, m)
      ensures GetWorldTransform(id) == m && GetLocalTransform(id) == old(GetLocalTransform(id))
    {
      var g := nodes;
      nodes := nodes[id := nodes[id].(world := m)];
      forall x | x in nodes
        ensures Rooted(nodes, x)
      {
        NodeProperties.SetWorldThenGet(g, id, m, x, "");
      }
    }
  }
}
