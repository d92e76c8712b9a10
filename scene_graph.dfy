/**
  framework/source/SceneGraph.cpp: a named holder of an optional root node.
  The root is a node identity of an arena (module NodeArena); the graph
  itself only stores it.
 */
module SceneGraphs {
  import opened Wrappers
  import opened Nodes
  import NodeArena
  import NodeProperties

  class SceneGraph {
    var name: string
    var root: Option<NodeId>

    /** `SceneGraph() = default`: an empty name and no root. */
    constructor ()
      ensures name == "" && root == None
    {
      name := "";
      root := None;
    }

    /** `SceneGraph(name)`: the name is stored and there is no root. */
    constructor Named(name: string)
      ensures this.name == name && root == None
    {
      this.name := name;
      root := None;
    }

    /** `SceneGraph(name, node)`: both are stored; the node pointer may itself be null. */
    constructor WithRoot(name: string, node: Option<NodeId>)
      ensures this.name == name && root == node
    {
      this.name := name;
      root := node;
    }

    function GetName(): string
      reads this
    {
      name
    }

    function GetRoot(): Option<NodeId>
      reads this
    {
      root
    }

    /** `setName`: the name is replaced and the root kept. */
    method SetName(name: string)
      modifies this
      ensures GetName() == name && GetRoot() == old(GetRoot())
    {
      this.name := name;
    }

    /** `setRoot`: the root is replaced and the name kept. */
    method SetRoot(node: Option<NodeId>)
      modifies this
      ensures GetRoot() == node && GetName() == old(GetName())
    {
      root := node;
    }

    /**
      `printGraph`: the root's `printChildren()` at level 0. The source
      dereferences the root, so a graph without one must not be printed.
      The first line is ".- " and the root's name, and the lines follow the
      pre-order walk of the tree below the root.
     */
    method PrintGraph(arena: NodeArena.Arena) returns (lines: seq<string>)
      requires root.Some? && Finite(arena.nodes, root.value)
      ensures |lines| == |Walk(arena.nodes, root.value, 0)|
      ensures lines[0] == ".- " + arena.nodes[root.value].name
      ensures lines == PrintLines(arena.nodes, root.value, 0)
    {
      lines := PrintLines(arena.nodes, root.value, 0);
      NodeProperties.PrintFollowsWalk(arena.nodes, root.value, 0);
    }
  }
}
