# Scene-graph nodes, scene graphs and camera nodes

This project models the scene-graph core of an OpenGL framework in Dafny.

A `Node` has a name, an optional parent back-pointer, an ordered list of
child pointers, and a local and a world transform. Its operations are:

- depth and path, computed by walking up the parent chain;
- `addChildren`, which appends to the child list;
- `setParent`, which rebinds the back-pointer;
- `getChildren(name)`, a depth-first, sibling-major search of the whole subtree;
- `removeChildren(name)`, which searches and then unlinks the found node from its own parent's list;
- `printChildren(level)`, a pre-order indented listing.

A `SceneGraph` is a name and an optional root.
A `CameraNode` is a node with a perspective flag, an enabled flag and a projection matrix.

Every `std::shared_ptr<Node>` becomes a node identity in an arena, a map from identity to node record (`Nodes.Graph`):

- module `Nodes` holds the record, the recursive computations as functions, and one transition function per state change;
- module `NodeProperties` proves what the program promises about them;
- class `NodeArena.Arena` holds the arena as a mutable field. Its methods perform each `Node` member function in place and are proved equal to the transition functions;
- modules `SceneGraphs` and `Cameras` are the two smaller classes, as Dafny classes whose setters update fields;
- module `Scenario` replays the driver in `framework/tests/tests.cpp` and proves what it would print.

Recursion over parents terminates because the arena invariant `Valid` keeps every parent chain finite. Recursion over children terminates because the search and the printout require the subtree they walk to be finite (`Finite`). `addChildren` itself may close a cycle, exactly as in the source.

`removeChildren` does not always make a node unfindable:

- It unlinks the found node only from the list of the found node's own parent.
- A node listed as a child of some other node stays in that list and is found again.
- A node with no parent is returned, but nothing is unlinked, so it also stays findable.
- `NodeProperties.RemovalOfLooseChildKeepsIt` proves this on a two-node arena.

## Model

| member | source | states |
|---|---|---|
| Nodes.Chain | framework/source/Node.cpp:32-52 | the set of nodes met on a parent chain contains the start node and only arena nodes |
| NodeProperties.DepthIsLeastSteps | framework/source/Node.cpp:32-41 | `getDepth` is exactly the least number of parent steps after which the chain ends (0 for a parentless node) |
| NodeProperties.ChainsAgree | framework/source/Node.cpp:32-52 | depth and path depend only on the names and parents along the chain; any arena agreeing there gives the same depth and path (they are recomputed, never stale) |
| NodeProperties.PathSlashCount | framework/source/Node.cpp:43-52 | when no name on the chain contains '/', a path holds exactly depth + 1 slashes |
| NodeProperties.PathEndsWithName | framework/source/Node.cpp:43-52 | every path ends with "/" followed by the node's own name |
| NodeProperties.NamedNodeIsRoot | framework/source/Node.cpp:8-15 | a node built from a name alone has depth 0, path "/" + name and identity transforms |
| NodeProperties.DefaultBuiltIsRoot | framework/source/Node.cpp:6 | a node from `Node()` (empty name, no parent) has depth 0 and path "/" |
| NodeProperties.AddNodeKeepsOthers | framework/source/Node.cpp:8-24 | constructing a new node changes no other node's depth or path |
| NodeProperties.ChildNodeFollowsParent | framework/source/Node.cpp:17-24 | a node built with a parent has the parent's depth + 1 and the parent's path + "/" + name; the parent's child list is unchanged |
| NodeProperties.ReparentedNode | framework/source/Node.cpp:54-62 | after `setParent` the node's parent is the new one, its depth and path follow the new chain, and no child list or name changes |
| NodeProperties.ReparentKeepsOthers | framework/source/Node.cpp:54-58 | nodes whose chain does not pass through the moved node keep their depth and path |
| NodeProperties.ReparentKeepsRooted | framework/source/Node.cpp:54-58 | moving a node under a parent outside its own subtree keeps every parent chain finite |
| NodeProperties.ReparentMovesDescendants | framework/source/Node.cpp:54-58 | a descendant of the moved node shifts its depth by the change in the moved node's depth; its path keeps its suffix below the moved node under the new prefix |
| NodeProperties.ReparentStep | framework/source/Node.cpp:32-52 | for a node other than the moved one, depth and path are one step past its parent's, both before and after `setParent` |
| NodeProperties.ReparentKeepsSearch | framework/source/Node.cpp:54-58 | `setParent` does not change the result of any `getChildren` search |
| NodeProperties.AppendKeepsChains | framework/source/Node.cpp:64-66 | `addChildren` changes no depth or path |
| NodeProperties.AppendThenFind | framework/source/Node.cpp:64-66 | after `addChildren(c)`, the list is the old one with `c` at the back, `c`'s parent is unchanged, and a search for `c`'s name succeeds |
| Nodes.Find | framework/source/Node.cpp:83-98 | a search result is an arena node carrying the requested name |
| Nodes.FindAmong | framework/source/Node.cpp:85-95 | the scan over a child list returns only arena nodes with the requested name |
| Nodes.Walk | framework/source/Node.cpp:83-108 | the pre-order walk starts at the node at the given level, visits only arena nodes, and every later visit is deeper |
| Nodes.WalkAmong | framework/source/Node.cpp:105-107 | the walks of a child list visit only arena nodes at or below the given level |
| Nodes.Descendants | framework/source/Node.cpp:83-98 | the proper descendants, in search order, are arena nodes |
| NodeProperties.FirstNamedConcat | framework/source/Node.cpp:85-95 | the first match in two joined sequences comes from the first one if it has one |
| NodeProperties.FirstNamedIsEarliest | framework/source/Node.cpp:85-95 | the first match is absent iff no entry has the name; otherwise it has the name and no earlier entry does |
| NodeProperties.FindIsFirstInWalk | framework/source/Node.cpp:83-98 | `getChildren(name)` returns the first node with that name in the pre-order walk after the node itself |
| NodeProperties.FindAmongIsFirstInWalk | framework/source/Node.cpp:85-95 | scanning a child list, name first and then subtree, finds the first match of the walks of those children |
| NodeProperties.FindIsFirstDescendant | framework/source/Node.cpp:83-98 | the search returns nothing iff no descendant has the name, and otherwise the earliest such descendant |
| NodeProperties.WalkStaysBelow | framework/source/Node.cpp:83-108 | every node visited below a node has a finite subtree no higher than that node's |
| NodeProperties.WalkAmongStaysBelow | framework/source/Node.cpp:105-107 | every node visited below a child list lies below the bound of that list |
| NodeProperties.FindNeverSelf | framework/source/Node.cpp:83-98 | the search never returns the node it starts from |
| NodeProperties.WalkAmongSnoc | framework/source/Node.cpp:64-66 | a child appended at the back is walked after all earlier children |
| NodeProperties.RenderConcat | framework/source/Node.cpp:100-108 | rendering joined walks gives the joined renderings |
| NodeProperties.RenderAt | framework/source/Node.cpp:100-104 | rendering gives one line per visit, each the line of that visit's level and name |
| NodeProperties.PrintIsRenderedWalk | framework/source/Node.cpp:100-108 | `printChildren(level)` is the rendering of the pre-order walk |
| NodeProperties.PrintAmongIsRenderedWalk | framework/source/Node.cpp:105-107 | printing the children in list order renders their walks |
| NodeProperties.PrintFollowsWalk | framework/source/Node.cpp:100-108 | one line per node of the walk, the first for the node itself at `level`, each line that node's level and name, all later lines deeper |
| NodeProperties.LineShape | framework/source/Node.cpp:100-104 | a line below level 0 is `level` bars, then "- ", then the name |
| Nodes.RemoveAll | framework/source/Node.cpp:78 | `std::list::remove` drops every occurrence of the element and keeps every other element with its multiplicity |
| NodeProperties.RemoveAllAbsent | framework/source/Node.cpp:78 | removing an element that is not present leaves the list unchanged |
| NodeProperties.RemoveAllConcat | framework/source/Node.cpp:78 | removal distributes over joined lists, so order is kept |
| NodeProperties.UnlinkKeepsChains | framework/source/Node.cpp:76-78 | unlinking a child from a list changes no depth or path |
| NodeProperties.UnlinkKeepsFinite | framework/source/Node.cpp:76-78 | unlinking keeps every finite subtree finite |
| NodeProperties.RemovalOutcomes | framework/source/Node.cpp:68-81 | the three outcomes: not found gives nothing and no change; found without a parent is returned and nothing changes; found with a parent is returned and dropped from that parent's list only, every occurrence |
| NodeProperties.RemovalKeepsShape | framework/source/Node.cpp:68-81 | removal dangles no pointer and keeps every parent chain, depth, path and finite subtree |
| NodeProperties.RemovalOfLooseChildKeepsIt | framework/source/Node.cpp:72-80 | a found child whose parent pointer is null is returned but stays in the list, and the next search finds it again |
| NodeProperties.SameTreeHeightWithin | framework/source/Node.cpp:83-98 | the subtree bound depends only on names and child lists |
| NodeProperties.SameTreeHeight | framework/source/Node.cpp:83-98 | arenas with the same names and child lists have the same subtree heights |
| NodeProperties.SameTreeFind | framework/source/Node.cpp:83-98 | the search depends only on names and child lists, not on parents or transforms |
| NodeProperties.SameTreeFindAmong | framework/source/Node.cpp:85-95 | the same for the scan over a child list |
| NodeProperties.SetLocalThenGet | framework/source/Node.cpp:114-120 | after `setLocalTransform(m)`, `getLocalTransform` is `m`; the world transform, every other node, the depths, paths and searches are unchanged |
| NodeProperties.SetWorldThenGet | framework/source/Node.cpp:122-128 | after `setWorldTransform(m)`, `getWorldTransform` is `m`; the local transform, every other node, the depths, paths and searches are unchanged |
| NodeArena.Arena.constructor | framework/source/Node.cpp:6-24 | an empty arena satisfies the invariant |
| NodeArena.Arena.NewNode | framework/source/Node.cpp:8-15 | a fresh identity holds a parentless node with identity transforms, depth 0 and path "/" + name; the invariant is kept |
| NodeArena.Arena.NewChildNode | framework/source/Node.cpp:17-24 | a fresh node with the given parent, depth parent + 1 and path parent + "/" + name; the parent's child list is untouched |
| NodeArena.Arena.NewDefaultNode | framework/source/Node.cpp:6 | a fresh node with an empty name, no parent and no children; every other node is kept |
| NodeArena.Arena.AddChildren | framework/source/Node.cpp:64-66 | the child is appended at the back of the list and its parent is not changed; the invariant is kept |
| NodeArena.Arena.SetParent | framework/source/Node.cpp:54-62 | the arena becomes the reparented one; `getParent` returns the new parent; depth and path follow it; no child list changes |
| NodeArena.Arena.GetChildren | framework/source/Node.cpp:83-98 | the loop with early return, including the second recursive search before returning, computes `Find` |
| NodeArena.Arena.RemoveChildren | framework/source/Node.cpp:68-81 | the result is the search result and the new arena is the removal transition; the invariant is kept |
| NodeArena.Arena.SetLocalTransform | framework/source/Node.cpp:114-120 | only the local transform of the node changes |
| NodeArena.Arena.SetWorldTransform | framework/source/Node.cpp:122-128 | only the world transform of the node changes |
| SceneGraphs.SceneGraph.constructor | framework/include/SceneGraph.hpp:16 | the default graph has an empty name and no root |
| SceneGraphs.SceneGraph.Named | framework/source/SceneGraph.cpp:5-7 | the name is stored and the root is absent |
| SceneGraphs.SceneGraph.WithRoot | framework/source/SceneGraph.cpp:9-12 | the name and the root are stored as given, so `getRoot` returns that root |
| SceneGraphs.SceneGraph.SetName | framework/source/SceneGraph.cpp:22-24 | `getName` returns the new name and the root is unchanged |
| SceneGraphs.SceneGraph.SetRoot | framework/source/SceneGraph.cpp:26-28 | `getRoot` returns the new root and the name is unchanged |
| SceneGraphs.SceneGraph.PrintGraph | framework/source/SceneGraph.cpp:30-32 | requires a root; produces the root's printout at level 0, a line per walked node starting with ".- " + root name |
| Cameras.CameraNode.constructor | framework/source/CameraNode.cpp:8-9 | the node part is the one built by `Node()` |
| Cameras.CameraNode.WithFlags | framework/source/CameraNode.cpp:3-6 | as written: perspective is `isPerspective` and enabled is also `isPerspective` |
| Cameras.CameraNode.WithFlagsCorrected | framework/source/CameraNode.cpp:3-6 | as intended: perspective is `isPerspective` and enabled is `isEnabled` |
| Cameras.CameraNode.WithProjection | framework/source/CameraNode.cpp:11-15 | all three fields are stored as given on a `Node()` node part |
| Cameras.CameraNode.SetProjectionMatrix | framework/source/CameraNode.cpp:17-23 | `getProjectionMatrix` returns the matrix set; flags and node part unchanged |
| Cameras.CameraNode.SetEnabled | framework/source/CameraNode.cpp:25-31 | `getEnabled` returns the value set; other fields unchanged |
| Cameras.CameraNode.SetPerspective | framework/source/CameraNode.cpp:33-39 | `getPerspective` returns the value set; other fields unchanged |
| Cameras.EnabledArgumentIgnored | framework/source/CameraNode.cpp:3-6 | `CameraNode(false, true)` as written reports itself disabled |
| Cameras.EnabledArgumentKept | framework/source/CameraNode.cpp:3-6 | with the corrected constructor the same camera reports itself enabled |
| Cameras.CameraNodePath | framework/source/CameraNode.cpp:3-15 | the node part of every camera, placed in an arena, has depth 0 and path "/" |
| Scenario.BuildChain | framework/tests/tests.cpp:7-12 | after `ch1->setParent(root)`, ch3's path is "/root/ch1/ch2/ch3" and its depth 3 |
| Scenario.ChainedPath | framework/tests/tests.cpp:12 | on the rebuilt chain, ch3 has path "/root/ch1/ch2/ch3" and depth 3 |
| Scenario.LinkChain | framework/tests/tests.cpp:13-15 | the three `addChildren` calls give each node a one-element child list and change no parent |
| Scenario.SearchReachesCh3 | framework/tests/tests.cpp:16 | on the linked chain, the search from root for "ch3" finds ch3 |
| Scenario.SearchCh3 | framework/tests/tests.cpp:16 | `root->getChildren("ch3")->getName()` is "ch3" |
| Scenario.AddLeaves | framework/tests/tests.cpp:17-20 | ch12 and ch22 are new, and the child lists become [ch1, ch12] and [ch2, ch22] |
| Scenario.LeavesLinked | framework/tests/tests.cpp:17-20 | the two new nodes and the two pushes give exactly the linked scene |
| Scenario.PrintLeaf | framework/source/Node.cpp:100-108 | a childless node prints its own line only |
| Scenario.PrintOneChild | framework/source/Node.cpp:100-108 | a node with one child prints its line, then the child's printout one level deeper |
| Scenario.PrintTwoChildren | framework/source/Node.cpp:100-108 | a node with two children prints its line, then both printouts in list order |
| Scenario.BarLine | framework/source/Node.cpp:103-104 | a line below level 0 equals the string of that many bars, "- " and the name |
| Scenario.SceneFinite | framework/tests/tests.cpp:13-20 | every subtree of the linked scene is finite |
| Scenario.PrintedTwig | framework/tests/tests.cpp:21-22 | below ch2 the printout is "\|\|- ch2", "\|\|\|- ch3" |
| Scenario.PrintedBranch | framework/tests/tests.cpp:21-22 | below ch1 the printout is "\|- ch1", "\|\|- ch2", "\|\|\|- ch3", "\|\|- ch22" |
| Scenario.PrintedScene | framework/tests/tests.cpp:21-22 | the scene prints ".- root", "\|- ch1", "\|\|- ch2", "\|\|\|- ch3", "\|\|- ch22", "\|- ch12" |
| Scenario.TestsWalkThrough | framework/tests/tests.cpp:7-22 | the walk-through yields that path and depth, the found name "ch3" and that printout |
| Scenario.GeometryWalkThrough | framework/tests/tests.cpp:24-30 | geo1 is found through root, but its path is "/geo1", because `addChildren` sets no parent |

## Left out

- `shared_ptr` ownership and reference counting: nodes live in an arena for ever, and identities replace pointers.
- The `depth_` and `path_` fields are left out. The source assigns them in the constructors, `getDepth`, `getPath` and `setParent`, and reads them only right after assigning them (`getDepth` and `getPath` return the value they have just stored, framework/source/Node.cpp:38-39 and 49-50), so their contents are never observable.
- Output to `std::cout` in `printChildren`: the model returns the lines it would print.
- Matrix contents: `glm::mat4` is an opaque value. The identity matrix is a fixed sixteen-entry value, and no float arithmetic is modelled.
- NodeArena.Arena.NewDefaultNode: promises nothing about the transforms, because `Node()` at framework/source/Node.cpp:6 leaves them uninitialised.
- Cameras.CameraNode.constructor: promises nothing about the flags or the matrix. `CameraNode()` leaves them uninitialised, and `CameraNode(p, e)` leaves the matrix uninitialised.
- SceneGraphs.SceneGraph.PrintGraph: assumes that `root_->printChildren()` (framework/source/SceneGraph.cpp:31) prints at level 0. `printChildren` takes an `int level` (framework/source/Node.cpp:100), and no declaration shown gives it a default. The first line ".- " + root name, and the printout proved in module `Scenario`, rest on that reading.
- SceneGraphs.SceneGraph.PrintGraph: the `std::string` result is not modelled. The function falls off its end without a `return`, which is undefined behaviour, so only the printed lines and the need for a root are modelled.
- Nodes.Find: requires the whole subtree below the node to be acyclic (`Finite`). The source recurses without end only when its search reaches a cycle before it finds a match. Cyclic inputs on which it returns earlier are not modelled. For example, after `root->addChildren(x); root->addChildren(root)`, the call `root->getChildren("x")` returns x. The same holds for NodeArena.Arena.GetChildren and NodeArena.Arena.RemoveChildren.
- Nodes.PrintLines: has the same acyclic-subtree requirement. Here it is exact, because `printChildren` always recurses into every child and so never ends on a cycle.
- Nodes.PrintLines: the level is a natural number. A negative `int` level would make `std::string(level, '|')` throw; callers only pass 0 and levels above it.
- NodeArena.Arena.SetParent: requires the new parent to exist and to lie outside the node's subtree. A null parent is dereferenced, and a parent below the node makes `getDepth` recurse without end.
- SceneGraphs.SceneGraph.SetName and SceneGraphs.SceneGraph.SetRoot: `setName` and `setRoot` are `private` in framework/include/SceneGraph.hpp:7-13. The model has no access control, so they are plain methods.
- NodeArena.Arena.NewChildNode: requires the parent to exist, because the source dereferences it.
- Depths are unbounded integers. The source's `int` overflow would need a parent chain of 2^31 nodes.
- The header and the implementation disagree in three places, and the implementation is followed:
  - the header declares `getChildren()` with no argument and `getChildrenList` returning `std::list<Node>`;
  - the header does not declare `Node()`;
  - the header does not declare `printChildren`.
- `getParent`, `getName`, `getChildrenList` and the transform getters are plain reading functions over the arena, with no contract of their own. What they return after each change is stated by the methods' contracts.
- GeometryNode and PointLightNode are not modelled: their payloads are types from outside this model. The geometry node in the walk-through is modelled by its `Node(name)` part only.
- The application (application/source/application_solar.cpp) is not modelled: rendering, shaders, input and per-frame matrix arithmetic.

## Findings

| source | as written | input that shows it | evidently intended | confidence | as-written member | corrected member |
|---|---|---|---|---|---|---|
| framework/source/CameraNode.cpp:6 | `isEnabled_{isPerspective}` initialises the enabled flag from the perspective argument | `CameraNode(false, true)`: `getEnabled()` returns false | `isEnabled_{isEnabled}`, as in the three-argument constructor at line 14 | high; not executed | Cameras.EnabledArgumentIgnored | Cameras.EnabledArgumentKept |
