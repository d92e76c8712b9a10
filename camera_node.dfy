/**
  framework/source/CameraNode.cpp: a node that also records whether the
  camera is a perspective one, whether it is enabled, and its projection
  matrix. Every constructor builds its node part with `Node()`, which is
  kept here as the value `base`.
 */
module Cameras {
  import opened Matrices
  import opened Nodes
  import NodeProperties

  class CameraNode {
    var base: Node
    var perspective: bool
    var enabled: bool
    var projection: Mat4

    /** `CameraNode()`: only the node part is determined; the flags and the matrix are indeterminate. */
    constructor ()
      ensures DefaultBuilt(base)
    {
      base := Node("", Wrappers.None, [], Identity, Identity);
      perspective := false;
      enabled := false;
      projection := Identity;
    }

    /**
      `CameraNode(isPerspective, isEnabled)` as written: the enabled flag is
      initialised from `isPerspective`, so `isEnabled` is ignored. The
      projection matrix is indeterminate.
     */
    constructor WithFlags(isPerspective: bool, isEnabled: bool)
      ensures DefaultBuilt(base)
      ensures perspective == isPerspective && enabled == isPerspective
    {
      base := Node("", Wrappers.None, [], Identity, Identity);
      perspective := isPerspective;
      enabled := isPerspective;
      projection := Identity;
    }

    /** The same constructor with the enabled flag taken from `isEnabled`, as its name intends. */
    constructor WithFlagsCorrected(isPerspective: bool, isEnabled: bool)
      ensures DefaultBuilt(base)
      ensures perspective == isPerspective && enabled == isEnabled
    {
      base := Node("", Wrappers.None, [], Identity, Identity);
      perspective := isPerspective;
      enabled := isEnabled;
      projection := Identity;
    }

    /** `CameraNode(isPerspective, isEnabled, projectionMatrix)`: all three are stored. */
    constructor WithProjection(isPerspective: bool, isEnabled: bool, projectionMatrix: Mat4)
      ensures DefaultBuilt(base)
      ensures perspective == isPerspective && enabled == isEnabled && projection == projectionMatrix
    {
      base := Node("", Wrappers.None, [], Identity, Identity);
      perspective := isPerspective;
      enabled := isEnabled;
      projection := projectionMatrix;
    }

    function GetPerspective(): bool
      reads this
    {
      perspective
    }

    function GetEnabled(): bool
      reads this
    {
      enabled
    }

    function GetProjectionMatrix(): Mat4
      reads this
    {
      projection
    }

    /** `setPerspective`: only the perspective flag changes. */
    method SetPerspective(p: bool)
      modifies this
      ensures GetPerspective() == p
      ensures enabled == old(enabled) && projection == old(projection) && base == old(base)
    {
      perspective := p;
    }

    /** `setEnabled`: only the enabled flag changes. */
    method SetEnabled(e: bool)
      modifies this
      ensures GetEnabled() == e
      ensures perspective == old(perspective) && projection == old(projection) && base == old(base)
    {
      enabled := e;
    }

    /** `setProjectionMatrix`: only the projection matrix changes. */
    method SetProjectionMatrix(m: Mat4)
      modifies this
      ensures GetProjectionMatrix() == m
      ensures perspective == old(perspective) && enabled == old(enabled) && base == old(base)
    {
      projection := m;
    }
  }

  /** A camera built as perspective-off, enabled-on reports itself disabled. */
  method EnabledArgumentIgnored() returns (enabled: bool)
    ensures !enabled
  {
    var camera := new CameraNode.WithFlags(false, true);
    enabled := camera.GetEnabled();
  }

  /** With the corrected constructor the same camera reports itself enabled. */
  method EnabledArgumentKept() returns (enabled: bool)
    ensures enabled
  {
    var camera := new CameraNode.WithFlagsCorrected(false, true);
    enabled := camera.GetEnabled();
  }

  /**
    The node part of every camera is a parentless node with an empty name:
    placed in any arena it has depth 0 and path "/".
   */
  method CameraNodePath(g: Graph, id: NodeId, camera: CameraNode) returns (depth: nat, path: string)
    requires id in g && g[id] == camera.base && DefaultBuilt(camera.base)
    ensures depth == 0 && path == "/"
  {
    NodeProperties.DefaultBuiltIsRoot(g, id);
    depth, path := Depth(g, id), Path(g, id);
  }
}
