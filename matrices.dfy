/**
  The 4x4 transforms a node carries. The scene-graph operations only store
  and return them, so a matrix is an opaque value: its sixteen entries in
  column-major order, with no arithmetic defined on it.
 */
module Matrices {

  datatype Mat4 = Mat4(entries: seq<real>)

  /** `glm::mat4(1.0f)`: ones on the diagonal, zeros elsewhere. */
  const Identity: Mat4 := Mat4([1.0, 0.0, 0.0, 0.0,
                                0.0, 1.0, 0.0, 0.0,
                                0.0, 0.0, 1.0, 0.0,
                                0.0, 0.0, 0.0, 1.0])
}
