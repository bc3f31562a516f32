/** Three-component vectors over the reals, and the geometry the splines
    borrow from their host engine (vector length, normalisation and cubic
    Bezier evaluation), which this model leaves uninterpreted. */
module Vectors {

  datatype Vec3 = Vec3(x: real, y: real, z: real)

  const Zero := Vec3(0.0, 0.0, 0.0)
  /** The engine's `forward` axis (0, 0, 1). */
  const Forward := Vec3(0.0, 0.0, 1.0)
  /** The engine's `up` axis (0, 1, 0). */
  const Up := Vec3(0.0, 1.0, 0.0)

  function Add(a: Vec3, b: Vec3): Vec3 {
    Vec3(a.x + b.x, a.y + b.y, a.z + b.z)
  }

  function Sub(a: Vec3, b: Vec3): Vec3 {
    Vec3(a.x - b.x, a.y - b.y, a.z - b.z)
  }

  function Neg(a: Vec3): Vec3 {
    Vec3(-a.x, -a.y, -a.z)
  }

  /** Scalar multiple `k * a` (the engine's `float * Vector3`). */
  function Times(k: real, a: Vec3): Vec3 {
    Vec3(k * a.x, k * a.y, k * a.z)
  }

  /** Component-wise product, the engine's `Vector3.Scale`. */
  function CompMul(a: Vec3, s: Vec3): Vec3 {
    Vec3(a.x * s.x, a.y * s.y, a.z * s.z)
  }

  /** The engine's `Vector3` indexer: 0 is x, 1 is y, 2 is z. */
  function Component(a: Vec3, i: int): real
    requires 0 <= i < 3
  {
    if i == 0 then a.x else if i == 1 then a.y else a.z
  }

  /** Component `i` replaced by `r`. */
  function WithComponent(a: Vec3, i: int, r: real): Vec3
    requires 0 <= i < 3
  {
    if i == 0 then a.(x := r) else if i == 1 then a.(y := r) else a.(z := r)
  }

  /** Host-engine geometry that is not part of this model: vector length,
      `normalized`, and the cubic Bezier position and first derivative at a
      parameter in [0, 1] (anchor, handle, handle, anchor, t). */
  datatype Geometry = Geometry(
    magnitude: Vec3 -> real,
    normalized: Vec3 -> Vec3,
    bezierPoint: (Vec3, Vec3, Vec3, Vec3, real) -> Vec3,
    bezierDerivative: (Vec3, Vec3, Vec3, Vec3, real) -> Vec3)
  {
    /** The only fact assumed of the engine: a length is never negative. */
    ghost predicate Valid() {
      forall v :: magnitude(v) >= 0.0
    }
  }
}
