/** Three-component vectors over the reals, standing in for glam's `Vec3` of `f32`.
    Only the operations the octree and the raycaster use are defined. */
module Geometry {

  datatype Vec3 = Vec3(x: real, y: real, z: real)

  const ZERO: Vec3 := Vec3(0.0, 0.0, 0.0)

  /** Component `i` (0 = x, 1 = y, 2 = z), as `v[i]` in glam. */
  function Get(v: Vec3, i: nat): real
    requires i < 3
  {
    if i == 0 then v.x else if i == 1 then v.y else v.z
  }

  function Abs(r: real): real
  {
    if r < 0.0 then -r else r
  }

  function Max(a: real, b: real): real
  {
    if a < b then b else a
  }

  function Add(a: Vec3, b: Vec3): Vec3
  {
    Vec3(a.x + b.x, a.y + b.y, a.z + b.z)
  }

  function Sub(a: Vec3, b: Vec3): Vec3
  {
    Vec3(a.x - b.x, a.y - b.y, a.z - b.z)
  }

  /** Component-wise product (glam's `Vec3 * Vec3`). */
  function Mul(a: Vec3, b: Vec3): Vec3
  {
    Vec3(a.x * b.x, a.y * b.y, a.z * b.z)
  }

  function Scale(s: real, v: Vec3): Vec3
  {
    Vec3(s * v.x, s * v.y, s * v.z)
  }

  function Dot(a: Vec3, b: Vec3): real
  {
    a.x * b.x + a.y * b.y + a.z * b.z
  }

  function Cross(a: Vec3, b: Vec3): Vec3
  {
    Vec3(a.y * b.z - a.z * b.y, a.z * b.x - a.x * b.z, a.x * b.y - a.y * b.x)
  }

  /** glam's `Vec3::distance_squared`. */
  function DistanceSquared(a: Vec3, b: Vec3): real
  {
    var d := Sub(a, b);
    Dot(d, d)
  }

  /** Largest per-axis distance (the Chebyshev distance). */
  function Chebyshev(a: Vec3, b: Vec3): real
  {
    Max(Abs(a.x - b.x), Max(Abs(a.y - b.y), Abs(a.z - b.z)))
  }

  lemma ChebyshevPositive(a: Vec3, b: Vec3)
    requires a != b
    ensures Chebyshev(a, b) > 0.0
  {
  }
}
