/**
 * Three-component vectors over the reals, standing in for the engine's
 * single-precision Vector3, and the one clamping helper the deformation
 * code uses (Mathf.Clamp).
 */
module Vectors {

  datatype Vec3 = Vec3(x: real, y: real, z: real)

  /** Component-wise difference `a - b`. */
  function Sub(a: Vec3, b: Vec3): Vec3 {
    Vec3(a.x - b.x, a.y - b.y, a.z - b.z)
  }

  /** Multiplication of a vector by a scalar, `a * k`. */
  function Scale(a: Vec3, k: real): Vec3 {
    Vec3(a.x * k, a.y * k, a.z * k)
  }

  /** Squared length (Vector3.sqrMagnitude): never negative. */
  function SqrMagnitude(a: Vec3): (r: real)
    ensures r >= 0.0
  {
    a.x * a.x + a.y * a.y + a.z * a.z
  }

  /**
   * Mathf.Clamp: below `min` gives `min`, otherwise above `max` gives `max`,
   * otherwise the value itself.
   */
  function Clamp(value: real, min: real, max: real): (r: real)
    ensures min <= max ==> min <= r <= max
    ensures min <= value <= max ==> r == value
    ensures value < min ==> r == min
    ensures min <= max < value ==> r == max
  {
    if value < min then min else if value > max then max else value
  }
}
