/** Entity handles and world-space vectors shared by the gameplay modules. */
module World {
  /** An ECS entity handle. */
  type Entity = nat

  /** A world-space vector (`Vec3`); components are exact reals here. */
  datatype Vec3 = Vec3(x: real, y: real, z: real)

  const ZERO: Vec3 := Vec3(0.0, 0.0, 0.0)

  function DistSq(a: Vec3, b: Vec3): real {
    (a.x - b.x) * (a.x - b.x) + (a.y - b.y) * (a.y - b.y) + (a.z - b.z) * (a.z - b.z)
  }

  /**
   * `distance(a, b) <= range`, written without the square root: a
   * distance is never negative, so it is within `range` exactly when
   * `range` is not negative and the squared distance is within `range` squared.
   */
  predicate InRange(a: Vec3, b: Vec3, range: real) {
    0.0 <= range && DistSq(a, b) <= range * range
  }
}
