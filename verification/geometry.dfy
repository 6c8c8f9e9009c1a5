/** The glm vectors the game uses, over exact reals.  Distances are kept
    squared: `length(a - b) < k` is written `k > 0 && DistSq(a, b) < k * k`,
    which agrees with the original for every k. */
module Geometry {

  /** glm::vec2; the game stores world (x, z) in (x, y). */
  datatype Vec2 = Vec2(x: real, y: real)

  datatype Vec3 = Vec3(x: real, y: real, z: real)

  function Add2(a: Vec2, b: Vec2): Vec2 { Vec2(a.x + b.x, a.y + b.y) }

  function Sub2(a: Vec2, b: Vec2): Vec2 { Vec2(a.x - b.x, a.y - b.y) }

  function Add3(a: Vec3, b: Vec3): Vec3 { Vec3(a.x + b.x, a.y + b.y, a.z + b.z) }

  function Scale3(v: Vec3, k: real): Vec3 { Vec3(v.x * k, v.y * k, v.z * k) }

  function Sq(r: real): real { r * r }

  function DistSq2(a: Vec2, b: Vec2): real { Sq(a.x - b.x) + Sq(a.y - b.y) }

  function NormSq3(v: Vec3): real { Sq(v.x) + Sq(v.y) + Sq(v.z) }

  function DistSq3(a: Vec3, b: Vec3): real { Sq(a.x - b.x) + Sq(a.y - b.y) + Sq(a.z - b.z) }

  /** `length(a - b) < k` without the square root. */
  predicate Within2(a: Vec2, b: Vec2, k: real) { k > 0.0 && DistSq2(a, b) < k * k }

  predicate Within3(a: Vec3, b: Vec3, k: real) { k > 0.0 && DistSq3(a, b) < k * k }
}
