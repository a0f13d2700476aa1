/**
 * Vectors and the ray-march result returned by the compositor for one field.
 * Distances are modelled as exact reals in place of `f32`; NaN and infinities
 * are not represented.
 */
module Geometry {
  datatype Vec2 = Vec2(x: real, y: real)

  datatype Vec3 = Vec3(x: real, y: real, z: real)

  const Zero2: Vec2 := Vec2(0.0, 0.0)

  function Add2(a: Vec2, b: Vec2): Vec2 {
    Vec2(a.x + b.x, a.y + b.y)
  }

  /** `RayMarchResult`: where the ray started, where it pointed, how close it came to the
      field (`min_distance <= 0` means it touched or entered it) and how far along the
      ray the deepest point lies. */
  datatype RayMarch = RayMarch(
    rayOrigin: Vec3,
    rayDirection: Vec3,
    minDistance: real,
    deepestPointDistance: real)
}
