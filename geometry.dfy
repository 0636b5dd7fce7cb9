/** Vector and colour values shared by the rasterizer model.
    Coordinates are exact reals: the model is about sign logic and algebraic
    identities, not about single-precision rounding. */
module Geometry {

  datatype Option<+T> = None | Some(value: T)

  datatype Vec2 = Vec2(x: real, y: real)
  datatype Vec3 = Vec3(x: real, y: real, z: real)
  datatype Vec4 = Vec4(x: real, y: real, z: real, w: real)

  /** ColorRGB: one real per channel, no clamping or quantisation. */
  datatype Rgb = Rgb(r: real, g: real, b: real)

  const Zero2: Vec2 := Vec2(0.0, 0.0)
  const Zero3: Vec3 := Vec3(0.0, 0.0, 0.0)
  const Black: Rgb := Rgb(0.0, 0.0, 0.0)
  const White: Rgb := Rgb(1.0, 1.0, 1.0)

  function XY(v: Vec4): Vec2 { Vec2(v.x, v.y) }
  function XYZ(v: Vec4): Vec3 { Vec3(v.x, v.y, v.z) }

  function Sub2(a: Vec2, b: Vec2): Vec2 { Vec2(a.x - b.x, a.y - b.y) }

  /** Vector2::Cross: the signed area of the parallelogram spanned by a and b. */
  function Cross2(a: Vec2, b: Vec2): real { a.x * b.y - a.y * b.x }

  function Add3(a: Vec3, b: Vec3): Vec3 { Vec3(a.x + b.x, a.y + b.y, a.z + b.z) }
  function Sub3(a: Vec3, b: Vec3): Vec3 { Vec3(a.x - b.x, a.y - b.y, a.z - b.z) }
  function Scale3(k: real, a: Vec3): Vec3 { Vec3(k * a.x, k * a.y, k * a.z) }
  function Dot3(a: Vec3, b: Vec3): real { a.x * b.x + a.y * b.y + a.z * b.z }
  function Cross3(a: Vec3, b: Vec3): Vec3
  {
    Vec3(a.y * b.z - a.z * b.y, a.z * b.x - a.x * b.z, a.x * b.y - a.y * b.x)
  }

  function AddRgb(a: Rgb, b: Rgb): Rgb { Rgb(a.r + b.r, a.g + b.g, a.b + b.b) }
  /** Channel-wise product, ColorRGB's operator*. */
  function MulRgb(a: Rgb, b: Rgb): Rgb { Rgb(a.r * b.r, a.g * b.g, a.b * b.b) }
  function Gray(c: real): Rgb { Rgb(c, c, c) }
}
