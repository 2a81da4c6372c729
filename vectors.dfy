/** Plane vectors and colours as the particle system uses them.
    The source works on 32-bit floats; here every component is a real,
    so rounding is not modelled. */
module Vectors {

  /** A 2D vector (System.Numerics.Vector2). */
  datatype Vec2 = Vec2(x: real, y: real)

  const Zero: Vec2 := Vec2(0.0, 0.0)

  /** One colour channel: a byte. */
  type Byte = b: int | 0 <= b < 256

  /** An RGBA colour (XNA Color); the all-zero default is transparent black. */
  datatype Color = Color(r: Byte, g: Byte, b: Byte, a: Byte)

  /** One vertex of the output buffer: a position and its colour. */
  datatype PositionColor = PositionColor(position: Vec2, color: Color)

  function Add(u: Vec2, v: Vec2): Vec2 { Vec2(u.x + v.x, u.y + v.y) }

  function Sub(u: Vec2, v: Vec2): Vec2 { Vec2(u.x - v.x, u.y - v.y) }

  /** Componentwise product, as Vector2 * Vector2. */
  function Mul(u: Vec2, v: Vec2): Vec2 { Vec2(u.x * v.x, u.y * v.y) }

  function Scaled(u: Vec2, k: real): Vec2 { Vec2(u.x * k, u.y * k) }

  /** A vector with both components equal, as new Vector2(k). */
  function Splat(k: real): Vec2 { Vec2(k, k) }

  function Abs(x: real): real { if x < 0.0 then -x else x }

  /** The C# cast (int)x of a non-NaN float: truncation toward zero. */
  function Truncate(x: real): (n: int)
    ensures Abs(x - n as real) < 1.0
    ensures 0.0 <= x ==> 0 <= n && n as real <= x
    ensures x <= 0.0 ==> n <= 0 && x <= n as real
  {
    if 0.0 <= x then x.Floor else -((-x).Floor)
  }
}
