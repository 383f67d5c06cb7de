/** Machine integers, the f32-to-integer conversions of Rust, and the
    transcendental functions the renderer calls, all over unbounded
    `int` and `real`. */
module Numeric {

  const U8_LIMIT: int := 0x100
  const U32_LIMIT: int := 0x1_0000_0000
  const U32_MAX: int := 0xFFFF_FFFF

  type u8 = x: int | 0 <= x < 0x100
  type u32 = x: int | 0 <= x < 0x1_0000_0000

  /** Truncation toward zero (`f32::trunc`). */
  function Trunc(x: real): (t: int)
    ensures x >= 0.0 ==> 0 <= t && t as real <= x < t as real + 1.0
    ensures x < 0.0 ==> t <= 0 && t as real - 1.0 < x <= t as real
  {
    if x >= 0.0 then x.Floor else -((-x).Floor)
  }

  /** Rounding up (`f32::ceil`). */
  function Ceil(x: real): (c: int)
    ensures c as real - 1.0 < x <= c as real
  {
    -((-x).Floor)
  }

  /** Rounding to the nearest integer, halves away from zero (`f32::round`). */
  function Round(x: real): (n: int)
    ensures x >= 0.0 ==> 0 <= n && n as real - 0.5 <= x < n as real + 0.5
    ensures x < 0.0 ==> n <= 0 && n as real - 0.5 < x <= n as real + 0.5
  {
    if x >= 0.0 then (x + 0.5).Floor else -((-x + 0.5).Floor)
  }

  /** The fractional part `x - trunc(x)` (`f32::fract`); it keeps the sign of `x`. */
  function Fract(x: real): (f: real)
    ensures -1.0 < f < 1.0
    ensures x >= 0.0 ==> 0.0 <= f
    ensures x <= 0.0 ==> f <= 0.0
    ensures (x - f).Floor as real == x - f
  {
    x - Trunc(x) as real
  }

  /** Integer saturation to the `u32` range, the second half of an `as u32` cast. */
  function SaturateU32(i: int): (v: u32)
    ensures 0 <= i <= U32_MAX ==> v == i
    ensures i < 0 ==> v == 0
    ensures i > U32_MAX ==> v == U32_MAX
  {
    if i < 0 then 0 else if i > U32_MAX then U32_MAX else i
  }

  /** Rust's saturating float cast `x as u32`: truncate toward zero, then saturate. */
  function CastU32(x: real): (v: u32)
    ensures x < 1.0 ==> v == 0
    ensures x >= U32_LIMIT as real ==> v == U32_MAX
    ensures 0.0 <= x < U32_LIMIT as real ==> v as real <= x < v as real + 1.0
  {
    SaturateU32(Trunc(x))
  }

  /** Rust's saturating float cast `x as u8`. */
  function CastU8(x: real): (v: u8)
    ensures x < 1.0 ==> v == 0
    ensures 0.0 <= x < 256.0 ==> v == x.Floor
    ensures x >= 255.0 ==> v == 255
  {
    var t := Trunc(x);
    if t < 0 then 0 else if t > 255 then 255 else t
  }

  /** Clearing the lowest bit, `v & !1`, for a non-negative integer. */
  function ClearLowBit(v: nat): (e: nat)
    ensures e % 2 == 0
    ensures e <= v <= e + 1
  {
    v - v % 2
  }

  lemma NatProduct(a: int, b: int, d: int)
    requires a >= 0 && b >= 0 && d == a * b
    ensures d >= 0
  {
  }

  /** Multiplying by a row width: a later row starts at least one full row further on. */
  lemma {:induction false} MulStrictlyMonotone(a: nat, b: nat, w: nat)
    requires a < b
    ensures a * w + w <= b * w
    decreases b - a
  {
    if a + 1 < b {
      MulStrictlyMonotone(a + 1, b, w);
    }
    assert (a + 1) * w == a * w + w;
  }

  /** The transcendental functions and the constant pi, which the model
      leaves uninterpreted; lemmas state the laws they rely on. */
  datatype Math = Math(
    sin: real -> real,
    cos: real -> real,
    tan: real -> real,
    sqrt: real -> real,
    pi: real)

  /** sin^2 + cos^2 = 1 at every angle. */
  ghost predicate Pythagorean(m: Math) {
    forall t :: m.sin(t) * m.sin(t) + m.cos(t) * m.cos(t) == 1.0
  }

  /** sin 0 = 0 and cos 0 = 1. */
  ghost predicate ZeroAngle(m: Math) {
    m.sin(0.0) == 0.0 && m.cos(0.0) == 1.0
  }

  /** The square root of a non-negative number is its non-negative root. */
  ghost predicate SqrtLaw(m: Math) {
    forall x :: x >= 0.0 ==> m.sqrt(x) >= 0.0 && m.sqrt(x) * m.sqrt(x) == x
  }

  /** `d.to_radians()`. */
  function Radians(m: Math, d: real): real {
    d * m.pi / 180.0
  }
}

/** Sign facts about squares over the reals. Each lemma takes the square
    as a separate argument `d`, which keeps the solver's nonlinear
    reasoning local. */
module Squares {

  lemma SquareNonNegative(x: real, d: real)
    requires d == x * x
    ensures d >= 0.0
  {
  }

  lemma ProductPositive(x: real, y: real, d: real)
    requires d == x * y
    requires x > 0.0 && y > 0.0
    ensures d > 0.0
  {
  }

  lemma SquarePositive(x: real, d: real)
    requires d == x * x
    requires x != 0.0
    ensures d > 0.0
  {
    if x > 0.0 {
      ProductPositive(x, x, d);
    } else {
      ProductPositive(-x, -x, d);
    }
  }

  /** A sum of three squares is positive unless all three roots are zero. */
  lemma SumOfSquaresPositive(x: real, y: real, z: real, d: real)
    requires d == x * x + y * y + z * z
    requires x != 0.0 || y != 0.0 || z != 0.0
    ensures d > 0.0
  {
    var p, q, r := x * x, y * y, z * z;
    SquareNonNegative(x, p);
    SquareNonNegative(y, q);
    SquareNonNegative(z, r);
    if x != 0.0 {
      SquarePositive(x, p);
    } else if y != 0.0 {
      SquarePositive(y, q);
    } else {
      SquarePositive(z, r);
    }
    SumPositive(p, q, r, d);
  }

  lemma SumPositive(p: real, q: real, r: real, d: real)
    requires p >= 0.0 && q >= 0.0 && r >= 0.0
    requires p > 0.0 || q > 0.0 || r > 0.0
    requires d == p + q + r
    ensures d > 0.0
  {
  }
}
