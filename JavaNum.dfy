/** Java's integer widths and the numeric operators whose semantics differ
    from Dafny's: `Math.round`, the `(int)` cast, truncating `/` and `%` on
    `int`, and `%` on `double` (fmod). Java `double` is modelled as `real`. */
module JavaNum {

  const TWO32: int := 0x1_0000_0000
  const TWO64: int := 0x1_0000_0000_0000_0000
  const INT_MIN: int := -0x8000_0000
  const INT_MAX: int := 0x7FFF_FFFF
  const LONG_MIN: int := -0x8000_0000_0000_0000
  const LONG_MAX: int := 0x7FFF_FFFF_FFFF_FFFF

  predicate IsInt(x: int) { INT_MIN <= x <= INT_MAX }
  predicate IsLong(x: int) { LONG_MIN <= x <= LONG_MAX }

  /** Two's-complement wrap-around of 32-bit `int` arithmetic (and of the `(int)` cast of a `long`). */
  function Wrap32(x: int): (r: int)
    ensures IsInt(r)
    ensures (r - x) % TWO32 == 0
    ensures IsInt(x) ==> r == x
  {
    var m := x % TWO32;
    if m > INT_MAX then m - TWO32 else m
  }

  /** Two's-complement wrap-around of 64-bit `long` arithmetic. */
  function Wrap64(x: int): (r: int)
    ensures IsLong(r)
    ensures (r - x) % TWO64 == 0
    ensures IsLong(x) ==> r == x
  {
    var m := x % TWO64;
    if m > LONG_MAX then m - TWO64 else m
  }

  /** Wrapping commutes with the ring operations: wrapping after every step of an
      accumulation gives the wrap of the exact value. */
  lemma Wrap32Congruent(a: int, b: int)
    requires (a - b) % TWO32 == 0
    ensures Wrap32(a) == Wrap32(b)
  {
    assert a % TWO32 == b % TWO32 by {
      var k := (a - b) / TWO32;
      assert a == b + k * TWO32;
    }
  }

  /** One step of a wrapping accumulation `acc * mul + d` may wrap the accumulator first. */
  lemma Wrap32Step(x: int, mul: int, d: int)
    ensures Wrap32(mul * Wrap32(x) + d) == Wrap32(mul * x + d)
  {
    var w := Wrap32(x);
    var k := (w - x) / TWO32;
    assert w - x == k * TWO32;
    assert (mul * w + d) - (mul * x + d) == (mul * k) * TWO32;
    Wrap32Congruent(mul * w + d, mul * x + d);
  }

  /** Negating may wrap the operand first. */
  lemma Wrap32Sign(x: int, negative: bool)
    ensures (if negative then Wrap32(-Wrap32(x)) else Wrap32(x)) == Wrap32(if negative then -x else x)
  {
    Wrap32Step(x, -1, 0);
  }

  function Floor(x: real): int { x.Floor }

  /** `Math.round(double)`: the closest long, ties towards positive infinity,
      saturated to the long range. */
  function MathRound(x: real): (r: int)
    ensures IsLong(r)
    ensures LONG_MIN as real <= x + 0.5 < LONG_MAX as real ==> r as real <= x + 0.5 < r as real + 1.0
  {
    var f := Floor(x + 0.5);
    if f < LONG_MIN then LONG_MIN else if f > LONG_MAX then LONG_MAX else f
  }

  /** `(int) Math.round(x)`, as `Basic.fRound` and the converters write it: the long
      result is narrowed to 32 bits. */
  function RoundToInt(x: real): (r: int)
    ensures IsInt(r)
  {
    Wrap32(MathRound(x))
  }

  /** Inside the int range rounding is exactly `Floor(x + 0.5)`. */
  lemma RoundToIntInRange(x: real, lo: int, hi: int)
    requires INT_MIN <= lo <= hi <= INT_MAX
    requires lo as real - 0.5 <= x < hi as real + 0.5
    ensures RoundToInt(x) == Floor(x + 0.5)
    ensures lo <= RoundToInt(x) <= hi
  {
  }

  /** Rounding is monotone. */
  lemma RoundToIntMonotone(x: real, y: real)
    requires INT_MIN as real <= x <= y < INT_MAX as real
    ensures RoundToInt(x) <= RoundToInt(y)
  {
  }

  /** Rounding a whole number gives it back. */
  lemma RoundToIntOfInt(n: int)
    requires IsInt(n)
    ensures RoundToInt(n as real) == n
  {
  }

  /** The real number truncated toward zero. */
  function Trunc(x: real): (r: int)
    ensures 0.0 <= x ==> r == Floor(x)
    ensures x < 0.0 ==> r == -Floor(-x)
  {
    if x >= 0.0 then Floor(x) else -Floor(-x)
  }

  /** The `(int)` cast of a double: truncation toward zero, saturated to the int range. */
  function TruncToInt(x: real): (r: int)
    ensures IsInt(r)
    ensures INT_MIN as real <= x <= INT_MAX as real ==> r == Trunc(x)
  {
    var t := Trunc(x);
    if t < INT_MIN then INT_MIN else if t > INT_MAX then INT_MAX else t
  }

  /** The `(long)` cast of a double: truncation toward zero, saturated to the long range. */
  function TruncToLong(x: real): (r: int)
    ensures IsLong(r)
    ensures LONG_MIN as real <= x <= LONG_MAX as real ==> r == Trunc(x)
  {
    var t := Trunc(x);
    if t < LONG_MIN then LONG_MIN else if t > LONG_MAX then LONG_MAX else t
  }

  /** Java's `/` on integers: the quotient truncated toward zero, wrapped to 32 bits. */
  function TruncDiv(a: int, b: int): (q: int)
    requires b != 0
  {
    var m := (if a < 0 then -a else a) / (if b < 0 then -b else b);
    Wrap32(if (a < 0) != (b < 0) then -m else m)
  }

  /** Java's `%` on integers: the remainder takes the sign of the dividend. */
  function JavaRem(a: int, b: int): (r: int)
    requires b != 0
    requires IsInt(a) && IsInt(b) && b != -1
  {
    a - b * TruncDiv(a, b)
  }

  /** On non-negative numerators truncating division is Dafny's Euclidean division. */
  lemma TruncDivNonNeg(a: int, b: int)
    requires 0 <= a <= INT_MAX && 0 < b
    ensures TruncDiv(a, b) == a / b
  {
    DivBound(a, b);
    var m := a / b;
    assert TruncDiv(a, b) == Wrap32(m);
  }

  lemma DivBound(a: int, b: int)
    requires 0 <= a && 0 < b
    ensures 0 <= a / b <= a
  {
    var m := a / b;
    assert m * b + a % b == a;
    assert 0 <= a % b;
    assert 0 <= m;
    MulNonNeg(m, b - 1);
    assert m * b - m == m * (b - 1);
  }

  lemma MulNonNeg(x: int, y: int)
    requires 0 <= x && 0 <= y
    ensures 0 <= x * y
  {
  }

  /** Quotient and remainder are the only pair with `0 <= r < d` that rebuilds `v`. */
  lemma DivModUnique(v: int, d: int, q: int, r: int)
    requires 0 < d && 0 <= r < d && v == q * d + r
    ensures v / d == q && v % d == r
  {
    var q0, r0 := v / d, v % d;
    assert v == q0 * d + r0;
    var k := q - q0;
    assert k * d == r0 - r by {
      assert q * d - q0 * d == (q - q0) * d;
    }
    if k >= 1 {
      assert k * d >= d by { assert k * d - d == (k - 1) * d; MulNonNeg(k - 1, d); }
      assert false;
    } else if k <= -1 {
      assert -k * d >= d by { assert -k * d - d == (-k - 1) * d; MulNonNeg(-k - 1, d); }
      assert false;
    }
  }

  /** `a / b` for `0 <= a <= b` is a unit fraction that rebuilds `a`. */
  lemma UnitShare(a: int, b: int)
    requires 0 <= a <= b && 0 < b
    ensures 0.0 <= a as real / b as real <= 1.0
    ensures (a as real / b as real) * b as real == a as real
    ensures a < b ==> a as real / b as real < 1.0
  {
    var q, br := a as real / b as real, b as real;
    assert q * br == a as real;
    if q < 0.0 { MulLt(q, 0.0, br); }
    if q > 1.0 { MulLt(1.0, q, br); }
    if a < b && q >= 1.0 { MulLe(1.0, q, br); }
  }

  /** Java's `%` on doubles (fmod): `x - m * q` with `q` the quotient truncated toward zero. */
  function Fmod(x: real, m: real): real
    requires m != 0.0
  {
    x - m * Trunc(x / m) as real
  }

  /** Multiplying by a positive number preserves strict order. */
  lemma MulLt(a: real, b: real, m: real)
    requires 0.0 < m && a < b
    ensures a * m < b * m
  {
    assert b * m - a * m == (b - a) * m;
  }

  /** Multiplying by a positive number preserves order. */
  lemma MulLe(a: real, b: real, m: real)
    requires 0.0 < m && a <= b
    ensures a * m <= b * m
  {
    assert b * m - a * m == (b - a) * m;
  }

  /** For a non-negative dividend and a positive modulus, fmod lands in `[0, m)`. */
  lemma FmodRange(x: real, m: real)
    requires 0.0 <= x && 0.0 < m
    ensures 0.0 <= Fmod(x, m) < m
    ensures x < m ==> Fmod(x, m) == x
  {
    var d := x / m;
    assert d * m == x;
    if d < 0.0 {
      MulLt(d, 0.0, m);
      assert false;
    }
    var q := Floor(d);
    var qr := q as real;
    assert Trunc(d) == q;
    assert Fmod(x, m) == x - qr * m;
    assert qr <= d < qr + 1.0;
    MulLe(qr, d, m);
    calc {
      qr * m;
    <=
      d * m;
    ==
      x;
    }
    MulLt(d, qr + 1.0, m);
    assert (qr + 1.0) * m == qr * m + m;
    calc {
      x;
    ==
      d * m;
    <
      qr * m + m;
    }
    if x < m && 1.0 <= d {
      MulLe(1.0, d, m);
      calc {
        m;
      ==
        1.0 * m;
      <=
        d * m;
      ==
        x;
      }
      assert false;
    }
  }
}
