/** `colorpad.core.model.Lab`: CIE L*a*b* with lightness in 0..100 and a*, b* in -128..127. */
module LabModel {
  import opened Wrappers
  import opened JavaNum
  import opened JavaText
  import opened Basic

  /** The three final double fields. */
  datatype Lab = Lab(l: real, a: real, b: real)

  /** The negation of `checkRange`'s failure test. */
  predicate InRange(l: real, a: real, b: real)
  {
    0.0 <= l <= 100.0 && -128.0 <= a <= 127.0 && -128.0 <= b <= 127.0
  }

  predicate Valid(c: Lab)
  {
    InRange(c.l, c.a, c.b)
  }

  /** `Lab.from`: the components, or ArgumentOutOfRangeException when one is out of range. */
  function From(l: real, a: real, b: real): (res: Result<Lab>)
    ensures res.Ok? <==> InRange(l, a, b)
    ensures res.Ok? ==> res.value == Lab(l, a, b) && Valid(res.value)
    ensures res.Err? ==> res.error == ArgumentOutOfRange
  {
    if !InRange(l, a, b) then Err(ArgumentOutOfRange) else Ok(Lab(l, a, b))
  }

  /** `fromString`: exactly three comma-separated numbers, kept unrounded, then range-checked. */
  function FromString(color: JString): (res: Result<Lab>)
    ensures res.Ok? ==> Valid(res.value)
    ensures |Extract(color)| != 3 ==> res == Err(IllegalArgument)
    ensures |Extract(color)| == 3 ==>
              var v := Extract(color);
              res == From(v[0], v[1], v[2])
  {
    FromThree(color, From)
  }

  /** Whole-number components written comma-separated parse back to the colour. */
  lemma FromStringOfInts(l: int, a: int, b: int)
    requires InRange(l as real, a as real, b as real)
    ensures FromString(Some(FormatInts([l, a, b], ","))) == Ok(Lab(l as real, a as real, b as real))
  {
    ExtractFormatInts([l, a, b]);
  }

  /** `compareWith(l, a, b)`: every component within `PRECISION`. */
  predicate CompareWith(c: Lab, l: real, a: real, b: real)
  {
    DecimalEquals(c.l, l) && DecimalEquals(c.a, a) && DecimalEquals(c.b, b)
  }

  /** `equals` on two distinct Lab objects: `compareWith(o.l, o.a, o.l)`, which passes the
      other value's lightness where its b* belongs. (The same object is always equal to
      itself by the identity test that precedes it.) */
  predicate Equals(c: Lab, o: Lab)
  {
    CompareWith(c, o.l, o.a, o.l)
  }

  /** What `equals` actually tests: l* and a* within tolerance, and this b* against the
      other's lightness. So two separate objects with the same fields are equal only when
      their b* is within tolerance of their lightness, and genuinely equal colours can
      differ under `equals`. */
  lemma EqualsComparesWrongField(c: Lab, o: Lab)
    ensures Equals(c, o) <==> DecimalEquals(c.l, o.l) && DecimalEquals(c.a, o.a) && DecimalEquals(c.b, o.l)
    ensures Equals(c, c) <==> DecimalEquals(c.b, c.l)
  {
    DecimalEqualsReflexiveSymmetric(c.l, c.l);
    DecimalEqualsReflexiveSymmetric(c.a, c.a);
  }

  /** A witness: two copies of L*a*b*(50, 0, 0) are not `equals`, while (50, 0, 50) equals
      (50, 0, 0). */
  lemma EqualsCounterexample()
    ensures !Equals(Lab(50.0, 0.0, 0.0), Lab(50.0, 0.0, 0.0))
    ensures Equals(Lab(50.0, 0.0, 50.0), Lab(50.0, 0.0, 0.0))
  {
  }

  /** `hashCode`: `round(l) << 16 | round(a + 128) << 8 | round(b + 128)` in long arithmetic,
      narrowed to int. For valid components the three rounded values fit in one byte each,
      so the bitwise or is their weighted sum. */
  function HashCode(c: Lab): (h: int)
    requires Valid(c)
    ensures 0 <= h < 0x100_0000
  {
    RoundToIntInRange(c.l, 0, 100);
    RoundToIntInRange(c.a + 128.0, 0, 255);
    RoundToIntInRange(c.b + 128.0, 0, 255);
    MathRound(c.l) * 0x1_0000 + MathRound(c.a + 128.0) * 256 + MathRound(c.b + 128.0)
  }

  /** The hash holds the rounded lightness and the rounded, offset a* and b* as three bytes. */
  lemma HashCodeBytes(c: Lab)
    requires Valid(c)
    ensures HashCode(c) / 0x1_0000 == Floor(c.l + 0.5)
    ensures (HashCode(c) / 256) % 256 == Floor(c.a + 128.5)
    ensures HashCode(c) % 256 == Floor(c.b + 128.5)
  {
    RoundToIntInRange(c.l, 0, 100);
    RoundToIntInRange(c.a + 128.0, 0, 255);
    RoundToIntInRange(c.b + 128.0, 0, 255);
    var hi, mid, lo := MathRound(c.l), MathRound(c.a + 128.0), MathRound(c.b + 128.0);
    var h := HashCode(c);
    DivModUnique(h, 0x1_0000, hi, mid * 256 + lo);
    DivModUnique(h, 256, hi * 256 + mid, lo);
    DivModUnique(hi * 256 + mid, 256, hi, mid);
  }
}
