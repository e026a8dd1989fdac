/** `colorpad.core.model.Hsb`: hue in degrees, saturation and brightness in percent. */
module HsbModel {
  import opened Wrappers
  import opened JavaText
  import opened Basic

  /** The three final double fields; nothing changes them after construction. */
  datatype Hsb = Hsb(h: real, s: real, b: real)

  /** The negation of `checkRange`'s failure test; both bounds are inclusive. */
  predicate InRange(h: real, s: real, b: real)
  {
    0.0 <= h <= 360.0 && 0.0 <= s <= 100.0 && 0.0 <= b <= 100.0
  }

  predicate Valid(c: Hsb)
  {
    InRange(c.h, c.s, c.b)
  }

  /** `Hsb.from`: the components, or ArgumentOutOfRangeException when one is out of range. */
  function From(h: real, s: real, b: real): (res: Result<Hsb>)
    ensures res.Ok? <==> InRange(h, s, b)
    ensures res.Ok? ==> res.value == Hsb(h, s, b) && Valid(res.value)
    ensures res.Err? ==> res.error == ArgumentOutOfRange
  {
    if !InRange(h, s, b) then Err(ArgumentOutOfRange) else Ok(Hsb(h, s, b))
  }

  /** `fromString`: exactly three comma-separated numbers, kept unrounded, then range-checked. */
  function FromString(color: JString): (res: Result<Hsb>)
    ensures res.Ok? ==> Valid(res.value)
    ensures |Extract(color)| != 3 ==> res == Err(IllegalArgument)
    ensures |Extract(color)| == 3 ==>
              var v := Extract(color);
              res == From(v[0], v[1], v[2])
  {
    FromThree(color, From)
  }

  /** Whole-number components written comma-separated (as `toString(",")` prints them
      when they have no fraction) parse back to the colour. */
  lemma FromStringOfInts(h: int, s: int, b: int)
    requires InRange(h as real, s as real, b as real)
    ensures FromString(Some(FormatInts([h, s, b], ","))) == Ok(Hsb(h as real, s as real, b as real))
  {
    ExtractFormatInts([h, s, b]);
  }

  /** `compareWith(h, s, b)`: every component within `PRECISION`. */
  predicate CompareWith(c: Hsb, h: real, s: real, b: real)
  {
    DecimalEquals(c.h, h) && DecimalEquals(c.s, s) && DecimalEquals(c.b, b)
  }

  /** `equals` on two Hsb objects: `compareWith` on the other's components. */
  predicate Equals(c: Hsb, o: Hsb)
  {
    CompareWith(c, o.h, o.s, o.b)
  }

  /** `equals` is reflexive and symmetric, and holds exactly when every component is closer
      than `PRECISION`. */
  lemma EqualsTolerance(c: Hsb, o: Hsb)
    ensures Equals(c, c)
    ensures Equals(c, o) <==> Equals(o, c)
    ensures Equals(c, o) <==> Abs(c.h - o.h) < PRECISION && Abs(c.s - o.s) < PRECISION && Abs(c.b - o.b) < PRECISION
  {
    DecimalEqualsReflexiveSymmetric(c.h, o.h);
    DecimalEqualsReflexiveSymmetric(c.s, o.s);
    DecimalEqualsReflexiveSymmetric(c.b, o.b);
  }

  /** ... but it is not transitive. */
  lemma EqualsNotTransitive()
    ensures Equals(Hsb(0.0, 0.0, 0.0), Hsb(0.0000006, 0.0, 0.0))
    ensures Equals(Hsb(0.0000006, 0.0, 0.0), Hsb(0.0000012, 0.0, 0.0))
    ensures !Equals(Hsb(0.0, 0.0, 0.0), Hsb(0.0000012, 0.0, 0.0))
  {
    DecimalEqualsNotTransitive();
    DecimalEqualsReflexiveSymmetric(0.0, 0.0);
  }
}
