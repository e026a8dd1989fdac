/** `colorpad.core.model.Hsl`: hue in degrees, saturation and lightness in percent. */
module HslModel {
  import opened Wrappers
  import opened JavaText
  import opened Basic

  /** The three final double fields; nothing changes them after construction. */
  datatype Hsl = Hsl(h: real, s: real, l: real)

  /** The negation of `checkRange`'s failure test; both bounds are inclusive. */
  predicate InRange(h: real, s: real, l: real)
  {
    0.0 <= h <= 360.0 && 0.0 <= s <= 100.0 && 0.0 <= l <= 100.0
  }

  predicate Valid(c: Hsl)
  {
    InRange(c.h, c.s, c.l)
  }

  /** `Hsl.from`: the components, or ArgumentOutOfRangeException when one is out of range. */
  function From(h: real, s: real, l: real): (res: Result<Hsl>)
    ensures res.Ok? <==> InRange(h, s, l)
    ensures res.Ok? ==> res.value == Hsl(h, s, l) && Valid(res.value)
    ensures res.Err? ==> res.error == ArgumentOutOfRange
  {
    if !InRange(h, s, l) then Err(ArgumentOutOfRange) else Ok(Hsl(h, s, l))
  }

  /** `fromString`: exactly three comma-separated numbers, kept unrounded, then range-checked. */
  function FromString(color: JString): (res: Result<Hsl>)
    ensures res.Ok? ==> Valid(res.value)
    ensures |Extract(color)| != 3 ==> res == Err(IllegalArgument)
    ensures |Extract(color)| == 3 ==>
              var v := Extract(color);
              res == From(v[0], v[1], v[2])
  {
    FromThree(color, From)
  }

  /** Whole-number components written comma-separated (as `toString(",")` prints them
      when they have no fraction) parse back to the colour. */
  lemma FromStringOfInts(h: int, s: int, l: int)
    requires InRange(h as real, s as real, l as real)
    ensures FromString(Some(FormatInts([h, s, l], ","))) == Ok(Hsl(h as real, s as real, l as real))
  {
    ExtractFormatInts([h, s, l]);
  }

  /** `compareWith(h, s, l)`: every component within `PRECISION`. */
  predicate CompareWith(c: Hsl, h: real, s: real, l: real)
  {
    DecimalEquals(c.h, h) && DecimalEquals(c.s, s) && DecimalEquals(c.l, l)
  }

  /** `equals` on two Hsl objects: `compareWith` on the other's components. */
  predicate Equals(c: Hsl, o: Hsl)
  {
    CompareWith(c, o.h, o.s, o.l)
  }

  /** `equals` is reflexive and symmetric, and holds exactly when every component is closer
      than `PRECISION`. */
  lemma EqualsTolerance(c: Hsl, o: Hsl)
    ensures Equals(c, c)
    ensures Equals(c, o) <==> Equals(o, c)
    ensures Equals(c, o) <==> Abs(c.h - o.h) < PRECISION && Abs(c.s - o.s) < PRECISION && Abs(c.l - o.l) < PRECISION
  {
    DecimalEqualsReflexiveSymmetric(c.h, o.h);
    DecimalEqualsReflexiveSymmetric(c.s, o.s);
    DecimalEqualsReflexiveSymmetric(c.l, o.l);
  }

  /** ... but it is not transitive. */
  lemma EqualsNotTransitive()
    ensures Equals(Hsl(0.0, 0.0, 0.0), Hsl(0.0000006, 0.0, 0.0))
    ensures Equals(Hsl(0.0000006, 0.0, 0.0), Hsl(0.0000012, 0.0, 0.0))
    ensures !Equals(Hsl(0.0, 0.0, 0.0), Hsl(0.0000012, 0.0, 0.0))
  {
    DecimalEqualsNotTransitive();
    DecimalEqualsReflexiveSymmetric(0.0, 0.0);
  }
}
