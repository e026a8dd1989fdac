/** `colorpad.core.Formula`: colour-harmony schemes, each a list of hues derived from one
    hue by turning it around the colour wheel. Java's `%` on doubles is `Fmod`. */
module Formula {
  import opened Wrappers
  import opened JavaNum
  import opened Basic
  import H = HsbModel

  /** `colorpad.core.FormulaType`. */
  datatype FormulaType = Monochromatic | Complementary | SplitComplementary | Analogous | Triadic | Tetradic

  /** A hue turned by `delta` degrees, as the schemes write it: `(hue + delta) % 360d`. */
  function Turn(hue: real, delta: real): real
  {
    Fmod(hue + delta, 360.0)
  }

  /** The default angles of the one-argument overloads. */
  const SPLIT_COMPLEMENTARY_ANGLE: real := 150.0
  const ANALOGOUS_ANGLE: real := 60.0
  const TETRADIC_ANGLE: real := 60.0

  /** `Monochromatic(hue)`: the hue alone. */
  function MonochromaticOf(hue: real): (r: seq<real>)
    ensures r == [hue]
  {
    [hue]
  }

  /** `Complementary(hue)`: the hue and the hue opposite it. */
  function ComplementaryOf(hue: real): (r: seq<real>)
    ensures |r| == 2 && r[0] == hue
  {
    [hue, Turn(hue, 180.0)]
  }

  /** `SplitComplementary(hue, angle)`: the hue and the two hues `angle` degrees away on
      either side. */
  function SplitComplementaryOf(hue: real, angle: real): (r: seq<real>)
    ensures |r| == 3 && r[0] == hue
  {
    [hue, Turn(hue, angle), Turn(hue, 360.0 - angle)]
  }

  /** `Analogous(hue, angle)`: the same shape as the split complement, with a smaller angle. */
  function AnalogousOf(hue: real, angle: real): (r: seq<real>)
    ensures |r| == 3 && r[0] == hue
  {
    [hue, Turn(hue, angle), Turn(hue, 360.0 - angle)]
  }

  /** `Triadic(hue)`: three hues a third of the wheel apart. */
  function TriadicOf(hue: real): (r: seq<real>)
    ensures |r| == 3 && r[0] == hue
  {
    [hue, Turn(hue, 120.0), Turn(hue, 240.0)]
  }

  /** `Tetradic(hue, angle)`: the hue, its turn by `angle`, and the opposites of both. */
  function TetradicOf(hue: real, angle: real): (r: seq<real>)
    ensures |r| == 4 && r[0] == hue
  {
    [hue, Turn(hue, angle), Turn(hue, 180.0), Turn(hue, 180.0 + angle)]
  }

  /** The angle `GetFormula` uses: the default when none is given, otherwise the given one
      clamped by `getFixRange`. */
  function AngleOf(angle: Option<real>, lower: real, upper: real, fallback: real): (a: real)
    requires lower <= fallback <= upper
    ensures lower <= a <= upper
    ensures angle.None? ==> a == fallback
    ensures angle.Some? && lower <= angle.value <= upper ==> a == angle.value
  {
    if angle.Some? then GetFixRangeReal(angle.value, lower, upper) else fallback
  }

  /** `GetFormula(hue, type, angle)`. A null type fails the switch with NullPointerException. */
  function GetFormula(hue: real, formulaType: Option<FormulaType>, angle: Option<real>): (r: Result<seq<real>>)
    ensures formulaType.None? <==> r == Err(NullPointer)
    ensures r.Ok? ==> |r.value| >= 1 && r.value[0] == hue
  {
    match formulaType
    case None => Err(NullPointer)
    case Some(t) =>
      match t
      case Monochromatic => Ok(MonochromaticOf(hue))
      case Complementary => Ok(ComplementaryOf(hue))
      case SplitComplementary =>
        Ok(SplitComplementaryOf(hue, AngleOf(angle, 90.0, 179.99, SPLIT_COMPLEMENTARY_ANGLE)))
      case Analogous => Ok(AnalogousOf(hue, AngleOf(angle, 1.0, 90.0, ANALOGOUS_ANGLE)))
      case Triadic => Ok(TriadicOf(hue))
      case Tetradic => Ok(TetradicOf(hue, AngleOf(angle, 1.0, 90.0, TETRADIC_ANGLE)))
  }

  /** The number of hues each scheme yields. */
  function SchemeSize(t: FormulaType): nat
  {
    match t
    case Monochromatic => 1
    case Complementary => 2
    case SplitComplementary => 3
    case Analogous => 3
    case Triadic => 3
    case Tetradic => 4
  }

  // -------------------------------------------------------------- lemmas

  /** A turn by a non-negative amount lands on the wheel `[0, 360)`. */
  lemma TurnRange(hue: real, delta: real)
    requires 0.0 <= hue + delta
    ensures 0.0 <= Turn(hue, delta) < 360.0
  {
    FmodRange(hue + delta, 360.0);
  }

  /** For a hue on `[0, 360]` every scheme has its documented size, starts with the hue
      itself (not reduced, so 360 stays 360), and every later hue lies in `[0, 360)`. */
  lemma GetFormulaRange(hue: real, t: FormulaType, angle: Option<real>)
    requires 0.0 <= hue <= 360.0
    ensures GetFormula(hue, Some(t), angle).Ok?
    ensures var r := GetFormula(hue, Some(t), angle).value;
      && |r| == SchemeSize(t) && r[0] == hue
      && forall i :: 1 <= i < |r| ==> 0.0 <= r[i] < 360.0
  {
    var r := GetFormula(hue, Some(t), angle).value;
    match t
    case Monochromatic =>
    case Complementary =>
      TurnRange(hue, 180.0);
    case SplitComplementary =>
      var a := AngleOf(angle, 90.0, 179.99, SPLIT_COMPLEMENTARY_ANGLE);
      TurnRange(hue, a);
      TurnRange(hue, 360.0 - a);
    case Analogous =>
      var a := AngleOf(angle, 1.0, 90.0, ANALOGOUS_ANGLE);
      TurnRange(hue, a);
      TurnRange(hue, 360.0 - a);
    case Triadic =>
      TurnRange(hue, 120.0);
      TurnRange(hue, 240.0);
    case Tetradic =>
      var a := AngleOf(angle, 1.0, 90.0, TETRADIC_ANGLE);
      TurnRange(hue, a);
      TurnRange(hue, 180.0);
      TurnRange(hue, 180.0 + a);
  }

  /** One full turn more is reduced away: `(x + 360) % 360 == x % 360` on `[0, 360)`. */
  lemma TurnWraps(x: real)
    requires 360.0 <= x < 720.0
    ensures Fmod(x, 360.0) == x - 360.0
  {
    var d := x / 360.0;
    assert d * 360.0 == x;
    if d < 1.0 {
      MulLt(d, 1.0, 360.0);
    }
    if d >= 2.0 {
      MulLe(2.0, d, 360.0);
    }
    assert Trunc(d) == 1;
  }

  /** The complement of the complement is the hue again, for any hue on `[0, 360)`. */
  lemma ComplementInvolutive(hue: real)
    requires 0.0 <= hue < 360.0
    ensures ComplementaryOf(ComplementaryOf(hue)[1])[1] == hue
  {
    var c := Turn(hue, 180.0);
    if hue + 180.0 < 360.0 {
      FmodRange(hue + 180.0, 360.0);
      TurnWraps(c + 180.0);
    } else {
      TurnWraps(hue + 180.0);
      FmodRange(c + 180.0, 360.0);
    }
  }

  /** The split complement is symmetric: the two side hues sum to twice the hue, modulo a
      full turn. */
  lemma SplitComplementarySymmetric(hue: real, angle: real)
    requires 0.0 <= hue < 360.0 && 0.0 < angle < 360.0
    ensures var r := SplitComplementaryOf(hue, angle);
      r[1] + r[2] in {2.0 * hue - 360.0, 2.0 * hue, 2.0 * hue + 360.0}
  {
    var r := SplitComplementaryOf(hue, angle);
    var x, y := hue + angle, hue + 360.0 - angle;
    TurnRange(hue, angle);
    TurnRange(hue, 360.0 - angle);
    var ka, kb := Trunc(x / 360.0), Trunc(y / 360.0);
    BelowTwoTurns(x);
    BelowTwoTurns(y);
    assert r[1] + r[2] == 2.0 * hue + 360.0 - 360.0 * (ka + kb) as real;
    assert ka + kb == 0 || ka + kb == 1 || ka + kb == 2;
  }

  /** A value on `[0, 720)` is at most one full turn. */
  lemma BelowTwoTurns(x: real)
    requires 0.0 <= x < 720.0
    ensures 0 <= Trunc(x / 360.0) <= 1
  {
    var d := x / 360.0;
    assert d * 360.0 == x;
    if d < 0.0 {
      MulLt(d, 0.0, 360.0);
    }
    if d >= 2.0 {
      MulLe(2.0, d, 360.0);
    }
  }

  // ---------------------------------------------------------- Hsb overload

  /** `Hsb.from(h, s, b)` for each hue in order; the stream stops at the first exception. */
  function HsbOfHues(hues: seq<real>, s: real, b: real): (r: Result<seq<H.Hsb>>)
    ensures r.Ok? <==> forall i :: 0 <= i < |hues| ==> H.InRange(hues[i], s, b)
    ensures r.Ok? ==> |r.value| == |hues| &&
                      forall i :: 0 <= i < |hues| ==> r.value[i] == H.Hsb(hues[i], s, b)
  {
    if hues == [] then Ok([])
    else match H.From(hues[0], s, b)
      case Err(e) => Err(e)
      case Ok(first) =>
        match HsbOfHues(hues[1..], s, b)
        case Err(e) => Err(e)
        case Ok(rest) => Ok([first] + rest)
  }

  /** `GetFormula(hsb, type, angle)`: one Hsb per computed hue, with the saturation and
      brightness of the input. A null hsb throws NullPointerException. */
  function GetFormulaHsb(hsb: Option<H.Hsb>, formulaType: Option<FormulaType>, angle: Option<real>)
    : (r: Result<seq<H.Hsb>>)
    ensures hsb.None? ==> r == Err(NullPointer)
  {
    match hsb
    case None => Err(NullPointer)
    case Some(c) =>
      match GetFormula(c.h, formulaType, angle)
      case Err(e) => Err(e)
      case Ok(hues) => HsbOfHues(hues, c.s, c.b)
  }

  /** For a valid Hsb the overload never throws: every hue is on the wheel, and each
      result differs from the input only in its hue. */
  lemma GetFormulaHsbTotal(c: H.Hsb, t: FormulaType, angle: Option<real>)
    requires H.Valid(c)
    ensures var r := GetFormulaHsb(Some(c), Some(t), angle);
      && r.Ok? && |r.value| == SchemeSize(t) && r.value[0] == c
      && forall i :: 0 <= i < |r.value| ==> r.value[i].s == c.s && r.value[i].b == c.b && H.Valid(r.value[i])
  {
    GetFormulaRange(c.h, t, angle);
  }
}
