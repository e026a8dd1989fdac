/** `colorpad.core.converter.DefaultModelConverters`: the conversions between RGB and the
    HSB, HSL, CMYK and YCrCb models. Java doubles are exact reals here. */
module Converters {
  import opened Wrappers
  import opened JavaNum
  import opened Basic
  import R = RgbModel
  import C = CmykModel
  import Y = YCrCbModel
  import H = HsbModel
  import L = HslModel

  function Max(a: int, b: int): int { if a >= b then a else b }
  function Min(a: int, b: int): int { if a <= b then a else b }

  // ------------------------------------------------------------- YCrCb

  /** `RGB_TO_Y_CR_CB`: the full-range JFIF luma and chroma in int arithmetic with Java's
      truncating division; the chroma values are clamped into 0..255. (For channels of
      0..255 no intermediate leaves the int range.) */
  function RgbToYCrCb(c: R.Rgb): (res: Result<Y.YCrCb>)
    requires R.Valid(c)
  {
    var y := TruncDiv(c.r * 299 + c.g * 587 + c.b * 114 + 500, 1000);
    var cr := TruncDiv(500000 * c.r - 418688 * c.g - 81312 * c.b + 500000, 1000000) + 128;
    var cb := TruncDiv(-168736 * c.r - 331264 * c.g + 500000 * c.b + 500000, 1000000) + 128;
    Y.From(y, GetFixRange(cr, 0, 255), GetFixRange(cb, 0, 255))
  }

  /** `YCrCb.from` never throws here: the luma of valid channels lies in 0..255, and the
      luma is the rounded weighted mean of the channels. */
  lemma RgbToYCrCbTotal(c: R.Rgb)
    requires R.Valid(c)
    ensures RgbToYCrCb(c).Ok?
    ensures RgbToYCrCb(c).value.y == (c.r * 299 + c.g * 587 + c.b * 114 + 500) / 1000
  {
    var n := c.r * 299 + c.g * 587 + c.b * 114 + 500;
    assert 0 <= n <= 255500;
    TruncDivNonNeg(n, 1000);
  }

  /** A grey keeps its level as luma and has neutral chroma. */
  lemma RgbToYCrCbGrey(v: int)
    requires 0 <= v <= 255
    ensures RgbToYCrCb(R.Rgb(v, v, v)) == Ok(Y.YCrCb(v, 128, 128))
  {
    var n := v * 299 + v * 587 + v * 114 + 500;
    assert n == 1000 * v + 500;
    TruncDivNonNeg(n, 1000);
    DivModUnique(n, 1000, v, 500);
    assert 500000 * v - 418688 * v - 81312 * v + 500000 == 500000;
    assert -168736 * v - 331264 * v + 500000 * v + 500000 == 500000;
    TruncDivNonNeg(500000, 1000000);
  }

  /** Pure green shows the truncating division: its Cr numerator is negative and rounds
      toward zero, to 22 where flooring would give 21 (and Cb 45 instead of 44). */
  lemma RgbToYCrCbGreen()
    ensures RgbToYCrCb(R.Rgb(0, 255, 0)) == Ok(Y.YCrCb(150, 22, 45))
    ensures (500000 * 0 - 418688 * 255 - 81312 * 0 + 500000) / 1000000 + 128 == 21
  {
    TruncDivNonNeg(150185, 1000);
  }

  /** `Y_CR_CB_TO_RGB`: the inverse JFIF transform, each channel rounded half up and then
      clamped into 0..255. */
  function YCrCbToRgb(c: Y.YCrCb): (res: Result<R.Rgb>)
    ensures res.Ok?
  {
    var r := c.y as real + 1.402 * (c.cr - 128) as real;
    var g := c.y as real - 0.344136 * (c.cb - 128) as real - 0.714136 * (c.cr - 128) as real;
    var b := c.y as real + 1.772 * (c.cb - 128) as real;
    R.From(GetFixRange(FRound(r), 0, 255), GetFixRange(FRound(g), 0, 255), GetFixRange(FRound(b), 0, 255))
  }

  /** Neutral chroma converts back to the grey of the luma, so greys survive the round trip. */
  lemma YCrCbGreyRoundTrip(v: int)
    requires 0 <= v <= 255
    ensures YCrCbToRgb(Y.YCrCb(v, 128, 128)) == Ok(R.Rgb(v, v, v))
    ensures YCrCbToRgb(RgbToYCrCb(R.Rgb(v, v, v)).value) == Ok(R.Rgb(v, v, v))
  {
    RoundToIntOfInt(v);
    RgbToYCrCbGrey(v);
  }

  // -------------------------------------------------------------- CMYK

  /** `RGB_TO_CMYK`: the complements of the channels, with the smallest as key. Pure black
      (key 255) becomes (100, 100, 100, 100); otherwise each colour is its share of what the
      key leaves, in percent, and the key is converted to percent. */
  function RgbToCmyk(c: R.Rgb): (res: Result<C.Cmyk>)
  {
    var cc, m, y := 255 - c.r, 255 - c.g, 255 - c.b;
    var k := Min(Min(cc, m), y);
    if k == 255 then C.From(Percent(cc), Percent(m), Percent(y), 100)
    else C.From(Share(cc, k), Share(m, k), Share(y, k), Percent(k))
  }

  /** `fRound(x / 255d * 100)`. */
  function Percent(x: int): int
  {
    FRound(x as real / 255.0 * 100.0)
  }

  /** `fRound((x - k) / (double) (255 - k) * 100)`. */
  function Share(x: int, k: int): int
    requires k != 255
  {
    FRound((x - k) as real / (255 - k) as real * 100.0)
  }

  /** A channel value in percent is a percentage, exact at both ends. */
  lemma PercentInRange(x: int)
    requires 0 <= x <= 255
    ensures 0 <= Percent(x) <= 100
    ensures x == 0 ==> Percent(x) == 0
    ensures x == 255 ==> Percent(x) == 100
  {
    RoundToIntInRange(x as real / 255.0 * 100.0, 0, 100);
    if x == 0 {
      RoundToIntOfInt(0);
    }
    if x == 255 {
      assert x as real / 255.0 * 100.0 == 100.0;
      RoundToIntOfInt(100);
    }
  }

  /** The share of what the key leaves is a percentage; it is 0 for the component equal to
      the key. */
  lemma ShareInRange(x: int, k: int)
    requires 0 <= k <= x <= 255 && k < 255
    ensures 0 <= Share(x, k) <= 100
    ensures x == k ==> Share(x, k) == 0
  {
    UnitShare(x - k, 255 - k);
    RoundToIntInRange((x - k) as real / (255 - k) as real * 100.0, 0, 100);
    if x == k {
      RoundToIntOfInt(0);
    }
  }

  /** Black has full ink on every plate. */
  lemma RgbToCmykBlack()
    ensures RgbToCmyk(R.BLACK) == Ok(C.Cmyk(100, 100, 100, 100))
  {
    PercentInRange(255);
  }

  /** White converts to no ink at all. */
  lemma RgbToCmykWhite()
    ensures RgbToCmyk(R.WHITE) == Ok(C.Cmyk(0, 0, 0, 0))
  {
    ShareInRange(0, 0);
    PercentInRange(0);
  }

  /** `Cmyk.from` never throws here, and any colour other than black has at least one of
      c, m, y equal to 0. */
  lemma RgbToCmykTotal(c: R.Rgb)
    requires R.Valid(c)
    ensures RgbToCmyk(c).Ok?
    ensures c != R.BLACK ==>
              var v := RgbToCmyk(c).value;
              v.c == 0 || v.m == 0 || v.y == 0
  {
    var cc, m, y := 255 - c.r, 255 - c.g, 255 - c.b;
    var k := Min(Min(cc, m), y);
    if k == 255 {
      assert c == R.BLACK;
      RgbToCmykBlack();
    } else {
      ShareInRange(cc, k);
      ShareInRange(m, k);
      ShareInRange(y, k);
      PercentInRange(k);
    }
  }

  /** `CMYK_TO_RGB`: `round(225 * (100 - c) * (100 - k) / 10000)` per channel, with the
      products in wrapping int arithmetic. The constant is 225, not 255. */
  function CmykToRgb(v: C.Cmyk): (res: Result<R.Rgb>)
    requires IsInt(v.c) && IsInt(v.m) && IsInt(v.y) && IsInt(v.k)
  {
    R.From(CmykChannel(v.c, v.k), CmykChannel(v.m, v.k), CmykChannel(v.y, v.k))
  }

  /** One channel of `CMYK_TO_RGB`. */
  function CmykChannel(x: int, k: int): int
  {
    RoundToInt(CmykProduct(x, k) as real / 10000.0)
  }

  /** `225 * (100 - x) * (100 - k)` evaluated left to right in int arithmetic. */
  function CmykProduct(x: int, k: int): int
  {
    Wrap32(Wrap32(225 * Wrap32(100 - x)) * Wrap32(100 - k))
  }

  /** On percentages the product does not wrap. */
  lemma CmykProductRange(x: int, k: int)
    requires 0 <= x <= 100 && 0 <= k <= 100
    ensures CmykProduct(x, k) == 225 * (100 - x) * (100 - k)
    ensures 0 <= CmykProduct(x, k) <= 2250000
  {
    var a, b := 100 - x, 100 - k;
    assert 0 <= a * b <= 10000 by {
      MulNonNeg(a, b);
      MulNonNeg(100 - a, b);
      assert 100 * b - a * b == (100 - a) * b;
    }
    assert 225 * a * b == 225 * (a * b);
  }

  /** On percentages the channel lies in 0..225; a full key gives 0 and no ink gives 225. */
  lemma CmykChannelRange(x: int, k: int)
    requires 0 <= x <= 100 && 0 <= k <= 100
    ensures 0 <= CmykChannel(x, k) <= 225
    ensures CmykChannel(x, k) == Floor((225 * (100 - x) * (100 - k)) as real / 10000.0 + 0.5)
    ensures k == 100 ==> CmykChannel(x, k) == 0
    ensures x == 0 && k == 0 ==> CmykChannel(x, k) == 225
  {
    CmykProductRange(x, k);
    var p := CmykProduct(x, k);
    RoundToIntInRange(p as real / 10000.0, 0, 225);
    if x == 0 && k == 0 {
      assert p as real / 10000.0 + 0.5 == 225.5;
    }
  }

  /** Every valid CMYK value converts without error; no channel exceeds 225, so white is
      unreachable: (0, 0, 0, 0) gives (225, 225, 225), and a full key gives black. */
  lemma CmykToRgbTotal(v: C.Cmyk)
    requires C.Valid(v)
    ensures CmykToRgb(v).Ok?
    ensures CmykToRgb(v).value.r <= 225 && CmykToRgb(v).value.g <= 225 && CmykToRgb(v).value.b <= 225
    ensures v == C.Cmyk(0, 0, 0, 0) ==> CmykToRgb(v) == Ok(R.Rgb(225, 225, 225))
    ensures v.k == 100 ==> CmykToRgb(v) == Ok(R.BLACK)
  {
    CmykChannelRange(v.c, v.k);
    CmykChannelRange(v.m, v.k);
    CmykChannelRange(v.y, v.k);
  }

  /** White does not survive the CMYK round trip. */
  lemma CmykWhiteRoundTrip()
    ensures CmykToRgb(C.Cmyk(0, 0, 0, 0)) == Ok(R.Rgb(225, 225, 225))
    ensures CmykToRgb(RgbToCmyk(R.WHITE).value) != Ok(R.WHITE)
  {
    RgbToCmykWhite();
    CmykChannelRange(0, 0);
  }

  /** A value made by the unchecked public Cmyk constructor can make the conversion throw. */
  lemma CmykUncheckedOutOfRange()
    ensures CmykToRgb(C.New(-100, 0, 0, 0)) == Err(ArgumentOutOfRange)
  {
    assert CmykProduct(-100, 0) == 4500000;
    assert CmykChannel(-100, 0) == RoundToInt(450.0);
    RoundToIntOfInt(450);
  }

  // -------------------------------------------------------------- HSB

  function Max3(c: R.Rgb): int { Max(Max(c.r, c.g), c.b) }
  function Min3(c: R.Rgb): int { Min(Min(c.r, c.g), c.b) }

  /** The hue `RGB_TO_HSB` and `RGB_TO_HSL` both compute for a colour that is not grey:
      60 degrees per unit of the difference of the other two channels over the spread,
      measured from red (0), green (120) or blue (240), whichever channel is largest. */
  function Hue(c: R.Rgb): real
    requires Max3(c) != Min3(c)
  {
    var max, d := Max3(c), (Max3(c) - Min3(c)) as real;
    if max == c.r then
      var h := (60 * (c.g - c.b)) as real / d;
      if h < 0.0 then h + 360.0 else h
    else if max == c.g then 120.0 + (60 * (c.b - c.r)) as real / d
    else 240.0 + (60 * (c.r - c.g)) as real / d
  }

  /** `RGB_TO_HSB`: brightness is the largest channel, saturation the spread over it, the hue
      0 when the saturation is (within `PRECISION`) 0. */
  function RgbToHsb(c: R.Rgb): (res: Result<H.Hsb>)
  {
    var max, min := Max3(c), Min3(c);
    var v := max as real / 255.0;
    var s := Fraction(max - min, max);
    var h := if DecimalEquals(s, 0.0) then 0.0 else Hue(c);
    H.From(h, s * 100.0, v * 100.0)
  }

  /** `num / (double) den`, or 0 when `den` is 0. */
  function Fraction(num: int, den: int): real
  {
    if den != 0 then num as real / den as real else 0.0
  }

  /** `HSB_TO_RGB`: the hue is reduced modulo 360 with fmod, and its sector and the fraction
      of the sector travelled pick the channels. */
  function HsbToRgb(c: H.Hsb): (res: Result<R.Rgb>)
  {
    HueToRgb(Fmod(c.h, 360.0), c.s / 100.0, c.b / 100.0)
  }

  /** The conversion once the hue `h` is reduced and saturation `s` and brightness `v` are
      fractions: `h` picks a sector and the fraction of it travelled. */
  function HueToRgb(h: real, s: real, v: real): Result<R.Rgb>
  {
    var i := SectorIndexOf(h);
    SectorToRgb(i, h / 60.0 - i as real, s, v)
  }

  /** `((int) h / 60) % 6`. */
  function SectorIndexOf(h: real): int
  {
    JavaRem(TruncDiv(TruncToInt(h), 60), 6)
  }

  /** The channels of sector `i` at fraction `f` for saturation `s` and brightness `v`. */
  function SectorToRgb(i: int, f: real, s: real, v: real): Result<R.Rgb>
  {
    Scale255(SectorChannels(i, f, s, v))
  }

  /** `p`, `q` and `t` of `HSB_TO_RGB`, with `v`, arranged by the sector. */
  function SectorChannels(i: int, f: real, s: real, v: real): (real, real, real)
  {
    Sextant(i, v, v * (1.0 - s), v * (1.0 - f * s), v * (1.0 - (1.0 - f) * s))
  }

  /** The channel triple of the hexcone sector `i` (`HSB_TO_RGB`'s switch; 5 is the default). */
  function Sextant<T>(i: int, v: T, p: T, q: T, t: T): (T, T, T)
  {
    match i
    case 0 => (v, t, p)
    case 1 => (q, v, p)
    case 2 => (p, v, t)
    case 3 => (p, q, v)
    case 4 => (t, p, v)
    case _ => (v, p, q)
  }

  /** `Rgb.from((int) Math.round(r * 255), (int) Math.round(g * 255), (int) Math.round(b * 255))`. */
  function Scale255(t: (real, real, real)): Result<R.Rgb>
  {
    R.From(RoundToInt(t.0 * 255.0), RoundToInt(t.1 * 255.0), RoundToInt(t.2 * 255.0))
  }

  // Arithmetic facts behind the HSB proofs.

  /** For `0 <= num <= den` the fraction is a unit fraction that rebuilds `num`. */
  lemma FractionFacts(num: int, den: int)
    requires 0 <= num <= den
    ensures 0.0 <= Fraction(num, den) <= 1.0
    ensures Fraction(num, den) * den as real == num as real
    ensures num < den ==> Fraction(num, den) < 1.0
  {
    if den != 0 {
      UnitShare(num, den);
    }
  }

  /** A non-zero fraction of channel values is never within `PRECISION` of 0. */
  lemma FractionNotSmall(num: int, den: int)
    requires 0 < num <= den <= 255
    ensures !DecimalEquals(Fraction(num, den), 0.0)
  {
    var f := Fraction(num, den);
    UnitShare(num, den);
    NotSmall(f, den as real, num as real);
    assert Abs(f - 0.0) == f;
  }

  /** A non-negative factor that takes at most 255 to at least 1 is not below `PRECISION`. */
  lemma NotSmall(f: real, d: real, x: real)
    requires 0.0 <= f && 0.0 < d <= 255.0 && 1.0 <= x && f * d == x
    ensures PRECISION <= f
  {
    if f < PRECISION {
      MulLt(f, PRECISION, d);
      MulLe(d, 255.0, PRECISION);
      assert false;
    }
  }

  /** Two reals with the same product by a positive factor are equal. */
  lemma Cancel(a: real, b: real, m: real)
    requires 0.0 < m && a * m == b * m
    ensures a == b
  {
    if a < b {
      MulLt(a, b, m);
    } else if a > b {
      MulLt(b, a, m);
    }
  }

  /** The facts about `x / d` the hue proofs need. */
  lemma Ratio(x: int, d: int)
    requires 0 < d && -d <= x <= d
    ensures var f := x as real / d as real;
      -1.0 <= f <= 1.0 && f * d as real == x as real
      && (x == d ==> f == 1.0) && (0 <= x ==> 0.0 <= f) && (x < 0 ==> f < 0.0)
      && (60 * x) as real / d as real == 60.0 * f
  {
    var f := x as real / d as real;
    RatioBounds(f, x as real, d as real);
    RatioScale(x as real, d as real, 60.0);
    assert (60 * x) as real == 60.0 * x as real;
  }

  /** A quotient `f` of `x` by `d` with `|x| <= d` lies in `[-1, 1]` with the sign of `x`. */
  lemma RatioBounds(f: real, x: real, d: real)
    requires 0.0 < d && -d <= x <= d && f == x / d
    ensures f * d == x && -1.0 <= f <= 1.0
    ensures x == d ==> f == 1.0
    ensures 0.0 <= x ==> 0.0 <= f
    ensures x < 0.0 ==> f < 0.0
  {
    assert f * d == x;
    FactorBounds(f, x, d);
  }

  /** A factor `f` with `f * d == x` and `|x| <= d` lies in `[-1, 1]` with the sign of `x`. */
  lemma FactorBounds(f: real, x: real, d: real)
    requires 0.0 < d && -d <= x <= d && f * d == x
    ensures -1.0 <= f <= 1.0
    ensures x == d ==> f == 1.0
    ensures 0.0 <= x ==> 0.0 <= f
    ensures x < 0.0 ==> f < 0.0
  {
    if f < -1.0 { MulLt(f, -1.0, d); }
    if f > 1.0 { MulLt(1.0, f, d); }
    if x == d && f < 1.0 { MulLt(f, 1.0, d); }
    if 0.0 <= x && f < 0.0 { MulLt(f, 0.0, d); }
    if x < 0.0 && f >= 0.0 { MulLe(0.0, f, d); }
  }

  /** Scaling the numerator scales the quotient. */
  lemma RatioScale(x: real, d: real, a: real)
    requires 0.0 < d
    ensures (a * x) / d == a * (x / d)
  {
    var g, h := (a * x) / d, a * (x / d);
    assert g * d == a * x;
    assert h * d == a * ((x / d) * d);
    Cancel(g, h, d);
  }

  /** `(d + x) / d == 1 + x / d`. */
  lemma DivShift(x: int, d: int)
    requires 0 < d
    ensures (d + x) as real / d as real == 1.0 + x as real / d as real
  {
    var dr := d as real;
    var a, b := (d + x) as real / dr, 1.0 + x as real / dr;
    assert a * dr == (d + x) as real;
    assert (x as real / dr) * dr == x as real;
    assert b * dr == dr + (x as real / dr) * dr;
    Cancel(a, b, dr);
  }

  /** A product of unit fractions is a unit fraction no larger than either. */
  lemma UnitProduct(a: real, b: real)
    requires 0.0 <= a <= 1.0 && 0.0 <= b <= 1.0
    ensures 0.0 <= a * b <= a && a * b <= 1.0
  {
    MulLe(b, 1.0, if a == 0.0 then 1.0 else a);
  }

  /** Scaling a unit fraction by the complement of another stays a unit fraction. */
  lemma Shrink(v: real, x: real)
    requires 0.0 <= v <= 1.0 && 0.0 <= x <= 1.0
    ensures 0.0 <= v * (1.0 - x) <= v
  {
    UnitProduct(v, 1.0 - x);
  }

  // HSB_TO_RGB never throws on a valid value.

  /** The sector index of a hue in `[60 k, 60 (k + 1))`. */
  lemma SectorIndex(h: real, k: int)
    requires 0 <= k <= 5 && 60.0 * k as real <= h < 60.0 * (k + 1) as real
    ensures SectorIndexOf(h) == k
  {
    var n := Floor(h);
    assert TruncToInt(h) == n;
    assert 60 * k <= n < 60 * k + 60;
    TruncDivNonNeg(n, 60);
    DivModUnique(n, 60, k, n - 60 * k);
    TruncDivNonNeg(k, 6);
    DivModUnique(k, 6, 0, k);
  }

  /** A reduced hue in sector `k` is converted by that sector. */
  lemma HueToRgbAt(h: real, s: real, v: real, k: int)
    requires 0 <= k <= 5 && 60.0 * k as real <= h < 60.0 * (k + 1) as real
    ensures HueToRgb(h, s, v) == SectorToRgb(k, h / 60.0 - k as real, s, v)
  {
    SectorIndex(h, k);
  }

  /** The three candidate channels besides the brightness are unit fractions. */
  lemma Candidates(f: real, s: real, v: real)
    requires 0.0 <= f <= 1.0 && 0.0 <= s <= 1.0 && 0.0 <= v <= 1.0
    ensures 0.0 <= v * (1.0 - s) <= 1.0
    ensures 0.0 <= v * (1.0 - f * s) <= 1.0
    ensures 0.0 <= v * (1.0 - (1.0 - f) * s) <= 1.0
  {
    Shrink(v, s);
    UnitProduct(f, s);
    Shrink(v, f * s);
    UnitProduct(1.0 - f, s);
    Shrink(v, (1.0 - f) * s);
  }

  /** Each of the three picked channels is one of the four candidates. */
  lemma SextantBounds(i: int, v: real, p: real, q: real, t: real, lo: real, hi: real)
    requires lo <= v <= hi && lo <= p <= hi && lo <= q <= hi && lo <= t <= hi
    ensures var x := Sextant(i, v, p, q, t);
      lo <= x.0 <= hi && lo <= x.1 <= hi && lo <= x.2 <= hi
  {
  }

  /** Unit saturation, brightness and fraction give unit channels. */
  lemma SectorChannelsRange(i: int, f: real, s: real, v: real)
    requires 0.0 <= f <= 1.0 && 0.0 <= s <= 1.0 && 0.0 <= v <= 1.0
    ensures var x := SectorChannels(i, f, s, v);
      0.0 <= x.0 <= 1.0 && 0.0 <= x.1 <= 1.0 && 0.0 <= x.2 <= 1.0
  {
    var p, q, t := v * (1.0 - s), v * (1.0 - f * s), v * (1.0 - (1.0 - f) * s);
    Candidates(f, s, v);
    SextantBounds(i, v, p, q, t, 0.0, 1.0);
    assert SectorChannels(i, f, s, v) == Sextant(i, v, p, q, t);
  }

  /** Unit fractions scale to valid channels. */
  lemma Scale255Total(t: (real, real, real))
    requires 0.0 <= t.0 <= 1.0 && 0.0 <= t.1 <= 1.0 && 0.0 <= t.2 <= 1.0
    ensures Scale255(t).Ok?
  {
    RoundToIntInRange(t.0 * 255.0, 0, 255);
    RoundToIntInRange(t.1 * 255.0, 0, 255);
    RoundToIntInRange(t.2 * 255.0, 0, 255);
  }

  /** Unit saturation, brightness and fraction give channels in 0..255. */
  lemma SectorToRgbTotal(i: int, f: real, s: real, v: real)
    requires 0.0 <= f <= 1.0 && 0.0 <= s <= 1.0 && 0.0 <= v <= 1.0
    ensures SectorToRgb(i, f, s, v).Ok?
  {
    SectorChannelsRange(i, f, s, v);
    Scale255Total(SectorChannels(i, f, s, v));
  }

  /** Every valid HSB value converts without error. */
  lemma HsbToRgbTotal(c: H.Hsb)
    requires H.Valid(c)
    ensures HsbToRgb(c).Ok?
  {
    HueToRgbTotal(Fmod(c.h, 360.0), c.s / 100.0, c.b / 100.0) by {
      FmodRange(c.h, 360.0);
    }
  }

  /** With no saturation every sector's channels are the brightness alone, so the result
      is the grey whose level is the brightness scaled to 0..255, whatever the hue. */
  lemma HsbGreyEqualChannels(c: H.Hsb)
    requires H.Valid(c) && c.s == 0.0
    ensures HsbToRgb(c).Ok?
    ensures var v := HsbToRgb(c).value;
      v.r == v.g == v.b == RoundToInt(c.b / 100.0 * 255.0)
  {
    HsbToRgbTotal(c);
    var h := Fmod(c.h, 360.0);
    var i := SectorIndexOf(h);
    var v := c.b / 100.0;
    assert SectorChannels(i, h / 60.0 - i as real, 0.0, v) == (v, v, v);
  }

  /** A reduced hue with unit saturation and brightness converts without error. */
  lemma HueToRgbTotal(h: real, s: real, v: real)
    requires 0.0 <= h < 360.0 && 0.0 <= s <= 1.0 && 0.0 <= v <= 1.0
    ensures HueToRgb(h, s, v).Ok?
  {
    var k := Floor(h / 60.0);
    HueToRgbAt(h, s, v, k);
    SectorToRgbTotal(k, h / 60.0 - k as real, s, v);
  }

  // RGB_TO_HSB never throws.

  /** The hue lies in `[0, 360)`. */
  lemma HueRange(c: R.Rgb)
    requires Max3(c) != Min3(c)
    ensures 0.0 <= Hue(c) < 360.0
  {
    var d := Max3(c) - Min3(c);
    if Max3(c) == c.r {
      Ratio(c.g - c.b, d);
    } else if Max3(c) == c.g {
      Ratio(c.b - c.r, d);
    } else {
      Ratio(c.r - c.g, d);
    }
  }

  /** `Hsb.from` never throws here: the brightness is the largest channel in percent, the
      saturation the spread over it in percent, and the hue 0 exactly for greys. */
  lemma RgbToHsbTotal(c: R.Rgb)
    requires R.Valid(c)
    ensures RgbToHsb(c).Ok?
    ensures var max, d := Max3(c), Max3(c) - Min3(c);
      RgbToHsb(c).value == H.Hsb(if d == 0 then 0.0 else Hue(c), Fraction(d, max) * 100.0,
                                 max as real / 255.0 * 100.0)
  {
    var max, d := Max3(c), Max3(c) - Min3(c);
    FractionFacts(d, max);
    if d != 0 {
      HueRange(c);
      FractionNotSmall(d, max);
    } else {
      assert Fraction(d, max) == 0.0;
    }
  }

  // The round trip RGB -> HSB -> RGB. A colour lies in hue sector `k` at offset `n` out of
  // its spread `d` (largest minus smallest channel), and the sector's four candidates times
  // 255 are the integers `max`, `max - d`, `max - n` and `max - d + n`.

  /** The sector and offset of a colour's hue; greys are put at (0, 0). */
  function SectorOf(c: R.Rgb): (int, int)
  {
    var max, d := Max3(c), Max3(c) - Min3(c);
    if d == 0 then (0, 0)
    else if max == c.r then
      if c.g - c.b == d then (1, 0) else if c.g >= c.b then (0, c.g - c.b) else (5, d + c.g - c.b)
    else if max == c.g then
      if c.b - c.r == d then (3, 0) else if c.b >= c.r then (2, c.b - c.r) else (1, d + c.b - c.r)
    else
      if c.r >= c.g then (4, c.r - c.g) else (3, d + c.r - c.g)
  }

  /** The sector rebuilds the channels from the largest, the smallest and the offset. */
  lemma SectorOfChannels(c: R.Rgb)
    requires R.Valid(c)
    ensures var (k, n) := SectorOf(c);
      var max, d := Max3(c), Max3(c) - Min3(c);
      0 <= k <= 5 && 0 <= n <= d && (n < d || n == 0)
      && Sextant(k, max, max - d, max - n, max - d + n) == (c.r, c.g, c.b)
  {
  }

  /** The hue is 60 degrees per sector plus 60 times the offset over the spread. */
  lemma HueOfSector(c: R.Rgb)
    requires R.Valid(c) && Max3(c) != Min3(c)
    ensures var (k, n) := SectorOf(c);
      Hue(c) == 60.0 * k as real + 60.0 * Fraction(n, Max3(c) - Min3(c))
  {
    if Max3(c) == c.r {
      HueOfSectorRed(c);
    } else if Max3(c) == c.g {
      HueOfSectorGreen(c);
    } else {
      HueOfSectorBlue(c);
    }
  }

  lemma HueOfSectorRed(c: R.Rgb)
    requires R.Valid(c) && Max3(c) != Min3(c) && Max3(c) == c.r
    ensures var (k, n) := SectorOf(c);
      Hue(c) == 60.0 * k as real + 60.0 * Fraction(n, Max3(c) - Min3(c))
  {
    var d := Max3(c) - Min3(c);
    Ratio(c.g - c.b, d);
    DivShift(c.g - c.b, d);
  }

  lemma HueOfSectorGreen(c: R.Rgb)
    requires R.Valid(c) && Max3(c) != Min3(c) && Max3(c) != c.r && Max3(c) == c.g
    ensures var (k, n) := SectorOf(c);
      Hue(c) == 60.0 * k as real + 60.0 * Fraction(n, Max3(c) - Min3(c))
  {
    var d := Max3(c) - Min3(c);
    Ratio(c.b - c.r, d);
    DivShift(c.b - c.r, d);
  }

  lemma HueOfSectorBlue(c: R.Rgb)
    requires R.Valid(c) && Max3(c) != Min3(c) && Max3(c) != c.r && Max3(c) != c.g
    ensures var (k, n) := SectorOf(c);
      Hue(c) == 60.0 * k as real + 60.0 * Fraction(n, Max3(c) - Min3(c))
  {
    var d := Max3(c) - Min3(c);
    Ratio(c.r - c.g, d);
    DivShift(c.r - c.g, d);
  }

  /** What `RGB_TO_HSB` produces, in terms of the sector and offset of the hue. */
  lemma HsbOfRgb(c: R.Rgb)
    requires R.Valid(c)
    ensures var (k, n) := SectorOf(c);
      var max, d := Max3(c), Max3(c) - Min3(c);
      RgbToHsb(c) == Ok(H.Hsb(60.0 * k as real + 60.0 * Fraction(n, d), Fraction(d, max) * 100.0,
                              max as real / 255.0 * 100.0))
  {
    RgbToHsbTotal(c);
    if Max3(c) != Min3(c) {
      HueOfSector(c);
    }
  }

  /** Picking a sector commutes with scaling the four candidates to integers. */
  lemma SextantScale(i: int, v: real, p: real, q: real, t: real, a: real,
                     v': int, p': int, q': int, t': int)
    requires v * a == v' as real && p * a == p' as real && q * a == q' as real && t * a == t' as real
    ensures var x, y := Sextant(i, v, p, q, t), Sextant(i, v', p', q', t');
      x.0 * a == y.0 as real && x.1 * a == y.1 as real && x.2 * a == y.2 as real
  {
  }

  /** The candidates for brightness `max / 255`, saturation `d / max` and fraction `n / d`,
      times 255. */
  lemma ScaledCandidates(max: int, d: int, n: int, f: real, s: real, v: real)
    requires v * 255.0 == max as real && s * max as real == d as real && f * d as real == n as real
    ensures (v * (1.0 - s)) * 255.0 == (max - d) as real
    ensures (v * (1.0 - f * s)) * 255.0 == (max - n) as real
    ensures (v * (1.0 - (1.0 - f) * s)) * 255.0 == (max - d + n) as real
  {
    var mr := max as real;
    assert (v * (1.0 - s)) * 255.0 == mr - s * mr;
    assert (v * (1.0 - f * s)) * 255.0 == mr - f * (s * mr);
    assert (v * (1.0 - (1.0 - f) * s)) * 255.0 == mr - (s * mr) + f * (s * mr);
  }

  /** The sector's channels times 255 are the integer candidates the sector picks. */
  lemma ChannelsScaled(max: int, d: int, n: int, k: int, f: real, s: real, v: real)
    requires v * 255.0 == max as real && s * max as real == d as real && f * d as real == n as real
    ensures var x, y := SectorChannels(k, f, s, v), Sextant(k, max, max - d, max - n, max - d + n);
      x.0 * 255.0 == y.0 as real && x.1 * 255.0 == y.1 as real && x.2 * 255.0 == y.2 as real
  {
    ScaledCandidates(max, d, n, f, s, v);
    SextantScale(k, v, v * (1.0 - s), v * (1.0 - f * s), v * (1.0 - (1.0 - f) * s), 255.0,
                 max, max - d, max - n, max - d + n);
  }

  /** Channels that are 255 times the channels of a valid colour round to that colour. */
  lemma Scale255Of(x: (real, real, real), rgb: R.Rgb)
    requires R.Valid(rgb)
    requires x.0 * 255.0 == rgb.r as real && x.1 * 255.0 == rgb.g as real && x.2 * 255.0 == rgb.b as real
    ensures Scale255(x) == Ok(rgb)
  {
    RoundToIntOfInt(rgb.r);
    RoundToIntOfInt(rgb.g);
    RoundToIntOfInt(rgb.b);
  }

  /** The sector's channels for the saturation and brightness of `max` and `d`, when they
      are those of `rgb`. */
  lemma SectorScaled(max: int, d: int, n: int, k: int, rgb: R.Rgb)
    requires 0 <= n <= d <= max <= 255
    requires R.Valid(rgb) && Sextant(k, max, max - d, max - n, max - d + n) == (rgb.r, rgb.g, rgb.b)
    ensures SectorToRgb(k, Fraction(n, d), Fraction(d, max), max as real / 255.0) == Ok(rgb)
  {
    SectorChannelsScaled(max, d, n, k, rgb);
    Scale255Of(SectorChannels(k, Fraction(n, d), Fraction(d, max), max as real / 255.0), rgb);
  }

  /** The sector's channels for those fractions are the colour's channels over 255. */
  lemma SectorChannelsScaled(max: int, d: int, n: int, k: int, rgb: R.Rgb)
    requires 0 <= n <= d <= max <= 255
    requires Sextant(k, max, max - d, max - n, max - d + n) == (rgb.r, rgb.g, rgb.b)
    ensures var x := SectorChannels(k, Fraction(n, d), Fraction(d, max), max as real / 255.0);
      x.0 * 255.0 == rgb.r as real && x.1 * 255.0 == rgb.g as real && x.2 * 255.0 == rgb.b as real
  {
    FractionTimes(n, d);
    FractionTimes(d, max);
    ChannelsScaled(max, d, n, k, Fraction(n, d), Fraction(d, max), max as real / 255.0);
  }

  /** A fraction times its denominator is its numerator. */
  lemma FractionTimes(num: int, den: int)
    requires 0 <= num <= den
    ensures Fraction(num, den) * den as real == num as real
  {
    if den != 0 {
      assert (num as real / den as real) * den as real == num as real;
    }
  }

  /** The hue `60 k + 60 f` is in sector `k` at fraction `f`. */
  lemma HsbBackSector(k: int, f: real, s: real, v: real, c: H.Hsb)
    requires 0 <= k <= 5 && 0.0 <= f < 1.0
    requires c == H.Hsb(60.0 * k as real + 60.0 * f, s * 100.0, v * 100.0)
    ensures HsbToRgb(c) == SectorToRgb(k, f, s, v)
  {
    var h := 60.0 * k as real + 60.0 * f;
    assert 0.0 <= h < 360.0 by {
      assert 60.0 * k as real <= 300.0 && 60.0 * f < 60.0;
    }
    FmodRange(h, 360.0);
    assert c.s / 100.0 == s && c.b / 100.0 == v;
    HueBack(k, f, s, v, h);
  }

  /** The reduced hue `60 k + 60 f` is in sector `k` at fraction `f`. */
  lemma HueBack(k: int, f: real, s: real, v: real, h: real)
    requires 0 <= k <= 5 && 0.0 <= f < 1.0 && h == 60.0 * k as real + 60.0 * f
    ensures HueToRgb(h, s, v) == SectorToRgb(k, f, s, v)
  {
    SectorOffset(k, f, h);
    HueToRgbAt(h, s, v, k);
    SectorToRgbSame(k, h / 60.0 - k as real, f, s, s, v, v);
  }

  /** `SectorToRgb` at equal arguments. */
  lemma SectorToRgbSame(k: int, f: real, f': real, s: real, s': real, v: real, v': real)
    requires f == f' && s == s' && v == v'
    ensures SectorToRgb(k, f, s, v) == SectorToRgb(k, f', s', v')
  {
  }

  /** The hue `60 k + 60 f` lies in sector `k`, at fraction `f` of it. */
  lemma SectorOffset(k: int, f: real, h: real)
    requires 0.0 <= f < 1.0 && h == 60.0 * k as real + 60.0 * f
    ensures 60.0 * k as real <= h < 60.0 * (k + 1) as real && h / 60.0 - k as real == f
  {
  }

  /** What `RGB_TO_HSB` produces for a colour: its hue lies in sector `k` at fraction `f`,
      and the sector's channels for that saturation `s` and brightness `v` are the colour. */
  lemma HsbOfRgbSector(c: R.Rgb) returns (k: int, f: real, s: real, v: real)
    requires R.Valid(c)
    ensures 0 <= k <= 5 && 0.0 <= f < 1.0
    ensures RgbToHsb(c) == Ok(H.Hsb(60.0 * k as real + 60.0 * f, s * 100.0, v * 100.0))
    ensures SectorToRgb(k, f, s, v) == Ok(c)
  {
    SectorRebuilds(c);
    HsbOfRgb(c);
    var n, max, d := SectorOf(c).1, Max3(c), Max3(c) - Min3(c);
    k := SectorOf(c).0;
    f, s, v := Fraction(n, d), Fraction(d, max), max as real / 255.0;
  }

  /** The sector and offset of a colour, at its saturation and brightness, give back the
      colour, at a fraction of the sector below 1. */
  lemma SectorRebuilds(c: R.Rgb)
    requires R.Valid(c)
    ensures var k, n, max, d := SectorOf(c).0, SectorOf(c).1, Max3(c), Max3(c) - Min3(c);
      0 <= k <= 5 && 0.0 <= Fraction(n, d) < 1.0
      && SectorToRgb(k, Fraction(n, d), Fraction(d, max), max as real / 255.0) == Ok(c)
  {
    SectorOfChannels(c);
    var k, n, max, d := SectorOf(c).0, SectorOf(c).1, Max3(c), Max3(c) - Min3(c);
    SectorBack(max, d, n, k, c);
  }

  /** The sector `k` at offset `n` of spread `d` below `max`, when it rebuilds `rgb`: its
      fraction is below 1, and its channels round back to `rgb`. */
  lemma SectorBack(max: int, d: int, n: int, k: int, rgb: R.Rgb)
    requires 0 <= k <= 5 && 0 <= n <= d <= max <= 255 && (n < d || n == 0)
    requires R.Valid(rgb) && Sextant(k, max, max - d, max - n, max - d + n) == (rgb.r, rgb.g, rgb.b)
    ensures 0.0 <= Fraction(n, d) < 1.0
    ensures SectorToRgb(k, Fraction(n, d), Fraction(d, max), max as real / 255.0) == Ok(rgb)
  {
    FractionFacts(n, d);
    SectorScaled(max, d, n, k, rgb);
  }

  /** Over exact reals, converting to HSB and back gives the colour back. */
  lemma HsbRoundTrip(c: R.Rgb)
    requires R.Valid(c)
    ensures RgbToHsb(c).Ok? && HsbToRgb(RgbToHsb(c).value) == Ok(c)
  {
    var k, f, s, v := HsbOfRgbSector(c);
    HsbBackSector(k, f, s, v, RgbToHsb(c).value);
  }

  // -------------------------------------------------------------- HSL

  /** `RGB_TO_HSL`: lightness is the mean of the largest and smallest channel, saturation
      the spread over their sum (over its complement to 510 above half lightness), and the
      hue is the one `RGB_TO_HSB` computes. */
  function RgbToHsl(c: R.Rgb): (res: Result<L.Hsl>)
    requires R.Valid(c)
  {
    var max, min := Max3(c), Min3(c);
    var l := (max + min) as real / 255.0 / 2.0;
    var s :=
      if max == min || DecimalEquals(l, 0.0) then 0.0
      else if l <= 0.5 then (max - min) as real / (max + min) as real
      else (max - min) as real / (510 - (max + min)) as real;
    var h := if max == min then 0.0 else Hue(c);
    L.From(h, s * 100.0, l * 100.0)
  }

  /** The denominator of the HSL saturation: the sum of the extreme channels up to half
      lightness, its complement to 510 above. */
  function HslSpan(c: R.Rgb): int
  {
    var sum := Max3(c) + Min3(c);
    if sum <= 255 then sum else 510 - sum
  }

  /** `Hsl.from` never throws here: the hue is the HSB hue, the saturation the spread over
      `HslSpan` in percent (0 for greys), the lightness the mean of the extreme channels. */
  lemma RgbToHslTotal(c: R.Rgb)
    requires R.Valid(c)
    ensures RgbToHsl(c).Ok?
    ensures var v := RgbToHsl(c).value; var d := Max3(c) - Min3(c);
      && v.h == (if d == 0 then 0.0 else Hue(c))
      && v.s == Fraction(d, HslSpan(c)) * 100.0
      && v.l * 510.0 == (Max3(c) + Min3(c)) as real * 100.0
  {
    var max, min := Max3(c), Min3(c);
    var l := (max + min) as real / 255.0 / 2.0;
    var d := max - min;
    assert l <= 0.5 <==> max + min <= 255;
    if d != 0 {
      HueRange(c);
      assert !DecimalEquals(l, 0.0);
      FractionFacts(d, HslSpan(c));
    }
  }

  /** HSB and HSL agree on the hue of every colour. */
  lemma HslHueIsHsbHue(c: R.Rgb)
    requires R.Valid(c)
    ensures RgbToHsl(c).Ok? && RgbToHsb(c).Ok? && RgbToHsl(c).value.h == RgbToHsb(c).value.h
  {
    RgbToHslTotal(c);
    RgbToHsbTotal(c);
  }

  /** `q` of `HSL_TO_RGB`, a fraction from lightness and saturation in percent. */
  function HslQ(l: real, s: real): real
  {
    if l <= 50.0 then l * (100.0 + s) / 10000.0 else (l + s) / 100.0 - l * s / 10000.0
  }

  /** `p` of `HSL_TO_RGB`: twice the lightness as a fraction, less `q`. */
  function HslP(l: real, q: real): real
  {
    2.0 * l / 100.0 - q
  }

  /** The adjustment of a rounded hue by one turn, applied once. */
  function HueTurn(t: int): int
  {
    if t < 0 then t + 360 else if t > 360 then t - 360 else t
  }

  /** The channel fraction `HSL_TO_RGB` picks for the adjusted hue `t` (degrees). */
  function HslChannel(t: int, p: real, q: real): real
  {
    if t < 60 then p + (q - p) * (Wrap32(6 * t) as real / 360.0)
    else if t < 180 then q
    else if t < 240 then p + (q - p) * ((6 * (240 - t)) as real / 360.0)
    else p
  }

  /** What `HSL_TO_RGB` computes. Its loops stop one short of the array length, so only red
      and green are set, each from a hue a third of a turn apart, and blue stays 0. */
  function HslToRgbOf(c: L.Hsl): Result<R.Rgb>
  {
    if DecimalEquals(c.s, 0.0) then
      var v := RoundToInt(c.l * 255.0 / 100.0);
      R.From(v, v, 0)
    else
      var q := HslQ(c.l, c.s);
      var p := HslP(c.l, q);
      R.From(HslByte(RoundToInt(c.h + 120.0), p, q), HslByte(RoundToInt(c.h), p, q), 0)
  }

  /** The channel `HSL_TO_RGB` sets from the rounded hue `t`: adjusted by a turn, picked
      between `p` and `q`, scaled to 255 and rounded. */
  function HslByte(t: int, p: real, q: real): int
  {
    FRound(HslChannel(HueTurn(t), p, q) * 255.0)
  }

  /** The branch of `HSL_TO_RGB`'s loop body taken for `t` computes `HslChannel`. */
  lemma HslChannelIs(t: int, p: real, q: real, sv: real)
    requires t < 60 ==> sv == p + (q - p) * (Wrap32(6 * t) as real / 360.0)
    requires 60 <= t < 180 ==> sv == q
    requires 180 <= t < 240 ==> sv == p + (q - p) * ((6 * (240 - t)) as real / 360.0)
    requires 240 <= t ==> sv == p
    ensures sv == HslChannel(t, p, q)
  {
  }

  /** One pass of `HSL_TO_RGB`'s loop sets the channel `HslByte` describes. */
  lemma HslByteOf(raw: int, t: int, sv: real, p: real, q: real)
    requires t == HueTurn(raw) && sv == HslChannel(t, p, q)
    ensures FRound(sv * 255.0) == HslByte(raw, p, q)
  {
  }

  /** `HSL_TO_RGB`, over its three arrays as the source writes it. */
  method HslToRgb(c: L.Hsl) returns (res: Result<R.Rgb>)
    ensures res == HslToRgbOf(c)
  {
    var cRgb := new int[3](_ => 0);
    var tRgb := new int[3](_ => 0);
    var sRgb := new real[3](_ => 0.0);
    if DecimalEquals(c.s, 0.0) {
      var i := 0;
      while i < cRgb.Length - 1
        invariant 0 <= i <= cRgb.Length - 1
        invariant forall j :: 0 <= j < i ==> cRgb[j] == RoundToInt(c.l * 255.0 / 100.0)
        invariant cRgb[2] == 0
      {
        cRgb[i] := RoundToInt(c.l * 255.0 / 100.0);
        i := i + 1;
      }
    } else {
      var q := HslQ(c.l, c.s);
      var p := HslP(c.l, q);
      tRgb[0] := RoundToInt(c.h + 120.0);
      tRgb[1] := RoundToInt(c.h);
      tRgb[2] := RoundToInt(c.h - 120.0);
      FillChannels(cRgb, tRgb, sRgb, p, q);
    }
    res := R.From(cRgb[0], cRgb[1], cRgb[2]);
  }

  /** The loop of `HSL_TO_RGB` for a non-grey colour: it stops one short of the arrays'
      length, so it adjusts the hues of red and green by a turn and sets those two channels
      only. */
  method FillChannels(cRgb: array<int>, tRgb: array<int>, sRgb: array<real>, p: real, q: real)
    requires cRgb.Length == tRgb.Length == sRgb.Length == 3
    requires cRgb != tRgb
    modifies cRgb, tRgb, sRgb
    ensures cRgb[0] == HslByte(old(tRgb[0]), p, q) && cRgb[1] == HslByte(old(tRgb[1]), p, q)
    ensures cRgb[2] == old(cRgb[2])
  {
    ghost var raw := tRgb[..];
    var i := 0;
    while i < tRgb.Length - 1
      invariant 0 <= i <= tRgb.Length - 1
      invariant forall j :: i <= j < 3 ==> tRgb[j] == raw[j]
      invariant forall j :: 0 <= j < i ==> cRgb[j] == HslByte(raw[j], p, q)
      invariant cRgb[2] == old(cRgb[2])
    {
      ghost var r := tRgb[i];
      if tRgb[i] < 0 {
        tRgb[i] := tRgb[i] + 360;
      } else if tRgb[i] > 360 {
        tRgb[i] := tRgb[i] - 360;
      }
      var t := tRgb[i];
      var sv;
      if t < 60 {
        sv := p + (q - p) * (Wrap32(6 * t) as real / 360.0);
      } else if t < 180 {
        sv := q;
      } else if t < 240 {
        sv := p + (q - p) * ((6 * (240 - t)) as real / 360.0);
      } else {
        sv := p;
      }
      HslChannelIs(t, p, q, sv);
      HslByteOf(r, t, sv, p, q);
      sRgb[i] := sv;
      cRgb[i] := FRound(sv * 255.0);
      i := i + 1;
    }
  }

  // What HSL_TO_RGB promises for a valid value.

  /** For lightness and saturation in percent, `p` and `q` are fractions with `p <= q`. */
  lemma HslPQRange(l: real, s: real)
    requires 0.0 <= l <= 100.0 && 0.0 <= s <= 100.0
    ensures 0.0 <= HslP(l, HslQ(l, s)) <= HslQ(l, s) <= 1.0
  {
    var ls := l * s;
    ProductBounds(l, s);
    Distribute(l, 100.0, s);
    var q := HslQ(l, s);
    if l <= 50.0 {
      assert q == (100.0 * l + ls) / 10000.0;
    } else {
      assert q == (100.0 * l + 100.0 * s - ls) / 10000.0;
    }
  }

  /** The bounds on the product of two percentages the HSL proofs need. */
  lemma ProductBounds(l: real, s: real)
    requires 0.0 <= l <= 100.0 && 0.0 <= s <= 100.0
    ensures 0.0 <= l * s <= 100.0 * l && l * s <= 100.0 * s
    ensures 100.0 * l + 100.0 * s - 10000.0 <= l * s
  {
    MulLeNonNeg(s, 100.0, l);
    MulLeNonNeg(l, 100.0, s);
    MulLeNonNeg(0.0, s, l);
    ComplementsNonNeg(l, s);
  }

  /** The product of the complements to 100 of two percentages is not negative. */
  lemma ComplementsNonNeg(l: real, s: real)
    requires l <= 100.0 && s <= 100.0
    ensures 100.0 * l + 100.0 * s - 10000.0 <= l * s
  {
    MulLeNonNeg(0.0, 100.0 - s, 100.0 - l);
    Complements(l, s);
  }

  /** `a (b + c) == a b + a c`. */
  lemma Distribute(a: real, b: real, c: real)
    ensures a * (b + c) == a * b + a * c
  {
  }

  /** The product of the complements to 100 of two percentages. */
  lemma Complements(l: real, s: real)
    ensures (100.0 - s) * (100.0 - l) == 10000.0 - 100.0 * l - 100.0 * s + l * s
  {
  }

  /** Multiplying by a non-negative number preserves order. */
  lemma MulLeNonNeg(a: real, b: real, m: real)
    requires 0.0 <= m && a <= b
    ensures a * m <= b * m && m * a <= m * b
  {
    if m > 0.0 {
      MulLe(a, b, m);
    }
  }

  /** The picked fraction lies between `p` and `q` for every non-negative adjusted hue. */
  lemma HslChannelRange(t: int, p: real, q: real)
    requires 0 <= t && 0.0 <= p <= q <= 1.0
    ensures p <= HslChannel(t, p, q) <= q
  {
    if t < 60 {
      var w := Wrap32(6 * t) as real / 360.0;
      assert Wrap32(6 * t) == 6 * t;
      UnitWeight(p, q, w);
    } else if 180 <= t < 240 {
      UnitWeight(p, q, (6 * (240 - t)) as real / 360.0);
    }
  }

  /** `p + (q - p) w` for a weight `w` in `[0, 1]` lies between `p` and `q`. */
  lemma UnitWeight(p: real, q: real, w: real)
    requires p <= q && 0.0 <= w <= 1.0
    ensures p <= p + (q - p) * w <= q
  {
    MulLeNonNeg(w, 1.0, q - p);
    MulLeNonNeg(0.0, w, q - p);
  }

  /** A channel set from a non-negative adjusted hue is in 0..255. */
  lemma HslByteRange(t: int, p: real, q: real)
    requires 0 <= HueTurn(t) && 0.0 <= p <= q <= 1.0
    ensures 0 <= HslByte(t, p, q) <= 255
  {
    HslChannelRange(HueTurn(t), p, q);
    RoundToIntInRange(HslChannel(HueTurn(t), p, q) * 255.0, 0, 255);
  }

  /** Every valid HSL value converts without error; blue is always 0, and a grey (saturation
      within `PRECISION` of 0) gets red and green both the rounded lightness. */
  lemma HslToRgbTotal(c: L.Hsl)
    requires L.Valid(c)
    ensures HslToRgbOf(c).Ok? && HslToRgbOf(c).value.b == 0
    ensures DecimalEquals(c.s, 0.0) ==>
              var v := RoundToInt(c.l * 255.0 / 100.0);
              HslToRgbOf(c).value == R.Rgb(v, v, 0)
  {
    if DecimalEquals(c.s, 0.0) {
      RoundToIntInRange(c.l * 255.0 / 100.0, 0, 255);
    } else {
      HslPQRange(c.l, c.s);
      var q := HslQ(c.l, c.s);
      RoundToIntInRange(c.h + 120.0, 120, 480);
      RoundToIntInRange(c.h, 0, 360);
      HslByteRange(RoundToInt(c.h + 120.0), HslP(c.l, q), q);
      HslByteRange(RoundToInt(c.h), HslP(c.l, q), q);
    }
  }

  /** Pure blue goes to HSL and back to black: red and green are both `p`, which is 0 at full
      saturation, and blue is never set. */
  lemma HslLosesBlue()
    ensures RgbToHsl(R.Rgb(0, 0, 255)) == Ok(L.Hsl(240.0, 100.0, 50.0))
    ensures HslToRgbOf(L.Hsl(240.0, 100.0, 50.0)) == Ok(R.Rgb(0, 0, 0))
  {
    assert Hue(R.Rgb(0, 0, 255)) == 240.0;
    assert HslQ(50.0, 100.0) == 1.0 && HslP(50.0, 1.0) == 0.0;
    RoundToIntOfInt(360);
    RoundToIntOfInt(240);
    RoundToIntOfInt(0);
    assert HslByte(360, 0.0, 1.0) == 0 && HslByte(240, 0.0, 1.0) == 0;
  }

  /** Pure red survives the trip to HSL and back. */
  lemma HslKeepsRed()
    ensures RgbToHsl(R.Rgb(255, 0, 0)) == Ok(L.Hsl(0.0, 100.0, 50.0))
    ensures HslToRgbOf(L.Hsl(0.0, 100.0, 50.0)) == Ok(R.Rgb(255, 0, 0))
  {
    RoundToIntOfInt(120);
    RoundToIntOfInt(0);
    RoundToIntOfInt(255);
  }
}
