/** The two grey-level formulas, in both places the library defines them: the
    `IGrayscaleAlgorithm` implementations that fill the registry's grayscale slot
    (`colorpad.core.algorithm.grayscale`) and the `Rgb -> Grayscale` converters
    (`colorpad.core.converter.GraySpaceComponentAlgorithm` and `GrayAverageAlgorithm`). */
module GrayAlgorithms {
  import opened Wrappers
  import opened JavaNum
  import R = RgbModel
  import G = GrayscaleModel

  /** The implementations of `IGrayscaleAlgorithm` the library ships. */
  datatype GrayscaleAlgorithm = Component | Average

  /** The weighted sum `r * 299 + g * 587 + b * 114` in Java `int` arithmetic. */
  function WeightedSum(r: int, g: int, b: int): int
  {
    Wrap32(r * 299 + g * 587 + b * 114)
  }

  /** The sum `r + g + b` in Java `int` arithmetic. */
  function ChannelSum(r: int, g: int, b: int): int
  {
    Wrap32(r + g + b)
  }

  /** `GrayComponentAlgorithm.calc`: `(int) Math.round(weighted / 1000d)`, on raw ints. */
  function ComponentCalc(r: int, g: int, b: int): (v: int)
    ensures IsInt(v)
  {
    RoundToInt(WeightedSum(r, g, b) as real / 1000.0)
  }

  /** `GrayAverageAlgorithm.calc`: `(int) Math.round((r + g + b) / 3d)`, on raw ints. */
  function AverageCalc(r: int, g: int, b: int): (v: int)
    ensures IsInt(v)
  {
    RoundToInt(ChannelSum(r, g, b) as real / 3.0)
  }

  /** `calc(int, int, int)` dispatched on the implementation in use. */
  function Calc(alg: GrayscaleAlgorithm, r: int, g: int, b: int): int
  {
    match alg
    case Component => ComponentCalc(r, g, b)
    case Average => AverageCalc(r, g, b)
  }

  /** The interface's default `calc(Rgb)`: forwards the three channels unchanged. */
  function CalcRgb(alg: GrayscaleAlgorithm, c: R.Rgb): int
  {
    Calc(alg, c.r, c.g, c.b)
  }

  /** Any `IGrayscaleAlgorithm` a caller may put in the registry's slot: one the library
      ships, or one the caller supplies, told apart by a number. */
  datatype Implementation = Shipped(alg: GrayscaleAlgorithm) | Supplied(id: nat)

  /** What `calc(r, g, b)` of each caller-supplied implementation returns, by its number. */
  type SuppliedCalc = (nat, int, int, int) -> int

  /** `calc(Rgb)` of an implementation in the slot: the shipped formulas for the shipped
      implementations, the caller's own `calc(r, g, b)` for the others. */
  function ImplementationCalc(impl: Implementation, supplied: SuppliedCalc, c: R.Rgb): (v: int)
    ensures impl.Shipped? && R.Valid(c) ==> 0 <= v <= 255
    ensures impl.Supplied? ==> v == supplied(impl.id, c.r, c.g, c.b)
  {
    match impl
    case Shipped(a) =>
      if R.Valid(c) then
        ComponentCalcRange(c.r, c.g, c.b);
        AverageCalcRange(c.r, c.g, c.b);
        CalcRgb(a, c)
      else CalcRgb(a, c)
    case Supplied(n) => supplied(n, c.r, c.g, c.b)
  }

  /** `GraySpaceComponentAlgorithm.convert`: `Grayscale.from` of the weighted-luma level. */
  function SpaceComponentConvert(c: R.Rgb): (res: Result<G.Grayscale>)
    ensures res == G.From(CalcRgb(Component, c))
  {
    G.From(ComponentCalc(c.r, c.g, c.b))
  }

  /** The converter-package `GrayAverageAlgorithm.convert`: `Grayscale.from` of the mean level. */
  function AverageConvert(c: R.Rgb): (res: Result<G.Grayscale>)
    ensures res == G.From(CalcRgb(Average, c))
  {
    G.From(AverageCalc(c.r, c.g, c.b))
  }

  predicate Channels(r: int, g: int, b: int)
  {
    0 <= r <= 255 && 0 <= g <= 255 && 0 <= b <= 255
  }

  // ------------------------------------------------------------ component

  /** For channels in 0..255 the weighted level is the nearest integer to
      `(299r + 587g + 114b) / 1000` and lies in 0..255. */
  lemma ComponentCalcRange(r: int, g: int, b: int)
    requires Channels(r, g, b)
    ensures 0 <= ComponentCalc(r, g, b) <= 255
    ensures ComponentCalc(r, g, b) == Floor((r * 299 + g * 587 + b * 114) as real / 1000.0 + 0.5)
  {
    var w := r * 299 + g * 587 + b * 114;
    assert 0 <= w <= 255000;
    assert WeightedSum(r, g, b) == w;
    RoundToIntInRange(w as real / 1000.0, 0, 255);
  }

  /** The weights sum to 1000, so a grey `(v, v, v)` keeps its level (as long as
      `1000 * v` does not overflow an int). */
  lemma ComponentCalcGrey(v: int)
    requires IsInt(1000 * v)
    ensures ComponentCalc(v, v, v) == v
  {
    assert WeightedSum(v, v, v) == 1000 * v;
    assert (1000 * v) as real / 1000.0 == v as real;
    RoundToIntOfInt(v);
  }

  /** Raising any channel never lowers the weighted level. */
  lemma ComponentCalcMonotone(r: int, g: int, b: int, r2: int, g2: int, b2: int)
    requires Channels(r, g, b) && Channels(r2, g2, b2)
    requires r <= r2 && g <= g2 && b <= b2
    ensures ComponentCalc(r, g, b) <= ComponentCalc(r2, g2, b2)
  {
    var w, w2 := r * 299 + g * 587 + b * 114, r2 * 299 + g2 * 587 + b2 * 114;
    assert 0 <= w <= w2 <= 255000;
    assert WeightedSum(r, g, b) == w && WeightedSum(r2, g2, b2) == w2;
    RoundToIntMonotone(w as real / 1000.0, w2 as real / 1000.0);
  }

  // -------------------------------------------------------------- average

  /** For channels in 0..255 the mean level is the nearest integer to `(r + g + b) / 3`
      and lies in 0..255. */
  lemma AverageCalcRange(r: int, g: int, b: int)
    requires Channels(r, g, b)
    ensures 0 <= AverageCalc(r, g, b) <= 255
    ensures AverageCalc(r, g, b) == Floor((r + g + b) as real / 3.0 + 0.5)
  {
    assert ChannelSum(r, g, b) == r + g + b;
    RoundToIntInRange((r + g + b) as real / 3.0, 0, 255);
  }

  /** A grey `(v, v, v)` keeps its level (as long as `3 * v` does not overflow an int). */
  lemma AverageCalcGrey(v: int)
    requires IsInt(3 * v)
    ensures AverageCalc(v, v, v) == v
  {
    assert ChannelSum(v, v, v) == 3 * v;
    assert (3 * v) as real / 3.0 == v as real;
    RoundToIntOfInt(v);
  }

  /** The mean does not depend on the order of the channels. */
  lemma AverageCalcSymmetric(r: int, g: int, b: int)
    ensures AverageCalc(r, g, b) == AverageCalc(g, r, b) == AverageCalc(r, b, g)
    ensures AverageCalc(r, g, b) == AverageCalc(b, g, r)
  {
  }

  // ----------------------------------------------------------- converters

  /** On a valid Rgb neither converter throws: `Grayscale.from` always receives a level
      in 0..255, and it is the level the slot algorithm of the same name computes. */
  lemma ConvertersTotal(c: R.Rgb)
    requires R.Valid(c)
    ensures SpaceComponentConvert(c) == Ok(G.Grayscale(CalcRgb(Component, c)))
    ensures AverageConvert(c) == Ok(G.Grayscale(CalcRgb(Average, c)))
    ensures G.Valid(SpaceComponentConvert(c).value) && G.Valid(AverageConvert(c).value)
  {
    ComponentCalcRange(c.r, c.g, c.b);
    AverageCalcRange(c.r, c.g, c.b);
  }

  /** Both converters map a grey Rgb to its own level. */
  lemma ConvertersGrey(v: int)
    requires 0 <= v <= 255
    ensures SpaceComponentConvert(R.Rgb(v, v, v)) == Ok(G.Grayscale(v))
    ensures AverageConvert(R.Rgb(v, v, v)) == Ok(G.Grayscale(v))
  {
    ComponentCalcGrey(v);
    AverageCalcGrey(v);
  }

  /** Grey then back: `Grayscale.toRgb` of a converted grey Rgb is the same Rgb. */
  lemma GreyRoundTrip(v: int)
    requires 0 <= v <= 255
    ensures G.ToRgb(SpaceComponentConvert(R.Rgb(v, v, v)).value) == Ok(R.Rgb(v, v, v))
    ensures G.ToRgb(AverageConvert(R.Rgb(v, v, v)).value) == Ok(R.Rgb(v, v, v))
  {
    ConvertersGrey(v);
  }
}
