/** `colorpad.core.model.Grayscale`: one grey level of 0..255. */
module GrayscaleModel {
  import opened Wrappers
  import opened JavaText
  import opened Basic
  import RgbModel

  /** The single final int field. */
  datatype Grayscale = Grayscale(value: int)

  predicate Valid(g: Grayscale)
  {
    0 <= g.value <= 255
  }

  /** `Grayscale.from`: the level, or ArgumentOutOfRangeException outside 0..255. */
  function From(v: int): (res: Result<Grayscale>)
    ensures res.Ok? <==> 0 <= v <= 255
    ensures res.Ok? ==> res.value == Grayscale(v) && Valid(res.value)
    ensures res.Err? ==> res.error == ArgumentOutOfRange
  {
    if v < 0 || v > 255 then Err(ArgumentOutOfRange) else Ok(Grayscale(v))
  }

  /** `toRgb`: `Rgb.from(v, v, v)`; for a valid level this is the grey with all three channels equal. */
  function ToRgb(g: Grayscale): (res: Result<RgbModel.Rgb>)
    ensures Valid(g) <==> res.Ok?
    ensures res.Ok? ==> res.value == RgbModel.Rgb(g.value, g.value, g.value)
  {
    RgbModel.From(g.value, g.value, g.value)
  }

  /** `equals`: same class and same level. */
  predicate Equals(g: Grayscale, o: Grayscale)
  {
    g.value == o.value
  }

  /** `hashCode`: the level itself. */
  function HashCode(g: Grayscale): int
  {
    g.value
  }

  /** `equals` is value equality and agrees with equality of hashes. */
  lemma EqualsHashCode(g: Grayscale, o: Grayscale)
    ensures Equals(g, o) <==> g == o
    ensures Equals(g, o) <==> HashCode(g) == HashCode(o)
  {
  }

  /** `toString(separator)`: the level in decimal; the separator is not used. */
  function ToString(g: Grayscale, sep: string): (s: string)
    ensures s == FormatInts([g.value], sep)
  {
    IntToString(g.value)
  }

  /** `fromString`: exactly one number, rounded half up, then `from`. */
  function FromString(color: JString): (res: Result<Grayscale>)
    ensures res.Ok? ==> Valid(res.value)
    ensures |ExtractAsInt(color)| != 1 ==> res == Err(IllegalArgument)
    ensures |ExtractAsInt(color)| == 1 ==> res == From(ExtractAsInt(color)[0])
  {
    var cm := ExtractAsInt(color);
    if |cm| != 1 then Err(IllegalArgument) else From(cm[0])
  }

  /** The printed level, whatever separator was asked for, parses back to the value. */
  lemma FromStringToString(g: Grayscale, sep: string)
    requires Valid(g)
    ensures FromString(Some(ToString(g, sep))) == Ok(g)
  {
    ExtractAsIntFormatInts([g.value]);
    assert FormatInts([g.value], sep) == FormatInts([g.value], ",");
  }
}
