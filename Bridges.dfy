/** `colorpad.extend.NormalConvertBridge` and `colorpad.extend.ConvertBridge`: objects that
    hold one colour in every model, filled through the registry. */
module Bridges {
  import opened Wrappers
  import R = RgbModel
  import C = CmykModel
  import H = HsbModel
  import L = HslModel
  import B = LabModel
  import Y = YCrCbModel
  import G = GrayscaleModel
  import X = XyzModel
  import Conv = Converters
  import GA = GrayAlgorithms
  import opened Registry

  // ------------------------------------------------------------------ casts

  /** The cast the JVM inserts where a `convert` result is stored in a field of a model
      type: any other class fails with ClassCastException. */
  function AsRgb(r: Result<ColorValue>): (res: Result<RgbObject>)
    ensures res.Ok? <==> r.Ok? && r.value.RgbValue?
    ensures res.Ok? ==> r.value == RgbValue(res.value)
  {
    match r
    case Err(e) => Err(e)
    case Ok(v) => if v.RgbValue? then Ok(v.rgb) else Err(ClassCast)
  }

  function AsHsb(r: Result<ColorValue>): (res: Result<H.Hsb>)
    ensures res.Ok? <==> r.Ok? && r.value.HsbValue?
    ensures res.Ok? ==> r.value == HsbValue(res.value)
  {
    match r
    case Err(e) => Err(e)
    case Ok(v) => if v.HsbValue? then Ok(v.hsb) else Err(ClassCast)
  }

  function AsHsl(r: Result<ColorValue>): (res: Result<L.Hsl>)
    ensures res.Ok? <==> r.Ok? && r.value.HslValue?
    ensures res.Ok? ==> r.value == HslValue(res.value)
  {
    match r
    case Err(e) => Err(e)
    case Ok(v) => if v.HslValue? then Ok(v.hsl) else Err(ClassCast)
  }

  function AsCmyk(r: Result<ColorValue>): (res: Result<CmykObject>)
    ensures res.Ok? <==> r.Ok? && r.value.CmykValue?
    ensures res.Ok? ==> r.value == CmykValue(res.value)
  {
    match r
    case Err(e) => Err(e)
    case Ok(v) => if v.CmykValue? then Ok(v.cmyk) else Err(ClassCast)
  }

  function AsLab(r: Result<ColorValue>): (res: Result<B.Lab>)
    ensures res.Ok? <==> r.Ok? && r.value.LabValue?
    ensures res.Ok? ==> r.value == LabValue(res.value)
  {
    match r
    case Err(e) => Err(e)
    case Ok(v) => if v.LabValue? then Ok(v.lab) else Err(ClassCast)
  }

  function AsYCrCb(r: Result<ColorValue>): (res: Result<Y.YCrCb>)
    ensures res.Ok? <==> r.Ok? && r.value.YCrCbValue?
    ensures res.Ok? ==> r.value == YCrCbValue(res.value)
  {
    match r
    case Err(e) => Err(e)
    case Ok(v) => if v.YCrCbValue? then Ok(v.yCrCb) else Err(ClassCast)
  }

  function AsGrayscale(r: Result<ColorValue>): (res: Result<G.Grayscale>)
    ensures res.Ok? <==> r.Ok? && r.value.GrayscaleValue?
    ensures res.Ok? ==> r.value == GrayscaleValue(res.value)
  {
    match r
    case Err(e) => Err(e)
    case Ok(v) => if v.GrayscaleValue? then Ok(v.grayscale) else Err(ClassCast)
  }

  /** A field of type `Xyz` also accepts a `CieXyzD65`. */
  function AsXyz(r: Result<ColorValue>): (res: Result<X.Xyz>)
    ensures res.Ok? <==> r.Ok? && r.value.XyzValue?
    ensures res.Ok? ==> r.value == XyzValue(res.value)
  {
    match r
    case Err(e) => Err(e)
    case Ok(v) => if v.XyzValue? then Ok(v.xyz) else Err(ClassCast)
  }

  // ----------------------------------------------------------- the fields

  /** The eight fields of a `NormalConvertBridge`; `None` is null. */
  datatype Fields = Fields(rgb: Option<RgbObject>, hsb: Option<H.Hsb>, hsl: Option<L.Hsl>,
                           cmyk: Option<CmykObject>, xyz: Option<X.Xyz>, lab: Option<B.Lab>,
                           yCrCb: Option<Y.YCrCb>, grayscale: Option<G.Grayscale>)

  /** The fields before the constructor body runs: all null. */
  const Unset := Fields(None, None, None, None, None, None, None, None)

  predicate AllSet(f: Fields)
  {
    f.rgb.Some? && f.hsb.Some? && f.hsl.Some? && f.cmyk.Some? && f.xyz.Some? && f.lab.Some? &&
    f.yCrCb.Some? && f.grayscale.Some?
  }

  /** `g` keeps every field `f` had already set. */
  predicate KeepsSet(f: Fields, g: Fields)
  {
    (f.rgb.Some? ==> g.rgb == f.rgb) && (f.hsb.Some? ==> g.hsb == f.hsb) &&
    (f.hsl.Some? ==> g.hsl == f.hsl) && (f.cmyk.Some? ==> g.cmyk == f.cmyk) &&
    (f.xyz.Some? ==> g.xyz == f.xyz) && (f.lab.Some? ==> g.lab == f.lab) &&
    (f.yCrCb.Some? ==> g.yCrCb == f.yCrCb) && (f.grayscale.Some? ==> g.grayscale == f.grayscale)
  }

  /** The object a field refers to, as an argument of `convert`. */
  function RgbSource(f: Fields): Option<ColorValue>
  {
    if f.rgb.Some? then Some(RgbValue(f.rgb.value)) else None
  }

  function XyzSource(f: Fields): Option<ColorValue>
  {
    if f.xyz.Some? then Some(XyzValue(f.xyz.value)) else None
  }

  /** `ModelsManager.convert(source, target)` on a possibly null source. */
  function ConvertFrom(table: Table, source: Option<ColorValue>, target: Kind, foreign: ForeignConverters)
    : (r: Result<ColorValue>)
    ensures source.None? ==> r == Err(NullPointer)
  {
    if source.None? then Err(NullPointer) else ConvertOf(table, source.value, target, foreign)
  }

  // ------------------------------------------- InitConvertPossibleField steps

  /** `if (hsb == null) hsb = convert(rgb, Hsb.class)`. */
  function FillHsb(f: Fields, table: Table, foreign: ForeignConverters): (r: Result<Fields>)
    ensures f.hsb.Some? ==> r == Ok(f)
    ensures r.Ok? ==> r.value.hsb.Some? && r.value == f.(hsb := r.value.hsb)
    ensures r.Ok? && f.hsb.None? ==>
              ConvertFrom(table, RgbSource(f), Hsb, foreign) == Ok(HsbValue(r.value.hsb.value))
  {
    if f.hsb.Some? then Ok(f)
    else match AsHsb(ConvertFrom(table, RgbSource(f), Hsb, foreign))
      case Err(e) => Err(e)
      case Ok(v) => Ok(f.(hsb := Some(v)))
  }

  /** `if (hsl == null) hsl = convert(rgb, Hsl.class)`. */
  function FillHsl(f: Fields, table: Table, foreign: ForeignConverters): (r: Result<Fields>)
    ensures f.hsl.Some? ==> r == Ok(f)
    ensures r.Ok? ==> r.value.hsl.Some? && r.value == f.(hsl := r.value.hsl)
    ensures r.Ok? && f.hsl.None? ==>
              ConvertFrom(table, RgbSource(f), Hsl, foreign) == Ok(HslValue(r.value.hsl.value))
  {
    if f.hsl.Some? then Ok(f)
    else match AsHsl(ConvertFrom(table, RgbSource(f), Hsl, foreign))
      case Err(e) => Err(e)
      case Ok(v) => Ok(f.(hsl := Some(v)))
  }

  /** `if (cmyk == null) cmyk = convert(rgb, Cmyk.class)`. */
  function FillCmyk(f: Fields, table: Table, foreign: ForeignConverters): (r: Result<Fields>)
    ensures f.cmyk.Some? ==> r == Ok(f)
    ensures r.Ok? ==> r.value.cmyk.Some? && r.value == f.(cmyk := r.value.cmyk)
    ensures r.Ok? && f.cmyk.None? ==>
              ConvertFrom(table, RgbSource(f), Cmyk, foreign) == Ok(CmykValue(r.value.cmyk.value))
  {
    if f.cmyk.Some? then Ok(f)
    else match AsCmyk(ConvertFrom(table, RgbSource(f), Cmyk, foreign))
      case Err(e) => Err(e)
      case Ok(v) => Ok(f.(cmyk := Some(v)))
  }

  /** `if (yCrCb == null) yCrCb = convert(rgb, YCrCb.class)`. */
  function FillYCrCb(f: Fields, table: Table, foreign: ForeignConverters): (r: Result<Fields>)
    ensures f.yCrCb.Some? ==> r == Ok(f)
    ensures r.Ok? ==> r.value.yCrCb.Some? && r.value == f.(yCrCb := r.value.yCrCb)
    ensures r.Ok? && f.yCrCb.None? ==>
              ConvertFrom(table, RgbSource(f), YCrCb, foreign) == Ok(YCrCbValue(r.value.yCrCb.value))
  {
    if f.yCrCb.Some? then Ok(f)
    else match AsYCrCb(ConvertFrom(table, RgbSource(f), YCrCb, foreign))
      case Err(e) => Err(e)
      case Ok(v) => Ok(f.(yCrCb := Some(v)))
  }

  /** `if (xyz == null) xyz = convert(rgb, Xyz.class)`. */
  function FillXyz(f: Fields, table: Table, foreign: ForeignConverters): (r: Result<Fields>)
    ensures f.xyz.Some? ==> r == Ok(f)
    ensures r.Ok? ==> r.value.xyz.Some? && r.value == f.(xyz := r.value.xyz)
    ensures r.Ok? && f.xyz.None? ==>
              ConvertFrom(table, RgbSource(f), Xyz, foreign) == Ok(XyzValue(r.value.xyz.value))
  {
    if f.xyz.Some? then Ok(f)
    else match AsXyz(ConvertFrom(table, RgbSource(f), Xyz, foreign))
      case Err(e) => Err(e)
      case Ok(v) => Ok(f.(xyz := Some(v)))
  }

  /** `if (lab == null) lab = convert(xyz, Lab.class)`: Lab is derived from xyz, not rgb. */
  function FillLab(f: Fields, table: Table, foreign: ForeignConverters): (r: Result<Fields>)
    ensures f.lab.Some? ==> r == Ok(f)
    ensures r.Ok? ==> r.value.lab.Some? && r.value == f.(lab := r.value.lab)
    ensures r.Ok? && f.lab.None? ==>
              ConvertFrom(table, XyzSource(f), Lab, foreign) == Ok(LabValue(r.value.lab.value))
  {
    if f.lab.Some? then Ok(f)
    else match AsLab(ConvertFrom(table, XyzSource(f), Lab, foreign))
      case Err(e) => Err(e)
      case Ok(v) => Ok(f.(lab := Some(v)))
  }

  /** `InitConvertPossibleField`: fills hsb, hsl, cmyk, yCrCb and xyz from rgb and then lab
      from xyz, each only when still null; the first failure ends it. */
  function InitOf(f: Fields, table: Table, foreign: ForeignConverters): (r: Result<Fields>)
    ensures r.Ok? ==> KeepsSet(f, r.value)
    ensures r.Ok? ==> r.value.rgb == f.rgb && r.value.grayscale == f.grayscale
    ensures r.Ok? ==> r.value.hsb.Some? && r.value.hsl.Some? && r.value.cmyk.Some? &&
                      r.value.yCrCb.Some? && r.value.xyz.Some? && r.value.lab.Some?
    ensures r.Ok? && f.hsb.None? ==>
              ConvertFrom(table, RgbSource(f), Hsb, foreign) == Ok(HsbValue(r.value.hsb.value))
    ensures r.Ok? && f.hsl.None? ==>
              ConvertFrom(table, RgbSource(f), Hsl, foreign) == Ok(HslValue(r.value.hsl.value))
    ensures r.Ok? && f.cmyk.None? ==>
              ConvertFrom(table, RgbSource(f), Cmyk, foreign) == Ok(CmykValue(r.value.cmyk.value))
    ensures r.Ok? && f.yCrCb.None? ==>
              ConvertFrom(table, RgbSource(f), YCrCb, foreign) == Ok(YCrCbValue(r.value.yCrCb.value))
    ensures r.Ok? && f.xyz.None? ==>
              ConvertFrom(table, RgbSource(f), Xyz, foreign) == Ok(XyzValue(r.value.xyz.value))
    ensures r.Ok? && f.lab.None? ==>
              ConvertFrom(table, XyzSource(r.value), Lab, foreign) == Ok(LabValue(r.value.lab.value))
  {
    var r1 := FillHsb(f, table, foreign);
    if r1.Err? then r1 else
    var r2 := FillHsl(r1.value, table, foreign);
    if r2.Err? then r2 else
    var r3 := FillCmyk(r2.value, table, foreign);
    if r3.Err? then r3 else
    var r4 := FillYCrCb(r3.value, table, foreign);
    if r4.Err? then r4 else
    var r5 := FillXyz(r4.value, table, foreign);
    if r5.Err? then r5 else
    FillLab(r5.value, table, foreign)
  }

  /** `setRgbFrom(source)`: rgb is the registry's conversion of the source and grayscale the
      conversion of that rgb; no other field changes. */
  function SetRgbFromOf(f: Fields, source: ColorValue, table: Table, foreign: ForeignConverters)
    : (r: Result<Fields>)
    ensures r.Ok? ==> r.value == f.(rgb := r.value.rgb, grayscale := r.value.grayscale)
    ensures r.Ok? ==> r.value.rgb.Some? && r.value.grayscale.Some?
    ensures r.Ok? ==> ConvertOf(table, source, Rgb, foreign) == Ok(RgbValue(r.value.rgb.value))
    ensures r.Ok? ==> ConvertOf(table, RgbValue(r.value.rgb.value), Grayscale, foreign) ==
                      Ok(GrayscaleValue(r.value.grayscale.value))
  {
    match AsRgb(ConvertOf(table, source, Rgb, foreign))
    case Err(e) => Err(e)
    case Ok(c) =>
      match AsGrayscale(ConvertOf(table, RgbValue(c), Grayscale, foreign))
      case Err(e) => Err(e)
      case Ok(g) => Ok(f.(rgb := Some(c), grayscale := Some(g)))
  }

  /** Java has a constructor for every model class except Grayscale. */
  predicate HasConstructor(v: ColorValue)
  {
    !v.GrayscaleValue?
  }

  /** The fields once the argument is stored in its own field (the Lab constructor also
      stores the Xyz it derives, as step `xyz = convert(lab, Xyz.class)`). */
  function Stored(v: ColorValue): (f: Fields)
  {
    match v
    case RgbValue(c) => Unset.(rgb := Some(c))
    case HsbValue(c) => Unset.(hsb := Some(c))
    case HslValue(c) => Unset.(hsl := Some(c))
    case CmykValue(c) => Unset.(cmyk := Some(c))
    case YCrCbValue(c) => Unset.(yCrCb := Some(c))
    case XyzValue(o) => Unset.(xyz := Some(o))
    case LabValue(c) => Unset.(lab := Some(c))
    case GrayscaleValue(c) => Unset.(grayscale := Some(c))
  }

  /** The constructors of `NormalConvertBridge`: a null model throws before any conversion.
      An Rgb is stored and converted to Grayscale; a Lab is converted to Xyz and rgb is set
      from that; any other model sets rgb from itself. `InitConvertPossibleField` then fills
      the rest. */
  function CreateOf(model: Option<ColorValue>, table: Table, foreign: ForeignConverters)
    : (r: Result<Fields>)
    requires model.Some? ==> HasConstructor(model.value)
    ensures model.None? ==> r == Err(NullPointer)
  {
    if model.None? then Err(NullPointer) else
    var v := model.value;
    var f := Stored(v);
    if v.RgbValue? then
      match AsGrayscale(ConvertOf(table, v, Grayscale, foreign))
      case Err(e) => Err(e)
      case Ok(g) => InitOf(f.(grayscale := Some(g)), table, foreign)
    else if v.LabValue? then
      match AsXyz(ConvertOf(table, v, Xyz, foreign))
      case Err(e) => Err(e)
      case Ok(o) =>
        var f2 := SetRgbFromOf(f.(xyz := Some(o)), XyzValue(o), table, foreign);
        if f2.Err? then f2 else InitOf(f2.value, table, foreign)
    else
      var f2 := SetRgbFromOf(f, v, table, foreign);
      if f2.Err? then f2 else InitOf(f2.value, table, foreign)
  }

  // ------------------------------------------------------- the constructor

  /** A constructed bridge has every field set, and the model itself sits in its own field. */
  lemma CreateFillsAll(v: ColorValue, table: Table, foreign: ForeignConverters)
    requires HasConstructor(v)
    ensures CreateOf(Some(v), table, foreign).Ok? ==>
              AllSet(CreateOf(Some(v), table, foreign).value) &&
              KeepsSet(Stored(v), CreateOf(Some(v), table, foreign).value)
  {
    var r := CreateOf(Some(v), table, foreign);
    if r.Ok? {
      if v.RgbValue? {
        var g := AsGrayscale(ConvertOf(table, v, Grayscale, foreign));
        assert r == InitOf(Stored(v).(grayscale := Some(g.value)), table, foreign);
      } else if v.LabValue? {
        var o := AsXyz(ConvertOf(table, v, Xyz, foreign));
        var f2 := SetRgbFromOf(Stored(v).(xyz := Some(o.value)), XyzValue(o.value), table, foreign);
        assert r == InitOf(f2.value, table, foreign);
      } else {
        var f2 := SetRgbFromOf(Stored(v), v, table, foreign);
        assert r == InitOf(f2.value, table, foreign);
      }
    }
  }

  /** For every model but Rgb and Lab, rgb is the registry's conversion of the model, and
      for every model grayscale is the conversion of that rgb. */
  lemma CreateConverts(v: ColorValue, table: Table, foreign: ForeignConverters)
    requires HasConstructor(v)
    requires CreateOf(Some(v), table, foreign).Ok?
    ensures var f := CreateOf(Some(v), table, foreign).value;
      && ConvertOf(table, RgbValue(f.rgb.value), Grayscale, foreign) == Ok(GrayscaleValue(f.grayscale.value))
      && (!v.RgbValue? && !v.LabValue? ==> ConvertOf(table, v, Rgb, foreign) == Ok(RgbValue(f.rgb.value)))
  {
  }

  /** A Lab model: xyz is the registry's conversion of the Lab, and rgb that of the xyz. */
  lemma CreateFromLab(v: ColorValue, table: Table, foreign: ForeignConverters)
    requires v.LabValue?
    requires CreateOf(Some(v), table, foreign).Ok?
    ensures var f := CreateOf(Some(v), table, foreign).value;
      && ConvertOf(table, v, Xyz, foreign) == Ok(XyzValue(f.xyz.value))
      && ConvertOf(table, XyzValue(f.xyz.value), Rgb, foreign) == Ok(RgbValue(f.rgb.value))
  {
  }

  /** With the default converters registered for the Rgb source, a bridge built from an
      Rgb holds exactly what `DefaultModelConverters` computes from it. */
  lemma CreateFromRgbWithDefaults(c: RgbObject, table: Table, foreign: ForeignConverters)
    requires (Rgb, Hsb) in table && table[(Rgb, Hsb)] == RgbToHsb
    requires (Rgb, Hsl) in table && table[(Rgb, Hsl)] == RgbToHsl
    requires (Rgb, Cmyk) in table && table[(Rgb, Cmyk)] == RgbToCmyk
    requires (Rgb, YCrCb) in table && table[(Rgb, YCrCb)] == RgbToYCrCb
    requires (Rgb, Grayscale) in table && table[(Rgb, Grayscale)] == GraySpaceComponent
    requires CreateOf(Some(RgbValue(c)), table, foreign).Ok?
    ensures var f := CreateOf(Some(RgbValue(c)), table, foreign).value;
      && f.rgb == Some(c)
      && Conv.RgbToHsb(c) == Ok(f.hsb.value)
      && Conv.RgbToHsl(c) == Ok(f.hsl.value)
      && Conv.RgbToCmyk(c) == Ok(f.cmyk.value)
      && Conv.RgbToYCrCb(c) == Ok(f.yCrCb.value)
      && f.grayscale == Some(G.Grayscale(GA.ComponentCalc(c.r, c.g, c.b)))
  {
    var v := RgbValue(c);
    var g := AsGrayscale(ConvertOf(table, v, Grayscale, foreign));
    assert g.Ok?;
    var f1 := Stored(v).(grayscale := Some(g.value));
    assert CreateOf(Some(v), table, foreign) == InitOf(f1, table, foreign);
    var f := InitOf(f1, table, foreign).value;
    assert RgbSource(f1) == Some(v);
    DefaultLookup(table, c, Grayscale, GraySpaceComponent, foreign);
    AppliedGrayscale(c, g.value, foreign);
    DefaultLookup(table, c, Hsb, RgbToHsb, foreign);
    AppliedHsb(c, f.hsb.value, foreign);
    DefaultLookup(table, c, Hsl, RgbToHsl, foreign);
    AppliedHsl(c, f.hsl.value, foreign);
    DefaultLookup(table, c, Cmyk, RgbToCmyk, foreign);
    AppliedCmyk(c, f.cmyk.value, foreign);
    DefaultLookup(table, c, YCrCb, RgbToYCrCb, foreign);
    AppliedYCrCb(c, f.yCrCb.value, foreign);
  }

  /** A default converter that succeeds on an Rgb returns what `DefaultModelConverters`
      computes. */
  lemma AppliedHsb(c: RgbObject, h: H.Hsb, foreign: ForeignConverters)
    requires Apply(RgbToHsb, RgbValue(c), foreign) == Ok(HsbValue(h))
    ensures Conv.RgbToHsb(c) == Ok(h)
  {
  }

  lemma AppliedHsl(c: RgbObject, h: L.Hsl, foreign: ForeignConverters)
    requires Apply(RgbToHsl, RgbValue(c), foreign) == Ok(HslValue(h))
    ensures Conv.RgbToHsl(c) == Ok(h)
  {
  }

  lemma AppliedCmyk(c: RgbObject, k: CmykObject, foreign: ForeignConverters)
    requires Apply(RgbToCmyk, RgbValue(c), foreign) == Ok(CmykValue(k))
    ensures Conv.RgbToCmyk(c) == Ok(k)
  {
  }

  lemma AppliedYCrCb(c: RgbObject, y: Y.YCrCb, foreign: ForeignConverters)
    requires Apply(RgbToYCrCb, RgbValue(c), foreign) == Ok(YCrCbValue(y))
    ensures Conv.RgbToYCrCb(c) == Ok(y)
  {
  }

  lemma AppliedGrayscale(c: RgbObject, g: G.Grayscale, foreign: ForeignConverters)
    requires Apply(GraySpaceComponent, RgbValue(c), foreign) == Ok(GrayscaleValue(g))
    ensures g == G.Grayscale(GA.ComponentCalc(c.r, c.g, c.b))
  {
  }

  /** An Rgb object finds the converter registered for the Rgb class itself. */
  lemma DefaultLookup(table: Table, c: RgbObject, target: Kind, conv: Converter, foreign: ForeignConverters)
    requires (Rgb, target) in table && table[(Rgb, target)] == conv
    ensures ConvertOf(table, RgbValue(c), target, foreign) == Apply(conv, RgbValue(c), foreign)
  {
  }

  /** `fromRgb(r, g, b)`: `Rgb.from`, so out-of-range channels throw before anything is
      converted. */
  function FromRgbOf(r: int, g: int, b: int, table: Table, foreign: ForeignConverters): (res: Result<Fields>)
    ensures !R.InRange(r, g, b) ==> res == Err(ArgumentOutOfRange)
    ensures R.InRange(r, g, b) ==> res == CreateOf(Some(RgbValue(R.Rgb(r, g, b))), table, foreign)
  {
    match R.From(r, g, b)
    case Err(e) => Err(e)
    case Ok(c) => CreateOf(Some(RgbValue(c)), table, foreign)
  }

  // ------------------------------------------------------------ the objects

  class NormalConvertBridge {
    var rgb: Option<RgbObject>
    var hsb: Option<H.Hsb>
    var hsl: Option<L.Hsl>
    var cmyk: Option<CmykObject>
    var xyz: Option<X.Xyz>
    var lab: Option<B.Lab>
    var yCrCb: Option<Y.YCrCb>
    var grayscale: Option<G.Grayscale>

    /** The fields as a value; the getters return these fields unchanged. */
    function Snapshot(): (f: Fields)
      reads this
    {
      Fields(rgb, hsb, hsl, cmyk, xyz, lab, yCrCb, grayscale)
    }

    /** Allocation, where every field starts null, and the constructors' first step: the
        model is stored in its own field. */
    constructor Holding(v: ColorValue)
      ensures Snapshot() == Stored(v)
    {
      rgb, hsb, hsl, cmyk, xyz, lab, yCrCb, grayscale := None, None, None, None, None, None, None, None;
      match v {
        case RgbValue(c) => rgb := Some(c);
        case HsbValue(c) => hsb := Some(c);
        case HslValue(c) => hsl := Some(c);
        case CmykValue(c) => cmyk := Some(c);
        case YCrCbValue(c) => yCrCb := Some(c);
        case XyzValue(o) => xyz := Some(o);
        case LabValue(c) => lab := Some(c);
        case GrayscaleValue(c) => grayscale := Some(c);
      }
    }

    /** `setRgbFrom(source)`. On failure the constructor that called it fails too, so the
        fields are left unspecified. */
    method SetRgbFrom(source: ColorValue, mgr: ModelsManager, foreign: ForeignConverters)
      returns (r: Result<()>)
      modifies this
      ensures r.Ok? <==> SetRgbFromOf(old(Snapshot()), source, mgr.converters, foreign).Ok?
      ensures r.Ok? ==> Snapshot() == SetRgbFromOf(old(Snapshot()), source, mgr.converters, foreign).value
      ensures r.Err? ==> r.error == SetRgbFromOf(old(Snapshot()), source, mgr.converters, foreign).error
    {
      var conv := mgr.Convert(Some(source), Some(Rgb), foreign);
      var c := AsRgb(conv);
      if c.Err? {
        return Err(c.error);
      }
      rgb := Some(c.value);
      conv := mgr.Convert(Some(RgbValue(c.value)), Some(Grayscale), foreign);
      var g := AsGrayscale(conv);
      if g.Err? {
        return Err(g.error);
      }
      grayscale := Some(g.value);
      return Ok(());
    }

    /** `if (hsb == null) hsb = convert(rgb, Hsb.class)`. */
    method FillHsbField(mgr: ModelsManager, foreign: ForeignConverters) returns (r: Result<()>)
      modifies this
      ensures r.Ok? <==> FillHsb(old(Snapshot()), mgr.converters, foreign).Ok?
      ensures r.Ok? ==> Snapshot() == FillHsb(old(Snapshot()), mgr.converters, foreign).value
      ensures r.Err? ==> r.error == FillHsb(old(Snapshot()), mgr.converters, foreign).error
    {
      if hsb.None? {
        var conv := mgr.Convert(RgbSource(Snapshot()), Some(Hsb), foreign);
        var v := AsHsb(conv);
        if v.Err? {
          return Err(v.error);
        }
        hsb := Some(v.value);
      }
      return Ok(());
    }

    /** `if (hsl == null) hsl = convert(rgb, Hsl.class)`. */
    method FillHslField(mgr: ModelsManager, foreign: ForeignConverters) returns (r: Result<()>)
      modifies this
      ensures r.Ok? <==> FillHsl(old(Snapshot()), mgr.converters, foreign).Ok?
      ensures r.Ok? ==> Snapshot() == FillHsl(old(Snapshot()), mgr.converters, foreign).value
      ensures r.Err? ==> r.error == FillHsl(old(Snapshot()), mgr.converters, foreign).error
    {
      if hsl.None? {
        var conv := mgr.Convert(RgbSource(Snapshot()), Some(Hsl), foreign);
        var v := AsHsl(conv);
        if v.Err? {
          return Err(v.error);
        }
        hsl := Some(v.value);
      }
      return Ok(());
    }

    /** `if (cmyk == null) cmyk = convert(rgb, Cmyk.class)`. */
    method FillCmykField(mgr: ModelsManager, foreign: ForeignConverters) returns (r: Result<()>)
      modifies this
      ensures r.Ok? <==> FillCmyk(old(Snapshot()), mgr.converters, foreign).Ok?
      ensures r.Ok? ==> Snapshot() == FillCmyk(old(Snapshot()), mgr.converters, foreign).value
      ensures r.Err? ==> r.error == FillCmyk(old(Snapshot()), mgr.converters, foreign).error
    {
      if cmyk.None? {
        var conv := mgr.Convert(RgbSource(Snapshot()), Some(Cmyk), foreign);
        var v := AsCmyk(conv);
        if v.Err? {
          return Err(v.error);
        }
        cmyk := Some(v.value);
      }
      return Ok(());
    }

    /** `if (yCrCb == null) yCrCb = convert(rgb, YCrCb.class)`. */
    method FillYCrCbField(mgr: ModelsManager, foreign: ForeignConverters) returns (r: Result<()>)
      modifies this
      ensures r.Ok? <==> FillYCrCb(old(Snapshot()), mgr.converters, foreign).Ok?
      ensures r.Ok? ==> Snapshot() == FillYCrCb(old(Snapshot()), mgr.converters, foreign).value
      ensures r.Err? ==> r.error == FillYCrCb(old(Snapshot()), mgr.converters, foreign).error
    {
      if yCrCb.None? {
        var conv := mgr.Convert(RgbSource(Snapshot()), Some(YCrCb), foreign);
        var v := AsYCrCb(conv);
        if v.Err? {
          return Err(v.error);
        }
        yCrCb := Some(v.value);
      }
      return Ok(());
    }

    /** `if (xyz == null) xyz = convert(rgb, Xyz.class)`. */
    method FillXyzField(mgr: ModelsManager, foreign: ForeignConverters) returns (r: Result<()>)
      modifies this
      ensures r.Ok? <==> FillXyz(old(Snapshot()), mgr.converters, foreign).Ok?
      ensures r.Ok? ==> Snapshot() == FillXyz(old(Snapshot()), mgr.converters, foreign).value
      ensures r.Err? ==> r.error == FillXyz(old(Snapshot()), mgr.converters, foreign).error
    {
      if xyz.None? {
        var conv := mgr.Convert(RgbSource(Snapshot()), Some(Xyz), foreign);
        var v := AsXyz(conv);
        if v.Err? {
          return Err(v.error);
        }
        xyz := Some(v.value);
      }
      return Ok(());
    }

    /** `if (lab == null) lab = convert(xyz, Lab.class)`. */
    method FillLabField(mgr: ModelsManager, foreign: ForeignConverters) returns (r: Result<()>)
      modifies this
      ensures r.Ok? <==> FillLab(old(Snapshot()), mgr.converters, foreign).Ok?
      ensures r.Ok? ==> Snapshot() == FillLab(old(Snapshot()), mgr.converters, foreign).value
      ensures r.Err? ==> r.error == FillLab(old(Snapshot()), mgr.converters, foreign).error
    {
      if lab.None? {
        var conv := mgr.Convert(XyzSource(Snapshot()), Some(Lab), foreign);
        var v := AsLab(conv);
        if v.Err? {
          return Err(v.error);
        }
        lab := Some(v.value);
      }
      return Ok(());
    }

    /** `InitConvertPossibleField`: fills, in order, each field that is still null; the
        first failure ends it. */
    method InitConvertPossibleField(mgr: ModelsManager, foreign: ForeignConverters)
      returns (r: Result<()>)
      modifies this
      ensures r.Ok? <==> InitOf(old(Snapshot()), mgr.converters, foreign).Ok?
      ensures r.Ok? ==> Snapshot() == InitOf(old(Snapshot()), mgr.converters, foreign).value
      ensures r.Err? ==> r.error == InitOf(old(Snapshot()), mgr.converters, foreign).error
    {
      r := FillHsbField(mgr, foreign);
      if r.Err? {
        return;
      }
      r := FillHslField(mgr, foreign);
      if r.Err? {
        return;
      }
      r := FillCmykField(mgr, foreign);
      if r.Err? {
        return;
      }
      r := FillYCrCbField(mgr, foreign);
      if r.Err? {
        return;
      }
      r := FillXyzField(mgr, foreign);
      if r.Err? {
        return;
      }
      r := FillLabField(mgr, foreign);
      if r.Err? {
        return;
      }
    }
  }

  /** `new NormalConvertBridge(model)` for each model class, and the exception it throws. */
  method Create(model: Option<ColorValue>, mgr: ModelsManager, foreign: ForeignConverters)
    returns (res: Result<NormalConvertBridge>)
    requires model.Some? ==> HasConstructor(model.value)
    ensures res.Ok? <==> CreateOf(model, mgr.converters, foreign).Ok?
    ensures res.Ok? ==> fresh(res.value) && res.value.Snapshot() == CreateOf(model, mgr.converters, foreign).value
    ensures res.Err? ==> res.error == CreateOf(model, mgr.converters, foreign).error
  {
    if model.None? {
      return Err(NullPointer);
    }
    var v := model.value;
    var b := new NormalConvertBridge.Holding(v);
    var r: Result<()>;
    if v.RgbValue? {
      var conv := mgr.Convert(model, Some(Grayscale), foreign);
      var g := AsGrayscale(conv);
      if g.Err? {
        return Err(g.error);
      }
      b.grayscale := Some(g.value);
    } else if v.LabValue? {
      var conv := mgr.Convert(model, Some(Xyz), foreign);
      var o := AsXyz(conv);
      if o.Err? {
        return Err(o.error);
      }
      b.xyz := Some(o.value);
      r := b.SetRgbFrom(XyzValue(o.value), mgr, foreign);
      if r.Err? {
        return Err(r.error);
      }
    } else {
      r := b.SetRgbFrom(v, mgr, foreign);
      if r.Err? {
        return Err(r.error);
      }
    }
    r := b.InitConvertPossibleField(mgr, foreign);
    if r.Err? {
      return Err(r.error);
    }
    return Ok(b);
  }

  /** `ConvertBridge`, the abstract base of the bridges: seven fields, no grayscale. */
  class ConvertBridge {
    var rgb: Option<RgbObject>
    var hsb: Option<H.Hsb>
    var hsl: Option<L.Hsl>
    var cmyk: Option<CmykObject>
    var xyz: Option<X.Xyz>
    var lab: Option<B.Lab>
    var yCrCb: Option<Y.YCrCb>

    /** The protected constructor sets nothing. */
    constructor ()
      ensures rgb.None? && hsb.None? && hsl.None? && cmyk.None? && xyz.None? && lab.None? && yCrCb.None?
    {
      rgb, hsb, hsl, cmyk, xyz, lab, yCrCb := None, None, None, None, None, None, None;
    }

    /** `toHex()`: the upper-case hex of the current rgb, NullPointerException while unset. */
    function ToHex(): (s: Result<string>)
      reads this
      ensures rgb.None? <==> s == Err(NullPointer)
      ensures rgb.Some? ==> s.Ok? && |s.value| == 6 && R.FromHex(Some(s.value)) == Ok(rgb.value)
    {
      if rgb.None? then Err(NullPointer)
      else
        R.FromHexToHex(rgb.value, true);
        Ok(R.ToHex(rgb.value, true))
    }

    /** `getGray()`: the implementation in the registry's slot at call time, applied to rgb.
        A null slot or an unset rgb is NullPointerException; the shipped implementations give
        a level in 0..255, a caller-supplied one whatever its own `calc` returns. */
    function GetGray(mgr: ModelsManager, supplied: GA.SuppliedCalc): (v: Result<int>)
      reads this, mgr
      ensures mgr.grayscaleAlgorithm.None? || rgb.None? <==> v == Err(NullPointer)
      ensures v.Ok? ==> v.value == GA.ImplementationCalc(mgr.grayscaleAlgorithm.value, supplied, rgb.value)
      ensures mgr.grayscaleAlgorithm == Some(GA.Shipped(GA.Component)) && rgb.Some? ==>
                v == Ok(GA.ComponentCalc(rgb.value.r, rgb.value.g, rgb.value.b))
      ensures mgr.grayscaleAlgorithm == Some(GA.Shipped(GA.Average)) && rgb.Some? ==>
                v == Ok(GA.AverageCalc(rgb.value.r, rgb.value.g, rgb.value.b))
      ensures v.Ok? && mgr.grayscaleAlgorithm.value.Shipped? ==> 0 <= v.value <= 255
    {
      if mgr.grayscaleAlgorithm.None? || rgb.None? then Err(NullPointer)
      else Ok(GA.ImplementationCalc(mgr.grayscaleAlgorithm.value, supplied, rgb.value))
    }

    /** `SetRgbFrom(source)`: rgb becomes the registry's conversion of the source; no other
        field changes. A failure leaves every field as it was. */
    method SetRgbFrom(source: Option<ColorValue>, mgr: ModelsManager, foreign: ForeignConverters)
      returns (r: Result<()>)
      modifies this
      ensures var c := AsRgb(ConvertFrom(mgr.converters, source, Rgb, foreign));
        && (r.Ok? <==> c.Ok?)
        && (r.Err? ==> r.error == c.error && rgb == old(rgb))
        && (r.Ok? ==> rgb == Some(c.value))
      ensures hsb == old(hsb) && hsl == old(hsl) && cmyk == old(cmyk) && xyz == old(xyz) &&
              lab == old(lab) && yCrCb == old(yCrCb)
    {
      var conv := mgr.Convert(source, Some(Rgb), foreign);
      var c := AsRgb(conv);
      if c.Err? {
        return Err(c.error);
      }
      rgb := Some(c.value);
      return Ok(());
    }
  }
}
