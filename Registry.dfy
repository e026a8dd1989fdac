/** `colorpad.core.ModelsManager`: the table of converters keyed by (source class,
    target class), the superclass walk of `convert`, and the swappable grayscale
    algorithm. Java classes are the `Kind` datatype; a colour object is a `ColorValue`. */
module Registry {
  import opened Wrappers
  import opened JavaNum
  import R = RgbModel
  import C = CmykModel
  import H = HsbModel
  import L = HslModel
  import B = LabModel
  import Y = YCrCbModel
  import G = GrayscaleModel
  import X = XyzModel
  import Conv = Converters
  import GA = GrayAlgorithms

  // ---------------------------------------------------------------- classes

  /** The model classes a converter can be registered for, and `java.lang.Object`. */
  datatype Kind = Rgb | Hsb | Hsl | Cmyk | Lab | YCrCb | Grayscale | Xyz | CieXyzD65 | Object

  /** `getSuperclass()`: `CieXyzD65` extends `Xyz`, every other model extends `Object`,
      and `Object` has none. */
  function Superclass(k: Kind): (p: Option<Kind>)
    ensures p.None? <==> k == Object
  {
    match k
    case Object => None
    case CieXyzD65 => Some(Xyz)
    case _ => Some(Object)
  }

  /** The number of steps from a class up to `Object`. */
  function Depth(k: Kind): nat
  {
    match k
    case Object => 0
    case CieXyzD65 => 2
    case _ => 1
  }

  /** The class followed by its superclasses, ending at `Object`. */
  function Chain(k: Kind): (s: seq<Kind>)
    decreases Depth(k)
  {
    match Superclass(k)
    case None => [k]
    case Some(p) => [k] + Chain(p)
  }

  /** Every chain starts at its class and ends at `Object`. */
  lemma {:induction false} ChainEnds(k: Kind)
    ensures |Chain(k)| >= 1 && Chain(k)[0] == k && Chain(k)[|Chain(k)| - 1] == Object
    decreases Depth(k)
  {
    match Superclass(k)
    case None =>
    case Some(p) => ChainEnds(p);
  }

  // ----------------------------------------------------------------- values

  /** An Rgb object: its channels always passed `Rgb.from`'s range check. */
  type RgbObject = c: R.Rgb | R.Valid(c) witness R.Rgb(0, 0, 0)

  /** A Cmyk object: four Java ints (the public constructor checks nothing more). */
  type CmykObject = v: C.Cmyk | IsInt(v.c) && IsInt(v.m) && IsInt(v.y) && IsInt(v.k)
    witness C.Cmyk(0, 0, 0, 0)

  /** A colour object. An Xyz is held by reference, since it is mutable. */
  datatype ColorValue =
    | RgbValue(rgb: RgbObject)
    | HsbValue(hsb: H.Hsb)
    | HslValue(hsl: L.Hsl)
    | CmykValue(cmyk: CmykObject)
    | LabValue(lab: B.Lab)
    | YCrCbValue(yCrCb: Y.YCrCb)
    | GrayscaleValue(grayscale: G.Grayscale)
    | XyzValue(xyz: X.Xyz)

  /** `getClass()`: the runtime class of a colour object. */
  function KindOf(v: ColorValue): (k: Kind)
    ensures k != Object
  {
    match v
    case RgbValue(_) => Rgb
    case HsbValue(_) => Hsb
    case HslValue(_) => Hsl
    case CmykValue(_) => Cmyk
    case LabValue(_) => Lab
    case YCrCbValue(_) => YCrCb
    case GrayscaleValue(_) => Grayscale
    case XyzValue(o) => if o.d65 then CieXyzD65 else Xyz
  }

  /** The value is an instance of `k`: its class or one of its superclasses is `k`. */
  predicate InstanceOf(v: ColorValue, k: Kind)
  {
    k in Chain(KindOf(v))
  }

  // ------------------------------------------------------------- converters

  /** The converters of `DefaultModelConverters` and the grayscale converters that are
      modelled here; `Foreign(id)` stands for any other registered `IConvertFromTo`
      (the XYZ and Lab curves, or a caller's own converter). */
  datatype Converter =
    | RgbToHsb | HsbToRgb | RgbToHsl | HslToRgb | RgbToCmyk | CmykToRgb
    | RgbToYCrCb | YCrCbToRgb | GraySpaceComponent | GrayAverage
    | Foreign(id: nat)

  /** What the converters outside this model compute, given by the caller. */
  type ForeignConverters = (nat, ColorValue) -> Result<ColorValue>

  /** An Rgb result of a converter as a colour object. Every such result comes from
      `Rgb.from`, which admits only channels in 0..255. */
  function OfRgb(r: Result<R.Rgb>): (res: Result<ColorValue>)
    ensures r.Ok? && R.Valid(r.value) ==> res == Ok(RgbValue(r.value))
    ensures r.Err? ==> res == Err(r.error)
  {
    match r
    case Err(e) => Err(e)
    case Ok(c) => if R.Valid(c) then Ok(RgbValue(c)) else Err(ArgumentOutOfRange)
  }

  /** A Cmyk result of `RGB_TO_CMYK` as a colour object; its components are percentages. */
  function OfCmyk(r: Result<C.Cmyk>): (res: Result<ColorValue>)
    ensures r.Ok? && C.Valid(r.value) ==> res == Ok(CmykValue(r.value))
    ensures r.Err? ==> res == Err(r.error)
  {
    match r
    case Err(e) => Err(e)
    case Ok(v) =>
      if IsInt(v.c) && IsInt(v.m) && IsInt(v.y) && IsInt(v.k) then Ok(CmykValue(v))
      else Err(ArgumentOutOfRange)
  }

  function OfHsb(r: Result<H.Hsb>): Result<ColorValue>
  {
    match r
    case Err(e) => Err(e)
    case Ok(v) => Ok(HsbValue(v))
  }

  function OfHsl(r: Result<L.Hsl>): Result<ColorValue>
  {
    match r
    case Err(e) => Err(e)
    case Ok(v) => Ok(HslValue(v))
  }

  function OfYCrCb(r: Result<Y.YCrCb>): Result<ColorValue>
  {
    match r
    case Err(e) => Err(e)
    case Ok(v) => Ok(YCrCbValue(v))
  }

  function OfGrayscale(r: Result<G.Grayscale>): Result<ColorValue>
  {
    match r
    case Err(e) => Err(e)
    case Ok(v) => Ok(GrayscaleValue(v))
  }

  /** `converter.convert(source)`. The lambdas are typed by their source class, so any
      other argument fails the cast the JVM inserts: ClassCastException. */
  function Apply(c: Converter, v: ColorValue, foreign: ForeignConverters): (res: Result<ColorValue>)
    ensures !c.Foreign? && !InstanceOf(v, InputKind(c)) ==> res == Err(ClassCast)
  {
    match c
    case Foreign(id) => foreign(id, v)
    case RgbToHsb => if v.RgbValue? then OfHsb(Conv.RgbToHsb(v.rgb)) else Err(ClassCast)
    case HsbToRgb => if v.HsbValue? then OfRgb(Conv.HsbToRgb(v.hsb)) else Err(ClassCast)
    case RgbToHsl => if v.RgbValue? then OfHsl(Conv.RgbToHsl(v.rgb)) else Err(ClassCast)
    case HslToRgb => if v.HslValue? then OfRgb(Conv.HslToRgbOf(v.hsl)) else Err(ClassCast)
    case RgbToCmyk => if v.RgbValue? then OfCmyk(Conv.RgbToCmyk(v.rgb)) else Err(ClassCast)
    case CmykToRgb => if v.CmykValue? then OfRgb(Conv.CmykToRgb(v.cmyk)) else Err(ClassCast)
    case RgbToYCrCb => if v.RgbValue? then OfYCrCb(Conv.RgbToYCrCb(v.rgb)) else Err(ClassCast)
    case YCrCbToRgb => if v.YCrCbValue? then OfRgb(Conv.YCrCbToRgb(v.yCrCb)) else Err(ClassCast)
    case GraySpaceComponent =>
      if v.RgbValue? then OfGrayscale(GA.SpaceComponentConvert(v.rgb)) else Err(ClassCast)
    case GrayAverage =>
      if v.RgbValue? then OfGrayscale(GA.AverageConvert(v.rgb)) else Err(ClassCast)
  }

  /** The source class a modelled converter is declared for. */
  function InputKind(c: Converter): Kind
    requires !c.Foreign?
  {
    match c
    case RgbToHsb => Rgb
    case RgbToHsl => Rgb
    case RgbToCmyk => Rgb
    case RgbToYCrCb => Rgb
    case GraySpaceComponent => Rgb
    case GrayAverage => Rgb
    case HsbToRgb => Hsb
    case HslToRgb => Hsl
    case CmykToRgb => Cmyk
    case YCrCbToRgb => YCrCb
  }

  // ----------------------------------------------------------------- lookup

  /** The table as `REGISTERED_CONVERTERS` holds it, flattened to one key per pair. */
  type Table = map<(Kind, Kind), Converter>

  /** The converter `convert` finds: the entry for the first class on the chain from
      `k` up to `Object` that has one for `target`. */
  function Find(table: Table, k: Kind, target: Kind): Option<Converter>
    decreases Depth(k)
  {
    if (k, target) in table then Some(table[(k, target)])
    else match Superclass(k)
      case None => None
      case Some(p) => Find(table, p, target)
  }

  /** `Find` returns the entry of the first class on the chain that has one, and
      nothing exactly when no class on the chain has one. */
  lemma FindFirstHit(table: Table, k: Kind, target: Kind)
    ensures Find(table, k, target).None? <==>
              forall i :: 0 <= i < |Chain(k)| ==> (Chain(k)[i], target) !in table
    ensures Find(table, k, target).Some? ==>
              exists i :: 0 <= i < |Chain(k)| && (Chain(k)[i], target) in table &&
                          Find(table, k, target).value == table[(Chain(k)[i], target)] &&
                          forall j :: 0 <= j < i ==> (Chain(k)[j], target) !in table
  {
    FindMiss(table, k, target);
    if Find(table, k, target).Some? {
      var i := FindHit(table, k, target);
    }
  }

  /** `Find` returns nothing exactly when no class on the chain has an entry. */
  lemma {:induction false} FindMiss(table: Table, k: Kind, target: Kind)
    ensures Find(table, k, target).None? <==>
              forall i :: 0 <= i < |Chain(k)| ==> (Chain(k)[i], target) !in table
    decreases Depth(k)
  {
    var ch := Chain(k);
    if (k, target) !in table && Superclass(k).Some? {
      var p := Superclass(k).value;
      FindMiss(table, p, target);
      var rest := Chain(p);
      assert ch == [k] + rest;
      assert forall i :: 0 < i < |ch| ==> ch[i] == rest[i - 1];
      assert forall i :: 0 <= i < |rest| ==> rest[i] == ch[i + 1];
    } else if (k, target) in table {
      ChainEnds(k);
      assert Find(table, k, target).Some?;
      assert (ch[0], target) in table;
    } else {
      assert ch == [k];
      assert Find(table, k, target).None?;
    }
  }

  /** The position on the chain of the class whose entry `Find` returns: no class
      before it has one. */
  lemma {:induction false} FindHit(table: Table, k: Kind, target: Kind) returns (i: nat)
    requires Find(table, k, target).Some?
    ensures i < |Chain(k)| && (Chain(k)[i], target) in table
    ensures Find(table, k, target).value == table[(Chain(k)[i], target)]
    ensures forall j :: 0 <= j < i ==> (Chain(k)[j], target) !in table
    decreases Depth(k)
  {
    var ch := Chain(k);
    if (k, target) in table {
      return 0;
    }
    var p := Superclass(k).value;
    var r := FindHit(table, p, target);
    var rest := Chain(p);
    assert ch == [k] + rest;
    i := r + 1;
    assert ch[i] == rest[r];
    assert forall j :: 0 < j < i ==> ch[j] == rest[j - 1];
  }

  /** A `CieXyzD65` with no converter of its own uses the one registered for `Xyz`,
      and failing that the one registered for `Object`. */
  lemma D65FallsBack(table: Table, target: Kind)
    requires (CieXyzD65, target) !in table
    ensures (Xyz, target) in table ==> Find(table, CieXyzD65, target) == Some(table[(Xyz, target)])
    ensures (Xyz, target) !in table ==>
              Find(table, CieXyzD65, target) ==
                (if (Object, target) in table then Some(table[(Object, target)]) else None)
  {
  }

  /** The three-argument `convert`: the caller-given source class only, no walk. */
  function ConvertVia(table: Table, v: ColorValue, source: Kind, target: Kind,
                      foreign: ForeignConverters): (res: Result<ColorValue>)
    ensures (source, target) !in table ==> res == Err(IllegalArgument)
  {
    if (source, target) in table then Apply(table[(source, target)], v, foreign)
    else Err(IllegalArgument)
  }

  /** The two-argument `convert` on non-null arguments: the first converter on the
      superclass chain, or IllegalArgumentException when there is none. */
  function ConvertOf(table: Table, v: ColorValue, target: Kind, foreign: ForeignConverters): (res: Result<ColorValue>)
  {
    match Find(table, KindOf(v), target)
    case None => Err(IllegalArgument)
    case Some(c) => Apply(c, v, foreign)
  }

  /** The walk only adds fallbacks: when the runtime class has its own entry, both
      overloads of `convert` give the same result. */
  lemma ConvertOfExact(table: Table, v: ColorValue, target: Kind, foreign: ForeignConverters)
    requires (KindOf(v), target) in table
    ensures ConvertOf(table, v, target, foreign) == ConvertVia(table, v, KindOf(v), target, foreign)
  {
  }

  /** `convert` fails with IllegalArgumentException exactly when no class on the chain
      has a converter for the target. */
  lemma ConvertOfMissing(table: Table, v: ColorValue, target: Kind, foreign: ForeignConverters)
    ensures (forall i :: 0 <= i < |Chain(KindOf(v))| ==> (Chain(KindOf(v))[i], target) !in table) ==>
              ConvertOf(table, v, target, foreign) == Err(IllegalArgument)
  {
    FindFirstHit(table, KindOf(v), target);
  }

  // -------------------------------------------------------------- the class

  /** The static state of `ModelsManager`. */
  class ModelsManager {
    var converters: Table
    /** The slot holds any implementation, or null once a caller has registered null. */
    var grayscaleAlgorithm: Option<GA.Implementation>

    /** Class initialisation: the slot starts as `GrayComponentAlgorithm`, and the table
        holds what `DefaultModelConverters.registerToManager()` registers, which is given. */
    constructor (defaults: Table)
      ensures converters == defaults && grayscaleAlgorithm == Some(GA.Shipped(GA.Component))
    {
      converters := defaults;
      grayscaleAlgorithm := Some(GA.Shipped(GA.Component));
    }

    /** `getGrayscaleAlgorithm`: whatever was registered last, null and caller-supplied
        implementations included; `GrayComponentAlgorithm` until the first registration. */
    function GetGrayscaleAlgorithm(): (a: Option<GA.Implementation>)
      reads this
      ensures a == grayscaleAlgorithm
    {
      grayscaleAlgorithm
    }

    /** `registerGrayscaleAlgorithm`: replaces the slot with any implementation, or with
        null, which Java accepts unchecked; nothing else changes. */
    method RegisterGrayscaleAlgorithm(algorithm: Option<GA.Implementation>)
      modifies this
      ensures grayscaleAlgorithm == algorithm && converters == old(converters)
    {
      grayscaleAlgorithm := algorithm;
    }

    /** `register`: a null argument throws and leaves the table alone; otherwise the
        converter is stored under (source, target), replacing any earlier one. */
    method Register(source: Option<Kind>, target: Option<Kind>, converter: Option<Converter>)
      returns (r: Result<()>)
      modifies this
      ensures r.Err? <==> source.None? || target.None? || converter.None?
      ensures r.Err? ==> r.error == NullPointer && converters == old(converters)
      ensures r.Ok? ==> converters == old(converters)[(source.value, target.value) := converter.value]
      ensures grayscaleAlgorithm == old(grayscaleAlgorithm)
    {
      if source.None? || target.None? || converter.None? {
        return Err(NullPointer);
      }
      converters := converters[(source.value, target.value) := converter.value];
      return Ok(());
    }

    /** `getConverter`: the entry for exactly this pair, if any. */
    function GetConverter(source: Kind, target: Kind): (c: Option<Converter>)
      reads this
      ensures c.Some? <==> (source, target) in converters
      ensures c.Some? ==> c.value == converters[(source, target)]
    {
      if (source, target) in converters then Some(converters[(source, target)]) else None
    }

    /** `isConvertable`: an exact-pair lookup, with no superclass walk. A null class finds
        nothing (the table never holds a null key). */
    predicate IsConvertable(source: Option<Kind>, target: Option<Kind>)
      reads this
      ensures IsConvertable(source, target) <==>
                source.Some? && target.Some? && (source.value, target.value) in converters
    {
      source.Some? && target.Some? && GetConverter(source.value, target.value).Some?
    }

    /** `convert(source, targetClass)`: tries the runtime class and then each superclass up
        to `Object`, and applies the first converter found. */
    method Convert(source: Option<ColorValue>, targetClass: Option<Kind>, foreign: ForeignConverters)
      returns (r: Result<ColorValue>)
      ensures source.None? || targetClass.None? ==> r == Err(NullPointer)
      ensures source.Some? && targetClass.Some? ==>
                r == ConvertOf(converters, source.value, targetClass.value, foreign)
    {
      if source.None? || targetClass.None? {
        return Err(NullPointer);
      }
      var target := targetClass.value;
      var sourceClass := KindOf(source.value);
      var converter := GetConverter(sourceClass, target);
      while converter.None? && sourceClass != Object
        invariant converter == GetConverter(sourceClass, target)
        invariant Find(converters, KindOf(source.value), target) == Find(converters, sourceClass, target)
        decreases Depth(sourceClass)
      {
        sourceClass := Superclass(sourceClass).value;
        converter := GetConverter(sourceClass, target);
      }
      if converter.None? {
        return Err(IllegalArgument);
      }
      r := Apply(converter.value, source.value, foreign);
    }

    /** `convert(source, sourceClass, targetClass)`: the converter for exactly the given
        source class, with no walk. */
    method ConvertAs(source: Option<ColorValue>, sourceClass: Option<Kind>, targetClass: Option<Kind>,
                     foreign: ForeignConverters)
      returns (r: Result<ColorValue>)
      ensures source.None? || sourceClass.None? || targetClass.None? ==> r == Err(NullPointer)
      ensures source.Some? && sourceClass.Some? && targetClass.Some? ==>
                r == ConvertVia(converters, source.value, sourceClass.value, targetClass.value, foreign)
    {
      if source.None? || sourceClass.None? || targetClass.None? {
        return Err(NullPointer);
      }
      var converter := GetConverter(sourceClass.value, targetClass.value);
      if converter.None? {
        return Err(IllegalArgument);
      }
      r := Apply(converter.value, source.value, foreign);
    }
  }

  /** After `register(s, t, c)` both overloads of `convert` from an `s` object to `t` use `c`,
      and every other pair keeps its converter. */
  lemma RegisterThenConvert(table: Table, s: Kind, t: Kind, c: Converter, v: ColorValue,
                            foreign: ForeignConverters)
    requires KindOf(v) == s
    ensures ConvertOf(table[(s, t) := c], v, t, foreign) == Apply(c, v, foreign)
    ensures ConvertVia(table[(s, t) := c], v, s, t, foreign) == Apply(c, v, foreign)
    ensures forall s', t' :: (s', t') != (s, t) && (s', t') in table ==>
              table[(s, t) := c][(s', t')] == table[(s', t')]
  {
  }

  /** `isConvertable` asks about the exact pair while `convert` walks the superclasses: with
      only an `Xyz -> Rgb` converter registered, a `CieXyzD65` is reported not convertible
      to Rgb, yet `convert` turns a `CieXyzD65` object into Rgb with the `Xyz` converter. */
  lemma IsConvertableIgnoresWalk(mgr: ModelsManager, id: nat, v: ColorValue,
                                 foreign: ForeignConverters)
    requires mgr.converters == map[(Xyz, Rgb) := Foreign(id)]
    requires KindOf(v) == CieXyzD65
    ensures !mgr.IsConvertable(Some(CieXyzD65), Some(Rgb))
    ensures mgr.IsConvertable(Some(Xyz), Some(Rgb))
    ensures ConvertOf(mgr.converters, v, Rgb, foreign) == foreign(id, v)
  {
    D65FallsBack(mgr.converters, Rgb);
  }
}
