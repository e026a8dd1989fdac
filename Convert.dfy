/** `fit.simplification.Convert`: conversions that return a default instead of throwing.
    An argument of type `Object` is modelled by what the conversions look at: null, a
    `Number`, a `Boolean`, or any other object, known by its `toString`. A null `Integer`,
    `Long`, `Boolean` or enum constant is `None`. */
module Convert {
  import opened Wrappers
  import opened JavaNum
  import opened JavaText

  /** A `java.lang.Number`: an integral one (Byte, Short, Integer, Long, BigInteger) by its
      exact value, or a floating one (Float, Double) by its finite value. */
  datatype Number = Integral(i: int) | Floating(x: real)

  /** An argument of type `Object`. */
  datatype Value = Null | Num(n: Number) | Bool(b: bool) | Other(text: string)

  /** `toString()` of a non-null value that is not a Number. */
  function Text(v: Value): string
    requires v.Bool? || v.Other?
  {
    if v.Bool? then (if v.b then "true" else "false") else v.text
  }

  /** `Number.intValue()`: integral values keep their low 32 bits, floating values are
      truncated toward zero and saturated. */
  function IntValue(n: Number): (r: int)
    ensures IsInt(r)
    ensures n.Integral? && IsInt(n.i) ==> r == n.i
    ensures n.Floating? && INT_MIN as real <= n.x <= INT_MAX as real ==> r == Trunc(n.x)
  {
    match n
    case Integral(i) => Wrap32(i)
    case Floating(x) => TruncToInt(x)
  }

  /** `Number.longValue()`: the same narrowing to 64 bits. */
  function LongValue(n: Number): (r: int)
    ensures IsLong(r)
    ensures n.Integral? && IsLong(n.i) ==> r == n.i
    ensures n.Floating? && LONG_MIN as real <= n.x <= LONG_MAX as real ==> r == Trunc(n.x)
  {
    match n
    case Integral(i) => Wrap64(i)
    case Floating(x) => TruncToLong(x)
  }

  /** `Number.doubleValue()` (and `floatValue()`), without rounding to the binary format. */
  function DoubleValue(n: Number): real
  {
    match n
    case Integral(i) => i as real
    case Floating(x) => x
  }

  // ------------------------------------------------------------ numbers

  /** `toInt(value, def)`: null gives `def`, a Number is narrowed, anything else is parsed
      from its text with `Integer.parseInt`, and a text that does not parse gives `def`. */
  function ToInt(value: Value, def: Option<int>): (r: Option<int>)
    ensures value.Null? ==> r == def
    ensures r == def || (r.Some? && IsInt(r.value))
  {
    match value
    case Null => def
    case Num(n) => Some(IntValue(n))
    case Bool(_) | Other(_) =>
      match ParseInt(Text(value), 10)
      case Some(i) => Some(i)
      case None => def
  }

  /** `toInt(value)`: the default is 0. */
  function ToIntOrZero(value: Value): (r: int)
    ensures IsInt(r)
  {
    ToInt(value, Some(0)).value
  }

  /** `toLong(value, def)`, parsing with `Long.parseLong`. */
  function ToLong(value: Value, def: Option<int>): (r: Option<int>)
    ensures value.Null? ==> r == def
    ensures r == def || (r.Some? && IsLong(r.value))
  {
    match value
    case Null => def
    case Num(n) => Some(LongValue(n))
    case Bool(_) | Other(_) =>
      match ParseInteger(Text(value), 10, LONG_MIN, LONG_MAX)
      case Some(i) => Some(i)
      case None => def
  }

  /** `toLong(value)`: the default is 0. */
  function ToLongOrZero(value: Value): (r: int)
    ensures IsLong(r)
  {
    ToLong(value, Some(0)).value
  }

  /** `toDouble(value, def)`, parsing with `Double.parseDouble`. */
  function ToDouble(value: Value, def: Option<real>): (r: Option<real>)
    ensures value.Null? ==> r == def
  {
    match value
    case Null => def
    case Num(n) => Some(DoubleValue(n))
    case Bool(_) | Other(_) =>
      match ParseDouble(Text(value))
      case Some(x) => Some(x)
      case None => def
  }

  /** `toDouble(value)`: the default is 0. */
  function ToDoubleOrZero(value: Value): real
  {
    ToDouble(value, Some(0.0)).value
  }

  /** `toFloat(value, def)`: `Float.parseFloat` accepts the text `Double.parseDouble` does;
      the result is not rounded to single precision. */
  function ToFloat(value: Value, def: Option<real>): (r: Option<real>)
    ensures value.Null? ==> r == def
  {
    ToDouble(value, def)
  }

  /** `toFloat(value)`: the default is 0. */
  function ToFloatOrZero(value: Value): real
  {
    ToFloat(value, Some(0.0)).value
  }

  // ----------------------------------------------------------- booleans

  /** `toBoolean(Number)`: false for null and for zero. */
  function NumberToBoolean(n: Option<Number>): bool
  {
    n.Some? && DoubleValue(n.value) != 0.0
  }

  /** `toBoolean(value, def)`: null gives `def`, a Number its nonzero test, a Boolean
      itself, and any other object whether its text is `true` ignoring case. */
  function ToBoolean(value: Value, def: Option<bool>): (r: Option<bool>)
    ensures value.Null? ==> r == def
    ensures !value.Null? ==> r.Some?
  {
    match value
    case Null => def
    case Num(n) => Some(NumberToBoolean(Some(n)))
    case Bool(b) => Some(b)
    case Other(t) => Some(EqualsIgnoreCase("true", t))
  }

  /** `toBoolean(value)`: the default is false. */
  function ToBooleanOrFalse(value: Value): bool
  {
    ToBoolean(value, Some(false)).value
  }

  // -------------------------------------------------------------- enums

  /** An enum constant, by its name and its position in the declaration. */
  datatype EnumConstant = EnumConstant(name: string, ordinal: nat)

  /** An enum's `Class`: `getEnumConstants()` lists its constants, or is null for a class
      that is not an enum type. */
  datatype EnumClass = EnumClass(constants: Option<seq<EnumConstant>>)

  /** The constants of an enum, as Java lists them: each at the position of its ordinal. */
  predicate Numbered(cs: seq<EnumConstant>)
  {
    forall i :: 0 <= i < |cs| ==> cs[i].ordinal == i
  }

  /** `enumToInt`: the ordinal, or null for null. */
  function EnumToInt(e: Option<EnumConstant>): (r: Option<int>)
    ensures r.Some? <==> e.Some?
    ensures r.Some? ==> r.value >= 0
  {
    if e.Some? then Some(e.value.ordinal) else None
  }

  /** `toEnumByImplicit(enumType, ordinal, def)` (and `toEnum`, which calls it): a null class
      is an error; a null ordinal, a class without constants or an ordinal outside them gives
      `def`. */
  function ToEnumByImplicit(enumType: Option<EnumClass>, ordinal: Option<int>, def: Option<EnumConstant>)
    : (r: Result<Option<EnumConstant>>)
    ensures r.Err? <==> enumType.None?
    ensures r.Err? ==> r.error == IllegalArgument
  {
    if enumType.None? then Err(IllegalArgument)
    else if ordinal.None? then Ok(def)
    else match enumType.value.constants
      case None => Ok(def)
      case Some(cs) =>
        if ordinal.value < 0 || ordinal.value >= |cs| then Ok(def) else Ok(Some(cs[ordinal.value]))
  }

  // ------------------------------------------------------------- lemmas

  /** The printed text of an int converts back to it, whatever the default. */
  lemma ToIntOfIntToString(i: int, def: Option<int>)
    requires IsInt(i)
    ensures ToInt(Other(IntToString(i)), def) == Some(i)
  {
    ParseIntOfIntToString(i);
  }

  /** The printed text of a long converts back to it, whatever the default. */
  lemma ToLongOfIntToString(i: int, def: Option<int>)
    requires IsLong(i)
    ensures ToLong(Other(IntToString(i)), def) == Some(i)
  {
    ParseIntegerOfIntToString(i, LONG_MIN, LONG_MAX);
  }

  /** The printed text of an integer converts to its value as a double or a float. */
  lemma ToDoubleOfIntToString(i: int, def: Option<real>)
    ensures ToDouble(Other(IntToString(i)), def) == Some(i as real)
    ensures ToFloat(Other(IntToString(i)), def) == Some(i as real)
  {
    ParseDoubleOfIntToString(i);
  }

  /** Decimal digits whose first character is not a digit have no value. */
  lemma {:induction false} LeadingNonDigit(s: string)
    requires s != [] && !IsDigit(s[0])
    ensures RadixValue(s, 10).None?
  {
    if |s| > 1 {
      LeadingNonDigit(s[..|s| - 1]);
    }
  }

  /** Text without a single decimal digit does not parse, so the default comes back. */
  lemma NoDigitsGivesDefault(t: string, def: Option<int>)
    requires forall k :: 0 <= k < |t| ==> !IsDigit(t[k])
    ensures ToInt(Other(t), def) == def
    ensures ToLong(Other(t), def) == def
  {
    var digits := if |t| > 0 && (t[0] == '-' || t[0] == '+') then t[1..] else t;
    if digits != [] {
      assert digits[0] == t[|t| - |digits|];
      LeadingNonDigit(digits);
    }
  }

  /** A Boolean prints as `true` or `false`, which no integer conversion accepts. */
  lemma BooleanGivesDefault(b: bool, def: Option<int>)
    ensures ToInt(Bool(b), def) == def && ToLong(Bool(b), def) == def
  {
    NoDigitsGivesDefault(Text(Bool(b)), def);
  }

  /** The one-argument forms fall back to zero: for null, and for text that is not a number. */
  lemma OneArgumentDefaults(t: string)
    requires forall k :: 0 <= k < |t| ==> !IsDigit(t[k])
    ensures ToIntOrZero(Null) == 0 && ToLongOrZero(Null) == 0
    ensures ToDoubleOrZero(Null) == 0.0 && ToFloatOrZero(Null) == 0.0 && !ToBooleanOrFalse(Null)
    ensures ToIntOrZero(Other(t)) == 0 && ToLongOrZero(Other(t)) == 0
  {
    NoDigitsGivesDefault(t, Some(0));
  }

  /** Examples of a Number being narrowed, not parsed: an int-sized integral value is kept,
      a long one keeps its low 32 bits under `toInt` and all of its value under `toLong`,
      and a fraction is cut toward zero. */
  lemma NumbersNarrow(def: Option<int>)
    ensures ToInt(Num(Integral(0x1_0000_0005)), def) == Some(5)
    ensures ToLong(Num(Integral(0x1_0000_0005)), def) == Some(0x1_0000_0005)
    ensures ToInt(Num(Integral(-7)), def) == Some(-7)
    ensures ToInt(Num(Floating(2.75)), def) == Some(2)
    ensures ToInt(Num(Floating(-2.75)), def) == Some(-2)
  {
    assert Trunc(2.75) == 2 && Trunc(-2.75) == -2;
  }

  /** `toBoolean(Object)` on a Number agrees with `toBoolean(Number)`, which is the nonzero
      test: a fraction that `toInt` would cut to 0 is still true. */
  lemma NumberTruth(n: Number, def: Option<bool>)
    ensures ToBoolean(Num(n), def) == Some(NumberToBoolean(Some(n)))
    ensures NumberToBoolean(Some(n)) <==> (n.Integral? && n.i != 0) || (n.Floating? && n.x != 0.0)
    ensures !NumberToBoolean(None)
    ensures ToBoolean(Num(Floating(0.5)), def) == Some(true) && ToInt(Num(Floating(0.5)), None) == Some(0)
  {
    assert Trunc(0.5) == 0;
  }

  /** The text `Boolean.toString` prints converts back to the boolean, for both booleans;
      and examples that the test ignores case and that other text is false. */
  lemma BooleanText(b: bool, def: Option<bool>)
    ensures ToBoolean(Other(Text(Bool(b))), def) == Some(b)
    ensures ToBoolean(Bool(b), def) == Some(b)
    ensures ToBoolean(Other("TRUE"), def) == Some(true) && ToBoolean(Other("True"), def) == Some(true)
    ensures ToBoolean(Other("yes"), def) == Some(false) && ToBoolean(Other("1"), def) == Some(false)
  {
    assert EqualsIgnoreCase("true", "true");
    assert !EqualsIgnoreCase("true", "false");
    assert EqualsIgnoreCase("true", "TRUE") by {
      assert ToLowerAscii('T') == 't' && ToLowerAscii('R') == 'r';
      assert ToLowerAscii('U') == 'u' && ToLowerAscii('E') == 'e';
    }
    assert EqualsIgnoreCase("true", "True") by {
      assert ToLowerAscii('T') == 't';
    }
  }

  /** An enum constant's ordinal selects that constant again. */
  lemma EnumRoundTrip(cs: seq<EnumConstant>, k: nat, def: Option<EnumConstant>)
    requires Numbered(cs) && k < |cs|
    ensures ToEnumByImplicit(Some(EnumClass(Some(cs))), EnumToInt(Some(cs[k])), def) == Ok(Some(cs[k]))
  {
  }

  /** A position among the constants selects the constant whose ordinal it is. */
  lemma OrdinalRoundTrip(cs: seq<EnumConstant>, ordinal: int, def: Option<EnumConstant>)
    requires Numbered(cs) && 0 <= ordinal < |cs|
    ensures var r := ToEnumByImplicit(Some(EnumClass(Some(cs))), Some(ordinal), def);
      r.Ok? && r.value.Some? && EnumToInt(r.value) == Some(ordinal)
  {
  }

  /** A null ordinal, an ordinal outside the constants, or a class without constants
      gives the default. */
  lemma EnumDefaults(cls: EnumClass, ordinal: Option<int>, def: Option<EnumConstant>)
    requires || ordinal.None?
             || cls.constants.None?
             || ordinal.value < 0
             || ordinal.value >= |cls.constants.value|
    ensures ToEnumByImplicit(Some(cls), ordinal, def) == Ok(def)
  {
  }
}
