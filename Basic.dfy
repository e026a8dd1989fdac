/** `colorpad.core.Basic`: the numeric and text helpers shared by the colour models. */
module Basic {
  import opened Wrappers
  import opened JavaNum
  import opened JavaText

  /** Tolerance of `decimalEquals`. */
  const PRECISION: real := 0.000001

  // ------------------------------------------------------------ fIntValue

  /** What `fIntValue` computes: the digits of `s` read as one decimal number, in
      32-bit arithmetic, then negated (in 32-bit arithmetic again) when `s` starts with a
      minus sign. An empty string has no first character to inspect. */
  function FIntValueOf(s: string): (r: Result<int>)
    ensures r.Ok? <==> s != []
    ensures r.Err? ==> r.error == IndexOutOfBounds
    ensures r.Ok? ==> IsInt(r.value)
  {
    if s == [] then Err(IndexOutOfBounds)
    else
      var num := Wrap32(DecimalValue(KeepDigits(s)));
      if s[0] == '-' then Ok(Wrap32(-num)) else Ok(num)
  }

  /** `fIntValue`: accumulates every ASCII digit of `s`, skipping other characters. */
  method FIntValue(s: string) returns (r: Result<int>)
    ensures r == FIntValueOf(s)
  {
    if s == [] {
      return Err(IndexOutOfBounds);
    }
    var num := 0;
    var i := 0;
    while i < |s|
      invariant 0 <= i <= |s|
      invariant num == Wrap32(DecimalValue(KeepDigits(s[..i])))
    {
      FIntDigitStep(s, i, num);
      if IsDigit(s[i]) {
        num := Wrap32(num * 10 + DigitValue(s[i]));
      }
      i := i + 1;
    }
    assert s[..|s|] == s;
    if s[0] == '-' {
      num := Wrap32(-num);
    }
    r := Ok(num);
  }

  /** Wrapping after every step, as the loop does, gives the wrap of the exact signed value. */
  lemma FIntValueOfExact(s: string)
    requires s != []
    ensures var x := DecimalValue(KeepDigits(s));
      FIntValueOf(s) == Ok(Wrap32(if s[0] == '-' then -(x as int) else x))
  {
    var x := DecimalValue(KeepDigits(s));
    assert FIntValueOf(s) == Ok(if s[0] == '-' then Wrap32(-Wrap32(x)) else Wrap32(x));
    Wrap32Sign(x, s[0] == '-');
  }

  /** One more character of `s`: a digit is accumulated in int arithmetic, anything else skipped. */
  lemma FIntDigitStep(s: string, i: int, num: int)
    requires 0 <= i < |s| && num == Wrap32(DecimalValue(KeepDigits(s[..i])))
    ensures Wrap32(DecimalValue(KeepDigits(s[..i + 1])))
      == if IsDigit(s[i]) then Wrap32(num * 10 + DigitValue(s[i])) else num
  {
    var c, k := s[i], KeepDigits(s[..i]);
    assert s[..i + 1] == s[..i] + [c];
    KeepDigitsAppend(s[..i], [c]);
    if IsDigit(c) {
      assert KeepDigits([c]) == [c];
      assert KeepDigits(s[..i + 1]) == k + [c];
      DecimalAppendWrapped(k, c);
    } else {
      assert KeepDigits([c]) == [];
      assert KeepDigits(s[..i + 1]) == k + [] == k;
    }
  }

  /** Appending a digit multiplies by ten and adds the digit, also in int arithmetic. */
  lemma DecimalAppendWrapped(k: string, c: char)
    requires AllDigits(k) && IsDigit(c)
    ensures Wrap32(DecimalValue(k + [c])) == Wrap32(Wrap32(DecimalValue(k)) * 10 + DigitValue(c))
  {
    var x, d := DecimalValue(k), DigitValue(c);
    assert (k + [c])[..|k|] == k;
    assert DecimalValue(k + [c]) == 10 * x + d;
    Wrap32Step(x, 10, d);
  }



  /** On digit text whose value fits an int, `fIntValue` is the decimal value ... */
  lemma FIntValueOfDecimal(t: string)
    requires t != [] && AllDigits(t) && DecimalValue(t) <= INT_MAX
    ensures FIntValueOf(t) == Ok(DecimalValue(t))
  {
    var n := DecimalValue(t);
    assert KeepDigits(t) == t by {
      KeepDigitsOfDigits(t);
    }
    assert t[0] != '-' && IsInt(n);
    assert FIntValueOf(t) == Ok(Wrap32(n));
  }

  /** ... and a leading minus sign negates it. */
  lemma FIntValueOfNegated(t: string)
    requires AllDigits(t) && DecimalValue(t) <= INT_MAX
    ensures FIntValueOf("-" + t) == Ok(-(DecimalValue(t) as int))
  {
    var s := "-" + t;
    assert KeepDigits(s) == t by {
      KeepDigitsOfDigits(t);
      KeepDigitsAppend("-", t);
      assert KeepDigits("-") == [];
    }
    var n := DecimalValue(t);
    assert s[0] == '-';
    assert FIntValueOf(s) == Ok(Wrap32(-(n as int)));
  }

  // --------------------------------------------------------------- fRound

  /** `fRound`: `(int) Math.round(value)`, the nearest int with ties rounded up. */
  function FRound(value: real): (r: int)
    ensures IsInt(r)
    ensures INT_MIN as real - 0.5 <= value < INT_MAX as real + 0.5 ==>
              r as real - 0.5 <= value < r as real + 0.5
  {
    RoundToInt(value)
  }

  // ---------------------------------------------------------- getFixRange

  /** `getFixRange(int, int, int)`: clamps `value` to `[lower, upper]`; the upper bound is
      tested first. */
  function GetFixRange(value: int, lower: int, upper: int): (r: int)
    ensures lower <= upper ==> lower <= r <= upper
    ensures lower <= value <= upper ==> r == value
    ensures r == value || r == lower || r == upper
    ensures value > upper ==> r == upper
  {
    if value > upper then upper else if value < lower then lower else value
  }

  /** `getFixRange(double, double, double)`: the same clamp on doubles. */
  function GetFixRangeReal(value: real, lower: real, upper: real): (r: real)
    ensures lower <= upper ==> lower <= r <= upper
    ensures lower <= value <= upper ==> r == value
    ensures r == value || r == lower || r == upper
    ensures value > upper ==> r == upper
  {
    if value > upper then upper else if value < lower then lower else value
  }

  /** Clamping twice is clamping once. */
  lemma GetFixRangeIdempotent(value: int, lower: int, upper: int)
    requires lower <= upper
    ensures GetFixRange(GetFixRange(value, lower, upper), lower, upper) == GetFixRange(value, lower, upper)
  {
  }

  // -------------------------------------------------------- decimalEquals

  function Abs(x: real): real { if x < 0.0 then -x else x }

  /** `decimalEquals`: the two doubles are closer than `PRECISION`. */
  predicate DecimalEquals(left: real, right: real)
  {
    Abs(left - right) < PRECISION
  }

  /** The tolerance comparison is reflexive and symmetric ... */
  lemma DecimalEqualsReflexiveSymmetric(x: real, y: real)
    ensures DecimalEquals(x, x)
    ensures DecimalEquals(x, y) <==> DecimalEquals(y, x)
  {
  }

  /** ... but not transitive, so the `equals` built on it is not an equivalence. */
  lemma DecimalEqualsNotTransitive()
    ensures DecimalEquals(0.0, 0.0000006) && DecimalEquals(0.0000006, 0.0000012)
    ensures !DecimalEquals(0.0, 0.0000012)
  {
  }

  // ---------------------------------------------------- extractFromString

  /** `isEmpty(String)`: null or of length zero. */
  predicate IsEmpty(s: JString)
  {
    s.None? || s.value == ""
  }

  /** Every piece parsed by `parse`, or `None` as soon as one piece does not parse. The
      parser is a parameter so that facts about the traversal do not depend on how a
      single piece is read. */
  function ParseAll(parts: seq<string>, parse: string -> Option<real>): (r: Option<seq<real>>)
    ensures r.Some? ==> |r.value| == |parts|
  {
    if parts == [] then Some([])
    else match (ParseAll(parts[..|parts| - 1], parse), parse(parts[|parts| - 1]))
      case (Some(init), Some(last)) => Some(init + [last])
      case _ => None
  }

  /** `ParseAll` succeeds exactly when every piece parses, and then holds each piece's value. */
  lemma {:induction false} ParseAllPieces(parts: seq<string>, parse: string -> Option<real>)
    ensures ParseAll(parts, parse).Some? <==> forall k :: 0 <= k < |parts| ==> parse(parts[k]).Some?
    ensures ParseAll(parts, parse).Some? ==>
              forall k :: 0 <= k < |parts| ==> parse(parts[k]) == Some(ParseAll(parts, parse).value[k])
  {
    if parts != [] {
      var n := |parts| - 1;
      ParseAllPieces(parts[..n], parse);
      assert forall k :: 0 <= k < n ==> parts[..n][k] == parts[k];
    }
  }

  /** What `extractFromString` returns: null or empty text gives no numbers; otherwise
      the comma-separated pieces, each parsed as a double, or no numbers at all when
      any piece fails to parse. */
  function Extract(color: JString): (r: seq<real>)
  {
    if IsEmpty(color) then []
    else match ParseAll(Split(color.value, ','), ParseDouble)
      case Some(values) => values
      case None => []
  }

  /** The shared shape of the three-component `fromString` methods: `extract`, then
      IllegalArgumentException unless exactly three numbers came out, then the model's
      own `from` on them. */
  function FromThree<T>(color: JString, from: (real, real, real) -> Result<T>): (res: Result<T>)
    ensures |Extract(color)| != 3 ==> res == Err(IllegalArgument)
    ensures |Extract(color)| == 3 ==>
              var v := Extract(color);
              res == from(v[0], v[1], v[2])
  {
    var cm := Extract(color);
    if |cm| != 3 then Err(IllegalArgument) else from(cm[0], cm[1], cm[2])
  }

  /** `extractFromString`: fills an array with the parsed pieces and gives up with
      the shared empty array at the first piece that does not parse. */
  method ExtractFromString(color: JString) returns (a: array<real>)
    ensures a[..] == Extract(color)
  {
    if IsEmpty(color) {
      return new real[0];
    }
    a := ParsePieces(Split(color.value, ','), ParseDouble);
  }

  /** The loop of `extractFromString`, for any piece parser. */
  method ParsePieces(parts: seq<string>, parse: string -> Option<real>) returns (a: array<real>)
    ensures ParseAll(parts, parse).Some? ==> a[..] == ParseAll(parts, parse).value
    ensures ParseAll(parts, parse).None? ==> a[..] == []
  {
    a := new real[|parts|];
    var i := 0;
    while i < |parts|
      invariant 0 <= i <= |parts|
      invariant ParseAll(parts[..i], parse) == Some(a[..i])
    {
      var v := parse(parts[i]);
      ParseAllStep(parts, i, parse);
      if v.None? {
        NoneExtends(parts, i + 1, parse);
        return new real[0];
      }
      ghost var done := a[..i];
      a[i] := v.value;
      assert a[..i + 1] == done + [v.value];
      i := i + 1;
    }
    assert parts[..|parts|] == parts;
    assert a[..|parts|] == a[..];
  }

  /** One more piece: `ParseAll` of a longer prefix from that of the shorter one. */
  lemma ParseAllStep(parts: seq<string>, i: nat, parse: string -> Option<real>)
    requires i < |parts|
    ensures ParseAll(parts[..i + 1], parse) ==
      if ParseAll(parts[..i], parse).Some? && parse(parts[i]).Some?
      then Some(ParseAll(parts[..i], parse).value + [parse(parts[i]).value])
      else None
  {
    assert parts[..i + 1][..i] == parts[..i];
    assert parts[..i + 1][i] == parts[i];
  }

  /** Once a prefix of the pieces fails to parse, so do all the pieces. */
  lemma {:induction false} NoneExtends(parts: seq<string>, i: nat, parse: string -> Option<real>)
    requires i <= |parts| && ParseAll(parts[..i], parse).None?
    ensures ParseAll(parts, parse).None?
    decreases |parts| - i
  {
    if i < |parts| {
      assert parts[..i + 1][..i] == parts[..i];
      NoneExtends(parts, i + 1, parse);
    } else {
      assert parts[..i] == parts;
    }
  }

  /** `extractFromStringAsInt`: every extracted number rounded half up to an int. */
  function ExtractAsInt(color: JString): (r: seq<int>)
    ensures |r| == |Extract(color)|
    ensures forall k :: 0 <= k < |r| ==> IsInt(r[k])
    ensures forall k :: 0 <= k < |r| && INT_MIN as real <= Extract(color)[k] <= INT_MAX as real ==>
              r[k] as real - 0.5 <= Extract(color)[k] < r[k] as real + 0.5
  {
    var e := Extract(color);
    seq(|e|, k requires 0 <= k < |e| => FRound(e[k]))
  }

  /** The decimal texts of some ints. */
  function IntTexts(xs: seq<int>): (r: seq<string>)
    ensures |r| == |xs|
    ensures forall k :: 0 <= k < |xs| ==> r[k] == IntToString(xs[k])
  {
    if xs == [] then [] else IntTexts(xs[..|xs| - 1]) + [IntToString(xs[|xs| - 1])]
  }

  /** The ints as doubles. */
  function IntReals(xs: seq<int>): (r: seq<real>)
    ensures |r| == |xs|
    ensures forall k :: 0 <= k < |xs| ==> r[k] == xs[k] as real
  {
    if xs == [] then [] else IntReals(xs[..|xs| - 1]) + [xs[|xs| - 1] as real]
  }

  /** The decimal texts of some ints separated by `sep`, as the integer models'
      `toString(separator)` print their components. */
  function FormatInts(xs: seq<int>, sep: string): string
    requires |xs| >= 1
  {
    Join(IntTexts(xs), sep)
  }

  /** Every printed int parses back as a double. */
  lemma {:induction false} ParseAllIntTexts(xs: seq<int>)
    ensures ParseAll(IntTexts(xs), ParseDouble) == Some(IntReals(xs))
  {
    if xs != [] {
      var n := |xs| - 1;
      var texts := IntTexts(xs);
      assert texts[..n] == IntTexts(xs[..n]);
      assert ParseAll(texts[..n], ParseDouble) == Some(IntReals(xs[..n])) by {
        ParseAllIntTexts(xs[..n]);
      }
      assert ParseDouble(texts[n]) == Some(xs[n] as real) by {
        ParseDoubleOfIntToString(xs[n]);
      }
    }
  }

  /** Printing ints comma-separated and extracting them gives the same numbers back. */
  lemma ExtractFormatInts(xs: seq<int>)
    requires |xs| >= 1
    ensures Extract(Some(FormatInts(xs, ","))) == IntReals(xs)
  {
    SplitFormatInts(xs);
    ParseAllIntTexts(xs);
    ExtractOfPieces(FormatInts(xs, ","), IntReals(xs));
  }

  /** The comma-separated ints split back into their texts. */
  lemma SplitFormatInts(xs: seq<int>)
    requires |xs| >= 1
    ensures FormatInts(xs, ",") != "" && Split(FormatInts(xs, ","), ',') == IntTexts(xs)
  {
    var texts := IntTexts(xs);
    forall k | 0 <= k < |texts| ensures ',' !in texts[k] {
      IntToStringNoComma(xs[k]);
    }
    assert FormatInts(xs, ",") == Join(texts, [',']);
    SplitJoin(texts, ',');
    JoinNonEmpty(texts, ",");
  }

  /** Non-empty text whose pieces all parse extracts to their values. */
  lemma ExtractOfPieces(text: string, values: seq<real>)
    requires text != "" && ParseAll(Split(text, ','), ParseDouble) == Some(values)
    ensures Extract(Some(text)) == values
  {
  }


  /** ... and rounding them to ints gives the ints back. */
  lemma ExtractAsIntFormatInts(xs: seq<int>)
    requires |xs| >= 1 && forall k :: 0 <= k < |xs| ==> IsInt(xs[k])
    ensures ExtractAsInt(Some(FormatInts(xs, ","))) == xs
  {
    ExtractFormatInts(xs);
    forall k | 0 <= k < |xs|
      ensures ExtractAsInt(Some(FormatInts(xs, ",")))[k] == xs[k]
    {
      RoundToIntOfInt(xs[k]);
    }
  }

  lemma IntToStringNoComma(i: int)
    ensures ',' !in IntToString(i)
  {
    var s := IntToString(i);
    var t := NatToString(if i < 0 then -i else i);
    assert forall c :: c in t ==> IsDigit(c);
    if i < 0 {
      assert forall c :: c in s ==> c == '-' || c in t;
    }
  }

  lemma {:induction false} JoinNonEmpty(parts: seq<string>, sep: string)
    requires |parts| >= 1 && parts[0] != ""
    ensures Join(parts, sep) != ""
  {
  }

  // ------------------------------------------------------------- parseHex

  /** `parseHex`: `Integer.parseInt(s, 16)`, a parse failure reported as IllegalArgumentException. */
  function ParseHex(s: string): (r: Result<int>)
    ensures r.Ok? ==> IsInt(r.value)
    ensures r.Err? ==> r.error == IllegalArgument
    ensures r.Ok? <==> ParseInt(s, 16).Some?
  {
    match ParseInt(s, 16)
    case Some(v) => Ok(v)
    case None => Err(IllegalArgument)
  }

  // ------------------------------------------------------ toLengthSixHex

  function HexDigitChar(d: nat, upper: bool): (c: char)
    requires d < 16
    ensures DigitIn(c, 16) == Some(d)
  {
    if d < 10 then ('0' as int + d) as char
    else if upper then ('A' as int + d - 10) as char
    else ('a' as int + d - 10) as char
  }

  /** The last `n` hexadecimal digits of `v`, most significant first. */
  function HexDigits(v: nat, n: nat, upper: bool): (s: string)
    ensures |s| == n
  {
    if n == 0 then [] else HexDigits(v / 16, n - 1, upper) + [HexDigitChar(v % 16, upper)]
  }

  /** `toLengthSixHex(value, upper)`: six hexadecimal digits of a 24-bit value. */
  function ToLengthSixHex(value: nat, upper: bool): (s: string)
    requires value < 0x100_0000
    ensures |s| == 6
    ensures forall i :: 0 <= i < 6 ==> DigitIn(s[i], 16).Some?
  {
    var s := HexDigits(value, 6, upper);
    HexDigitsAreDigits(value, 6, upper);
    s
  }

  lemma {:induction false} HexDigitsAreDigits(v: nat, n: nat, upper: bool)
    ensures forall i :: 0 <= i < n ==> DigitIn(HexDigits(v, n, upper)[i], 16).Some?
  {
    if n > 0 {
      HexDigitsAreDigits(v / 16, n - 1, upper);
    }
  }

  lemma {:induction false} HexDigitsValue(v: nat, n: nat, upper: bool)
    ensures RadixValue(HexDigits(v, n, upper), 16) == Some(v % Pow16(n))
  {
    if n > 0 {
      var s := HexDigits(v, n, upper);
      var lo := v % 16;
      assert s[..|s| - 1] == HexDigits(v / 16, n - 1, upper) && s[|s| - 1] == HexDigitChar(lo, upper);
      HexDigitsValue(v / 16, n - 1, upper);
      var hi := (v / 16) % Pow16(n - 1);
      assert RadixValue(s, 16) == Some(16 * hi + lo);
      DivModPow16(v, n);
    }
  }

  function Pow16(n: nat): (p: nat)
    ensures p >= 1
  {
    if n == 0 then 1 else 16 * Pow16(n - 1)
  }

  lemma DivModPow16(v: nat, n: nat)
    requires n > 0
    ensures 16 * ((v / 16) % Pow16(n - 1)) + v % 16 == v % Pow16(n)
  {
    var p := Pow16(n - 1);
    var q := (v / 16) / p;
    var m := (v / 16) % p;
    assert v / 16 == q * p + m;
    assert v == 16 * (v / 16) + v % 16;
    assert v == q * (16 * p) + (16 * m + v % 16);
    assert 0 <= 16 * m + v % 16 < 16 * p;
    DivModUnique(v, 16 * p, q, 16 * m + v % 16);
  }

  /** The six hex digits of a 24-bit value parse back to the value. */
  lemma ParseHexOfSixHex(value: nat, upper: bool)
    requires value < 0x100_0000
    ensures ParseHex(ToLengthSixHex(value, upper)) == Ok(value)
  {
    var s := ToLengthSixHex(value, upper);
    HexDigitsValue(value, 6, upper);
    assert Pow16(6) == 0x100_0000;
    assert DigitIn(s[0], 16).Some?;
    assert s[0] != '-' && s[0] != '+';
  }

  // -------------------------------------------------------------- padLeft

  /** `padLeft`: as many fill characters as `target` is shorter than `length`, then `target`. */
  method PadLeft(target: string, length: int, filled: char) returns (r: string)
    ensures |r| == if length > |target| then length else |target|
    ensures r[|r| - |target|..] == target
    ensures forall i :: 0 <= i < |r| - |target| ==> r[i] == filled
  {
    var builder := "";
    var i := 0;
    while i < length - |target|
      invariant 0 <= i && |builder| == i
      invariant i <= if length - |target| > 0 then length - |target| else 0
      invariant forall k :: 0 <= k < i ==> builder[k] == filled
    {
      builder := builder + [filled];
      i := i + 1;
    }
    r := builder + target;
  }
}
