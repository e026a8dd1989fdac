/** The pieces of `java.lang.String`, `Integer` and `Double` that the core relies on:
    decimal printing, `Integer.parseInt(s, radix)`, `Double.parseDouble`,
    `String.trim`, `String.split` and ASCII case-insensitive comparison. */
module JavaText {
  import opened Wrappers
  import opened JavaNum

  // ---------------------------------------------------------------- digits

  predicate IsDigit(c: char) { '0' <= c <= '9' }

  predicate AllDigits(s: string) { forall i :: 0 <= i < |s| ==> IsDigit(s[i]) }

  function DigitValue(c: char): nat
    requires IsDigit(c)
  {
    c as int - '0' as int
  }

  function DigitChar(d: nat): (c: char)
    requires d < 10
    ensures IsDigit(c) && DigitValue(c) == d
  {
    ('0' as int + d) as char
  }

  /** The value of a run of decimal digits, most significant digit first. */
  function DecimalValue(s: string): nat
    requires AllDigits(s)
  {
    if s == [] then 0 else 10 * DecimalValue(s[..|s| - 1]) + DigitValue(s[|s| - 1])
  }

  /** The decimal text of a natural number, without sign or leading zeros. */
  function NatToString(n: nat): (s: string)
    ensures |s| > 0 && AllDigits(s)
    ensures |s| > 1 ==> s[0] != '0'
  {
    if n < 10 then [DigitChar(n)] else NatToString(n / 10) + [DigitChar(n % 10)]
  }

  /** Reading back the printed digits gives the number. */
  lemma {:induction false} NatToStringValue(n: nat)
    ensures DecimalValue(NatToString(n)) == n
  {
    if n >= 10 {
      var s := NatToString(n);
      assert s[..|s| - 1] == NatToString(n / 10);
      NatToStringValue(n / 10);
    }
  }

  /** `Integer.toString(i)`: a minus sign for negative numbers, then the digits. */
  function IntToString(i: int): (s: string)
    ensures |s| > 0 && s[0] != ',' && s[|s| - 1] != ','
  {
    if i < 0 then "-" + NatToString(-i) else NatToString(i)
  }

  /** The characters of `s` that are decimal digits, in order. */
  function KeepDigits(s: string): (r: string)
    ensures AllDigits(r) && |r| <= |s|
  {
    if s == [] then []
    else if IsDigit(s[|s| - 1]) then KeepDigits(s[..|s| - 1]) + [s[|s| - 1]]
    else KeepDigits(s[..|s| - 1])
  }

  lemma {:induction false} KeepDigitsOfDigits(s: string)
    requires AllDigits(s)
    ensures KeepDigits(s) == s
  {
    if s != [] {
      KeepDigitsOfDigits(s[..|s| - 1]);
    }
  }

  /** Filtering distributes over concatenation. */
  lemma {:induction false} KeepDigitsAppend(s: string, t: string)
    ensures KeepDigits(s + t) == KeepDigits(s) + KeepDigits(t)
    decreases |t|
  {
    if t == [] {
      assert s + t == s;
    } else {
      assert (s + t)[..|s + t| - 1] == s + t[..|t| - 1];
      KeepDigitsAppend(s, t[..|t| - 1]);
    }
  }

  // ---------------------------------------------------------- radix parsing

  /** `Character.digit(c, radix)` on ASCII letters and digits. */
  function DigitIn(c: char, radix: nat): (d: Option<nat>)
    ensures d.Some? ==> d.value < radix
  {
    var v :=
      if '0' <= c <= '9' then c as int - '0' as int
      else if 'a' <= c <= 'z' then c as int - 'a' as int + 10
      else if 'A' <= c <= 'Z' then c as int - 'A' as int + 10
      else radix;
    if v < radix then Some(v) else None
  }

  /** The value of a run of digits in the given radix; `None` if some character is not one. */
  function RadixValue(s: string, radix: nat): Option<nat>
  {
    if s == [] then Some(0)
    else match (RadixValue(s[..|s| - 1], radix), DigitIn(s[|s| - 1], radix))
      case (Some(hi), Some(lo)) => Some(radix * hi + lo)
      case _ => None
  }

  /** `Integer.parseInt(s, radix)` (with `lo, hi` the int range) and `Long.parseLong`
      (the long range): an optional sign, at least one digit, and a value in range. */
  function ParseInteger(s: string, radix: nat, lo: int, hi: int): (r: Option<int>)
    ensures r.Some? ==> lo <= r.value <= hi
  {
    var neg := |s| > 0 && s[0] == '-';
    var digits := if |s| > 0 && (s[0] == '-' || s[0] == '+') then s[1..] else s;
    if digits == [] then None
    else match RadixValue(digits, radix)
      case None => None
      case Some(v) =>
        var x := if neg then -(v as int) else v as int;
        if lo <= x <= hi then Some(x) else None
  }

  function ParseInt(s: string, radix: nat): (r: Option<int>)
    ensures r.Some? ==> IsInt(r.value)
  {
    ParseInteger(s, radix, INT_MIN, INT_MAX)
  }

  lemma {:induction false} RadixValueDecimal(s: string)
    requires AllDigits(s)
    ensures RadixValue(s, 10) == Some(DecimalValue(s))
  {
    if s != [] {
      RadixValueDecimal(s[..|s| - 1]);
    }
  }

  /** Parsing the printed decimal text of an int gives the int back. */
  lemma ParseIntOfIntToString(i: int)
    requires IsInt(i)
    ensures ParseInt(IntToString(i), 10) == Some(i)
  {
    ParseIntegerOfIntToString(i, INT_MIN, INT_MAX);
  }

  /** Parsing the printed decimal text of an integer within the bounds gives it back. */
  lemma ParseIntegerOfIntToString(i: int, lo: int, hi: int)
    requires lo <= i <= hi
    ensures ParseInteger(IntToString(i), 10, lo, hi) == Some(i)
  {
    var n := if i < 0 then -i else i;
    var t := NatToString(n);
    NatToStringValue(n);
    RadixValueDecimal(t);
    if i < 0 {
      assert IntToString(i)[1..] == t;
    }
  }

  // ------------------------------------------------------------------- trim

  /** `String.trim` removes every leading and trailing character up to U+0020. */
  predicate IsSpace(c: char) { c <= ' ' }

  /** How many blanks `s` starts with. */
  function LeadingSpaces(s: string): (n: nat)
    ensures n <= |s|
    ensures n < |s| ==> !IsSpace(s[n])
  {
    if s != [] && IsSpace(s[0]) then 1 + LeadingSpaces(s[1..]) else 0
  }

  /** How many blanks `s` ends with. */
  function TrailingSpaces(s: string): (n: nat)
    ensures n <= |s|
    ensures n < |s| ==> !IsSpace(s[|s| - 1 - n])
  {
    if s != [] && IsSpace(s[|s| - 1]) then 1 + TrailingSpaces(s[..|s| - 1]) else 0
  }

  function Trim(s: string): (r: string)
    ensures r != [] ==> !IsSpace(r[0]) && !IsSpace(r[|r| - 1])
  {
    var t := s[LeadingSpaces(s)..];
    t[..|t| - TrailingSpaces(t)]
  }

  /** Trimming leaves text without surrounding blanks unchanged. */
  lemma TrimNoSpace(s: string)
    requires s == [] || (!IsSpace(s[0]) && !IsSpace(s[|s| - 1]))
    ensures Trim(s) == s
  {
    assert s[0..] == s;
  }

  /** Trimming twice is trimming once. */
  lemma TrimIdempotent(s: string)
    ensures Trim(Trim(s)) == Trim(s)
  {
    TrimNoSpace(Trim(s));
  }

  // ---------------------------------------------------------- parseDouble

  /** The length of the longest run of decimal digits at the start of `s`. */
  function LeadingDigits(s: string): (n: nat)
    ensures n <= |s| && AllDigits(s[..n])
    ensures n < |s| ==> !IsDigit(s[n])
  {
    if s != [] && IsDigit(s[0]) then
      var n := 1 + LeadingDigits(s[1..]);
      assert s[..n] == [s[0]] + s[1..][..n - 1];
      n
    else 0
  }

  /** `m * 10^e` for an integer exponent of either sign. */
  function Scale(m: real, e: int): real
    decreases if e >= 0 then e else -e
  {
    if e == 0 then m
    else if e > 0 then Scale(m, e - 1) * 10.0
    else Scale(m, e + 1) / 10.0
  }

  /** The optional exponent `[eE][+-]?digits` at the start of `s`: its value and the rest. */
  function ParseExponent(s: string): Option<(int, string)>
  {
    if s == [] || (s[0] != 'e' && s[0] != 'E') then Some((0, s))
    else
      var t := s[1..];
      var neg := |t| > 0 && t[0] == '-';
      var u := if |t| > 0 && (t[0] == '-' || t[0] == '+') then t[1..] else t;
      var n := LeadingDigits(u);
      if n == 0 then None
      else
        var v: int := DecimalValue(u[..n]);
        Some((if neg then -v else v, u[n..]))
  }

  /** Unsigned decimal text: digits with an optional fraction (at least one digit
      in all), an optional exponent and an optional `f`, `F`, `d` or `D` suffix. */
  function ParseUnsignedDecimal(body: string): Option<real>
  {
    var n1 := LeadingDigits(body);
    var rest1 := body[n1..];
    var hasDot := |rest1| > 0 && rest1[0] == '.';
    var afterDot := if hasDot then rest1[1..] else rest1;
    var n2 := if hasDot then LeadingDigits(afterDot) else 0;
    if n1 + n2 == 0 then None
    else match ParseExponent(afterDot[n2..])
      case None => None
      case Some((e, tail)) =>
        if tail == [] || tail in ["f", "F", "d", "D"] then
          assert AllDigits(body[..n1] + afterDot[..n2]);
          Some(Scale(DecimalValue(body[..n1] + afterDot[..n2]) as real, e - n2))
        else None
  }

  /** `Double.parseDouble` on decimal text: surrounding blanks are trimmed, then an
      optional sign precedes unsigned decimal text. The value is the exact rational
      the text denotes. */
  function ParseDouble(text: string): Option<real>
  {
    var s := Trim(text);
    if |s| > 0 && (s[0] == '-' || s[0] == '+') then
      match ParseUnsignedDecimal(s[1..])
      case None => None
      case Some(v) => Some(if s[0] == '-' then -v else v)
    else ParseUnsignedDecimal(s)
  }

  /** A run of digits reads as its value. */
  lemma ParseUnsignedOfDigits(t: string)
    requires |t| > 0 && AllDigits(t)
    ensures ParseUnsignedDecimal(t) == Some(DecimalValue(t) as real)
  {
    LeadingDigitsAll(t);
    var empty: string := [];
    assert t[LeadingDigits(t)..] == empty;
    assert ParseExponent(empty) == Some((0, empty));
    assert t[..LeadingDigits(t)] + empty[..0] == t;
  }

  /** Parsing the printed decimal text of an integer gives the integer back. */
  lemma ParseDoubleOfIntToString(i: int)
    ensures ParseDouble(IntToString(i)) == Some(i as real)
  {
    var n := if i < 0 then -i else i;
    var t := NatToString(n);
    NatToStringValue(n);
    ParseUnsignedOfDigits(t);
    var s := IntToString(i);
    TrimNoSpace(s);
    if i < 0 {
      assert s[1..] == t;
      ParseDoubleNegative(s, n as real);
    } else {
      ParseDoubleUnsigned(s);
    }
  }

  /** Trimmed text with a leading minus reads as the negated value of the rest. */
  lemma ParseDoubleNegative(s: string, v: real)
    requires |s| > 1 && s[0] == '-' && Trim(s) == s
    requires ParseUnsignedDecimal(s[1..]) == Some(v)
    ensures ParseDouble(s) == Some(-v)
  {
  }

  /** Trimmed text starting with a digit reads as unsigned decimal text. */
  lemma ParseDoubleUnsigned(s: string)
    requires |s| > 0 && IsDigit(s[0]) && Trim(s) == s
    ensures ParseDouble(s) == ParseUnsignedDecimal(s)
  {
  }

  lemma {:induction false} LeadingDigitsAll(s: string)
    requires AllDigits(s)
    ensures LeadingDigits(s) == |s|
  {
    if s != [] {
      LeadingDigitsAll(s[1..]);
    }
  }

  // ------------------------------------------------------------------ split

  /** Every piece of `s` between occurrences of `sep`, including empty pieces. */
  function SplitAll(s: string, sep: char): (r: seq<string>)
    ensures |r| >= 1
    ensures forall k :: 0 <= k < |r| ==> sep !in r[k]
  {
    if s == [] then [""]
    else
      var rest := SplitAll(s[1..], sep);
      if s[0] == sep then [""] + rest
      else [[s[0]] + rest[0]] + rest[1..]
  }

  /** The pieces without their trailing empty ones. */
  function DropTrailingEmpty(parts: seq<string>): (r: seq<string>)
    ensures r <= parts
    ensures r != [] ==> r[|r| - 1] != ""
    ensures forall k :: |r| <= k < |parts| ==> parts[k] == ""
  {
    if parts == [] || parts[|parts| - 1] != "" then parts
    else DropTrailingEmpty(parts[..|parts| - 1])
  }

  /** `String.split` with a one-character pattern and no limit: text without the
      separator is returned whole; otherwise trailing empty pieces are removed. */
  function Split(s: string, sep: char): (r: seq<string>)
    ensures forall k :: 0 <= k < |r| ==> sep !in r[k]
  {
    if sep !in s then [s] else DropTrailingEmpty(SplitAll(s, sep))
  }

  /** The pieces joined by the separator. */
  function Join(parts: seq<string>, sep: string): string
    requires |parts| >= 1
  {
    if |parts| == 1 then parts[0] else parts[0] + sep + Join(parts[1..], sep)
  }

  /** Splitting joined pieces that do not hold the separator gives the pieces back. */
  lemma {:induction false} SplitAllJoin(parts: seq<string>, sep: char)
    requires |parts| >= 1
    requires forall k :: 0 <= k < |parts| ==> sep !in parts[k]
    ensures SplitAll(Join(parts, [sep]), sep) == parts
    decreases |parts|, |parts[0]|
  {
    var p := parts[0];
    if p == [] {
      if |parts| > 1 {
        assert Join(parts, [sep]) == [sep] + Join(parts[1..], [sep]);
        assert Join(parts, [sep])[1..] == Join(parts[1..], [sep]);
        SplitAllJoin(parts[1..], sep);
      }
    } else {
      var shorter := [p[1..]] + parts[1..];
      assert Join(parts, [sep]) == [p[0]] + Join(shorter, [sep]) by {
        if |parts| > 1 {
          assert shorter[1..] == parts[1..];
        }
      }
      assert Join(parts, [sep])[1..] == Join(shorter, [sep]);
      assert sep !in shorter[0] by {
        assert forall c :: c in p[1..] ==> c in p;
      }
      SplitAllJoin(shorter, sep);
      assert [p[0]] + p[1..] == p;
    }
  }

  /** `split` on pieces joined by the separator, the last one not empty, gives the pieces. */
  lemma SplitJoin(parts: seq<string>, sep: char)
    requires |parts| >= 1 && parts[|parts| - 1] != ""
    requires forall k :: 0 <= k < |parts| ==> sep !in parts[k]
    ensures Split(Join(parts, [sep]), sep) == parts
  {
    SplitAllJoin(parts, sep);
    if |parts| > 1 {
      assert Join(parts, [sep])[|parts[0]|] == sep;
    }
  }

  // --------------------------------------------------------- case folding

  function ToLowerAscii(c: char): char
  {
    if 'A' <= c <= 'Z' then (c as int - 'A' as int + 'a' as int) as char else c
  }

  /** `String.equalsIgnoreCase`, with case folding limited to ASCII letters. */
  predicate EqualsIgnoreCase(a: string, b: string)
  {
    |a| == |b| && forall i :: 0 <= i < |a| ==> ToLowerAscii(a[i]) == ToLowerAscii(b[i])
  }
}
