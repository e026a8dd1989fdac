/** `toolkit.Common`: the digit filter `getValue` and the int conversion `cInt` that the
    colour panels apply, in that order, to the text of a channel field. */
module Common {
  import opened Wrappers
  import opened JavaNum
  import opened JavaText
  import Convert

  /** `getValue(raw)`: the characters of `raw` that are digits, appended in order. */
  method GetValue(raw: string) returns (fixed: string)
    ensures fixed == KeepDigits(raw)
  {
    fixed := "";
    var i := 0;
    while i < |raw|
      invariant 0 <= i <= |raw|
      invariant fixed == KeepDigits(raw[..i])
    {
      assert raw[..i + 1][..i] == raw[..i];
      if IsDigit(raw[i]) {
        fixed := fixed + [raw[i]];
      }
      i := i + 1;
    }
    assert raw[..i] == raw;
  }

  /** `cInt(s)`: `Convert.toInt(s, 0)`; a null string is null. */
  function CInt(s: JString): (r: int)
    ensures IsInt(r)
    ensures s.None? ==> r == 0
  {
    Convert.ToInt(if s.Some? then Convert.Other(s.value) else Convert.Null, Some(0)).value
  }

  // ------------------------------------------------------------- lemmas

  /** The filter keeps a single character exactly when it is a digit; with
      `KeepDigitsAppend` this fixes the result of every text: the digits, in order. */
  lemma KeepDigitsChar(c: char)
    ensures KeepDigits([c]) == if IsDigit(c) then [c] else []
  {
    assert [c][..0] == [];
  }

  /** Each digit occurs in the result as often as in the input; nothing else occurs. */
  lemma {:induction false} KeepDigitsCount(s: string, c: char)
    ensures multiset(KeepDigits(s))[c] == if IsDigit(c) then multiset(s)[c] else 0
  {
    if s != [] {
      var init := s[..|s| - 1];
      KeepDigitsCount(init, c);
      assert s == init + [s[|s| - 1]];
      assert multiset(s) == multiset(init) + multiset{s[|s| - 1]};
    }
  }

  /** Text without digits filters to the empty string. */
  lemma {:induction false} KeepDigitsNone(s: string)
    requires forall k :: 0 <= k < |s| ==> !IsDigit(s[k])
    ensures KeepDigits(s) == ""
  {
    if s != [] {
      KeepDigitsNone(s[..|s| - 1]);
    }
  }

  /** Filtering twice is filtering once. */
  lemma KeepDigitsIdempotent(s: string)
    ensures KeepDigits(KeepDigits(s)) == KeepDigits(s)
  {
    KeepDigitsOfDigits(KeepDigits(s));
  }

  /** The printed text of an int converts back to it. */
  lemma CIntOfIntToString(i: int)
    requires IsInt(i)
    ensures CInt(Some(IntToString(i))) == i
  {
    Convert.ToIntOfIntToString(i, Some(0));
  }

  /** A run of digits converts to its value when that fits in an int, and to 0 when the
      text is empty or the value overflows. */
  lemma CIntOfDigits(d: string)
    requires AllDigits(d)
    ensures CInt(Some(d)) == if d != [] && DecimalValue(d) <= INT_MAX then DecimalValue(d) else 0
  {
    if d != [] {
      assert IsDigit(d[0]);
      RadixValueDecimal(d);
    }
  }

  /** What a channel field yields, `cInt(getValue(text))`: never negative, the value of
      the digits when it fits in an int and 0 otherwise. */
  lemma FieldValue(text: string)
    ensures var d := KeepDigits(text);
      CInt(Some(d)) == if d != [] && DecimalValue(d) <= INT_MAX then DecimalValue(d) else 0
    ensures CInt(Some(KeepDigits(text))) >= 0
  {
    CIntOfDigits(KeepDigits(text));
  }
}
