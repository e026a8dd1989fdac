/** `colorpad.core.model.Rgb`: a colour as red, green and blue channels of 0..255,
    its 24-bit packed form, its hexadecimal text and its comma-separated text. */
module RgbModel {
  import opened Wrappers
  import opened JavaNum
  import opened JavaText
  import opened Basic

  /** The three final channel fields. The private constructor stores them unchecked;
      every public way of making an Rgb checks or masks them. */
  datatype Rgb = Rgb(r: int, g: int, b: int)

  /** The negation of `checkRange`'s failure test. */
  predicate InRange(r: int, g: int, b: int)
  {
    0 <= r <= 255 && 0 <= g <= 255 && 0 <= b <= 255
  }

  /** The class invariant every reachable Rgb satisfies. */
  predicate Valid(c: Rgb)
  {
    InRange(c.r, c.g, c.b)
  }

  const WHITE: Rgb := Rgb(255, 255, 255)
  const BLACK: Rgb := Rgb(0, 0, 0)

  /** `Rgb.from`: the channels, or ArgumentOutOfRangeException when one is outside 0..255. */
  function From(r: int, g: int, b: int): (res: Result<Rgb>)
    ensures res.Ok? <==> InRange(r, g, b)
    ensures res.Ok? ==> res.value == Rgb(r, g, b) && Valid(res.value)
    ensures res.Err? ==> res.error == ArgumentOutOfRange
  {
    if !InRange(r, g, b) then Err(ArgumentOutOfRange) else Ok(Rgb(r, g, b))
  }

  // --------------------------------------------------------------- packing

  /** `new Rgb(int value)`: bits 16..23, 8..15 and 0..7 of the two's-complement value
      (`>>> 16 & 255` and so on). On the 32-bit patterns this is Euclidean division,
      since 2^32 is a multiple of 2^24. */
  function FromInteger(value: int): (c: Rgb)
    ensures Valid(c)
  {
    Rgb((value / 0x1_0000) % 256, (value / 256) % 256, value % 256)
  }

  /** `toInteger`: `r << 16 | g << 8 | b`; on channels of 0..255 the three shifted bytes do
      not overlap, so the bitwise or is their sum. */
  function ToInteger(c: Rgb): (v: int)
    requires Valid(c)
    ensures 0 <= v < 0x100_0000
  {
    c.r * 0x1_0000 + c.g * 256 + c.b
  }

  /** Unpacking a packed colour gives back its channels. */
  lemma FromIntegerToInteger(c: Rgb)
    requires Valid(c)
    ensures FromInteger(ToInteger(c)) == c
  {
    var v := ToInteger(c);
    DivModUnique(v, 0x1_0000, c.r, c.g * 256 + c.b);
    DivModUnique(v, 256, c.r * 256 + c.g, c.b);
    DivModUnique(c.r * 256 + c.g, 256, c.r, c.g);
  }

  /** Packing the unpacked channels keeps exactly the low 24 bits of the value. */
  lemma ToIntegerFromInteger(value: int)
    ensures ToInteger(FromInteger(value)) == value % 0x100_0000
  {
    var c := FromInteger(value);
    var q := value / 0x1_0000;
    var m := value % 0x1_0000;
    assert value == q * 0x1_0000 + m;
    DivModUnique(m, 256, m / 256, m % 256);
    assert value == q * 0x1_0000 + (m / 256) * 256 + m % 256;
    // the middle byte and the low byte
    assert value / 256 == q * 256 + m / 256 by {
      DivModUnique(value, 256, q * 256 + m / 256, m % 256);
    }
    DivModUnique(value / 256, 256, q, m / 256);
    assert c.g == m / 256;
    assert c.b == m % 256 by {
      DivModUnique(value, 256, q * 256 + m / 256, m % 256);
    }
    // the high byte
    var hi := q / 256;
    assert q == hi * 256 + c.r;
    DivModUnique(value, 0x100_0000, hi, c.r * 0x1_0000 + c.g * 256 + c.b);
  }

  /** `hashCode` is the packed value. */
  function HashCode(c: Rgb): (h: int)
    requires Valid(c)
    ensures IsInt(h)
  {
    ToInteger(c)
  }

  /** `compareWith(r, g, b)`: exact equality of every channel. */
  predicate CompareWith(c: Rgb, r: int, g: int, b: int)
  {
    c.r == r && c.g == g && c.b == b
  }

  /** `equals` on two Rgb objects: `compareWith` on the other's channels. */
  predicate Equals(c: Rgb, o: Rgb)
  {
    CompareWith(c, o.r, o.g, o.b)
  }

  /** `equals` is value equality, and equal colours hash alike; on valid colours the hash
      tells colours apart. */
  lemma EqualsHashCode(c: Rgb, o: Rgb)
    requires Valid(c) && Valid(o)
    ensures Equals(c, o) <==> c == o
    ensures Equals(c, o) <==> HashCode(c) == HashCode(o)
  {
    if HashCode(c) == HashCode(o) {
      FromIntegerToInteger(c);
      FromIntegerToInteger(o);
    }
  }

  // ------------------------------------------------------------------ text

  /** `toString(separator)`: red, green and blue in decimal, separated by `sep`. */
  function ToString(c: Rgb, sep: string): (s: string)
    requires Valid(c)
  {
    FormatInts([c.r, c.g, c.b], sep)
  }

  /** `fromString`: exactly three comma-separated numbers, each rounded half up, then
      range-checked. */
  function FromString(color: JString): (res: Result<Rgb>)
    ensures res.Ok? ==> Valid(res.value)
    ensures |ExtractAsInt(color)| != 3 ==> res == Err(IllegalArgument)
    ensures |ExtractAsInt(color)| == 3 ==>
              var v := ExtractAsInt(color);
              res == From(v[0], v[1], v[2])
  {
    var values := ExtractAsInt(color);
    if |values| != 3 then Err(IllegalArgument) else From(values[0], values[1], values[2])
  }

  /** The comma-separated text of a colour parses back to the colour. */
  lemma FromStringToString(c: Rgb)
    requires Valid(c)
    ensures FromString(Some(ToString(c, ","))) == Ok(c)
  {
    ExtractAsIntFormatInts([c.r, c.g, c.b]);
  }

  // ------------------------------------------------------------------- hex

  /** `toHex(upper)`: the six hexadecimal digits of the packed value. */
  function ToHex(c: Rgb, upper: bool): (s: string)
    requires Valid(c)
    ensures |s| == 6
  {
    ToLengthSixHex(ToInteger(c), upper)
  }

  /** The text with one leading `#` removed. */
  function DropHash(s: string): (t: string)
    ensures s != [] && s[0] == '#' ==> t == s[1..]
    ensures s == [] || s[0] != '#' ==> t == s
  {
    if s != [] && s[0] == '#' then s[1..] else s
  }

  /** The colour packed in a parsed hex value, or the parse failure. */
  function FromParsedHex(s: string): (res: Result<Rgb>)
    ensures res.Ok? <==> ParseInt(s, 16).Some?
    ensures res.Ok? ==> res.value == FromInteger(ParseInt(s, 16).value)
    ensures res.Err? ==> res.error == IllegalArgument
  {
    match ParseHex(s)
    case Ok(v) => Ok(FromInteger(v))
    case Err(e) => Err(e)
  }

  /** `fromHex`: null or empty text, or anything other than six characters after an
      optional `#`, is an IllegalArgumentException; the six characters are parsed in
      base 16 and unpacked. */
  function FromHex(color: JString): (res: Result<Rgb>)
    ensures res.Err? ==> res.error == IllegalArgument
    ensures res.Ok? ==> Valid(res.value)
    ensures res.Ok? ==> !IsEmpty(color) && |DropHash(color.value)| == 6
  {
    if IsEmpty(color) then Err(IllegalArgument)
    else
      var s := DropHash(color.value);
      if |s| != 6 then Err(IllegalArgument) else FromParsedHex(s)
  }

  /** The hex text of a colour, with or without `#`, parses back to the colour. */
  lemma FromHexToHex(c: Rgb, upper: bool)
    requires Valid(c)
    ensures FromHex(Some(ToHex(c, upper))) == Ok(c)
    ensures FromHex(Some("#" + ToHex(c, upper))) == Ok(c)
  {
    var s := ToHex(c, upper);
    ParseHexOfSixHex(ToInteger(c), upper);
    FromIntegerToInteger(c);
    assert DigitIn(s[0], 16).Some?;
    assert ("#" + s)[1..] == s;
  }

  /** A sign is accepted by the hex parser: `-00001` is -1, whose low 24 bits are all set. */
  lemma FromHexSigned()
    ensures FromHex(Some("-00001")) == Ok(WHITE)
  {
    var s := "-00001";
    assert s[1..] == "00001";
    assert RadixValue("00001", 16) == Some(1) by {
      assert "00001"[..4] == "0000";
      assert "0000"[..3] == "000";
      assert "000"[..2] == "00";
      assert "00"[..1] == "0";
      assert "0"[..0] == "";
    }
    assert ParseInt(s, 16) == Some(-1);
  }

  // ------------------------------------------------------------ hex, CSS style

  /** Every character written twice, as the CSS three-digit form expands. */
  function Doubled(s: string): (d: string)
    ensures |d| == 2 * |s|
    ensures forall k :: 0 <= k < |d| ==> d[k] == s[k / 2]
  {
    if s == [] then [] else Doubled(s[..|s| - 1]) + [s[|s| - 1], s[|s| - 1]]
  }

  /** What `fromHexEnhanced` returns: like `fromHex`, but any length up to six is read
      as a number, and three characters are first expanded by doubling each. */
  function FromHexEnhancedOf(color: JString): (res: Result<Rgb>)
    ensures res.Err? ==> res.error == IllegalArgument
    ensures res.Ok? ==> Valid(res.value)
    ensures res.Ok? ==> !IsEmpty(color) && |DropHash(color.value)| <= 6
  {
    if IsEmpty(color) then Err(IllegalArgument)
    else
      var s := DropHash(color.value);
      if |s| > 6 then Err(IllegalArgument)
      else if |s| == 3 then FromParsedHex(Doubled(s))
      else FromParsedHex(s)
  }

  /** `fromHexEnhanced`: builds the doubled text of a three-character colour in a loop. */
  method FromHexEnhanced(color: JString) returns (res: Result<Rgb>)
    ensures res == FromHexEnhancedOf(color)
  {
    if IsEmpty(color) {
      return Err(IllegalArgument);
    }
    var s := color.value;
    if s[0] == '#' {
      s := s[1..];
    }
    if |s| > 6 {
      return Err(IllegalArgument);
    } else if |s| == 3 {
      var builder := "";
      var i := 0;
      while i < 3
        invariant 0 <= i <= 3
        invariant builder == Doubled(s[..i])
      {
        var c := s[i];
        assert s[..i + 1][..i] == s[..i];
        builder := builder + [c] + [c];
        i := i + 1;
      }
      assert s[..3] == s;
      s := builder;
    }
    res := FromParsedHex(s);
  }

  /** The CSS short form `#rgb` means `#rrggbb`: each digit `d` gives the channel `17 * d`. */
  lemma ShortFormChannels(s: string, x: nat, y: nat, z: nat)
    requires |s| == 3
    requires DigitIn(s[0], 16) == Some(x) && DigitIn(s[1], 16) == Some(y) && DigitIn(s[2], 16) == Some(z)
    ensures FromHexEnhancedOf(Some("#" + s)) == Ok(Rgb(17 * x, 17 * y, 17 * z))
  {
    var d := Doubled(s);
    assert ("#" + s)[1..] == s;
    assert d == [s[0], s[0], s[1], s[1], s[2], s[2]];
    assert RadixValue(d[..1], 16) == Some(x) by {
      assert d[..1][..0] == [];
    }
    assert RadixValue(d[..2], 16) == Some(x * 16 + x) by {
      assert d[..2][..1] == d[..1];
    }
    assert RadixValue(d[..3], 16) == Some((x * 16 + x) * 16 + y) by {
      assert d[..3][..2] == d[..2];
    }
    assert RadixValue(d[..4], 16) == Some(((x * 16 + x) * 16 + y) * 16 + y) by {
      assert d[..4][..3] == d[..3];
    }
    assert RadixValue(d[..5], 16) == Some((((x * 16 + x) * 16 + y) * 16 + y) * 16 + z) by {
      assert d[..5][..4] == d[..4];
    }
    assert RadixValue(d, 16) == Some(((((x * 16 + x) * 16 + y) * 16 + y) * 16 + z) * 16 + z) by {
      assert d[..5] == d[..|d| - 1];
    }
    var c := Rgb(17 * x, 17 * y, 17 * z);
    assert ToInteger(c) == ((((x * 16 + x) * 16 + y) * 16 + y) * 16 + z) * 16 + z;
    assert d[0] != '-' && d[0] != '+';
    FromIntegerToInteger(c);
  }

  /** A hexadecimal digit string. */
  predicate HexText(s: string)
  {
    forall i :: 0 <= i < |s| ==> DigitIn(s[i], 16).Some?
  }

  /** Leading zeros do not change a number's value. */
  lemma {:induction false} RadixValueLeadingZeros(z: nat, s: string)
    ensures RadixValue(Zeros(z) + s, 16) == RadixValue(s, 16)
    decreases |s|, z
  {
    if s == [] {
      assert Zeros(z) + s == Zeros(z);
      if z > 0 {
        assert Zeros(z)[..z - 1] == Zeros(z - 1);
        RadixValueLeadingZeros(z - 1, []);
        assert Zeros(z - 1) + [] == Zeros(z - 1);
      }
    } else {
      var t := Zeros(z) + s;
      assert t[..|t| - 1] == Zeros(z) + s[..|s| - 1];
      RadixValueLeadingZeros(z, s[..|s| - 1]);
    }
  }

  /** `z` copies of the digit zero. */
  function Zeros(z: nat): (s: string)
    ensures |s| == z && forall i :: 0 <= i < z ==> s[i] == '0'
  {
    if z == 0 then [] else Zeros(z - 1) + ['0']
  }

  /** Apart from the three-character form, a digit string of up to six characters means
      the same as the six-character string padded on the left with zeros. */
  lemma FromHexEnhancedPadded(s: string)
    requires 1 <= |s| <= 6 && |s| != 3 && HexText(s)
    ensures FromHexEnhancedOf(Some(s)) == FromHex(Some(Zeros(6 - |s|) + s))
  {
    var p := Zeros(6 - |s|) + s;
    assert DigitIn(s[0], 16).Some? && DigitIn(p[0], 16).Some?;
    assert DropHash(s) == s && DropHash(p) == p;
    assert ParseInt(p, 16) == ParseInt(s, 16) by {
      RadixValueLeadingZeros(6 - |s|, s);
      assert !(s[0] == '-' || s[0] == '+') && !(p[0] == '-' || p[0] == '+');
    }
    assert FromHexEnhancedOf(Some(s)) == FromParsedHex(s);
    assert FromHex(Some(p)) == FromParsedHex(p);
  }
}
