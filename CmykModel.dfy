/** `colorpad.core.model.Cmyk`: cyan, magenta, yellow and key as percentages. */
module CmykModel {
  import opened Wrappers
  import opened JavaNum
  import opened JavaText
  import opened Basic

  /** The four final fields. The public constructor stores any ints unchecked. */
  datatype Cmyk = Cmyk(c: int, m: int, y: int, k: int)

  /** The negation of `checkRange`'s failure test: every component in 0..100. */
  predicate InRange(c: int, m: int, y: int, k: int)
  {
    0 <= c <= 100 && 0 <= m <= 100 && 0 <= y <= 100 && 0 <= k <= 100
  }

  predicate Valid(v: Cmyk)
  {
    InRange(v.c, v.m, v.y, v.k)
  }

  /** `new Cmyk(c, m, y, k)`: the public constructor, which checks nothing. */
  function New(c: int, m: int, y: int, k: int): (v: Cmyk)
    ensures v.c == c && v.m == m && v.y == y && v.k == k
  {
    Cmyk(c, m, y, k)
  }

  /** An example: the unchecked constructor makes a value, (-1, 0, 0, 200), that `from` rejects. */
  lemma NewUnchecked()
    ensures !Valid(New(-1, 0, 0, 200))
    ensures From(-1, 0, 0, 200) == Err(ArgumentOutOfRange)
  {
  }

  /** `Cmyk.from`: the components, or ArgumentOutOfRangeException when one is outside 0..100. */
  function From(c: int, m: int, y: int, k: int): (res: Result<Cmyk>)
    ensures res.Ok? <==> InRange(c, m, y, k)
    ensures res.Ok? ==> res.value == New(c, m, y, k) && Valid(res.value)
    ensures res.Err? ==> res.error == ArgumentOutOfRange
  {
    if !InRange(c, m, y, k) then Err(ArgumentOutOfRange) else Ok(Cmyk(c, m, y, k))
  }

  /** `compareWith(c, m, y, k)`: exact equality of every component. */
  predicate CompareWith(v: Cmyk, c: int, m: int, y: int, k: int)
  {
    v.c == c && v.m == m && v.y == y && v.k == k
  }

  /** `equals` on two Cmyk objects. */
  predicate Equals(v: Cmyk, o: Cmyk)
  {
    CompareWith(v, o.c, o.m, o.y, o.k)
  }

  /** `equals` is value equality. */
  lemma EqualsIsEquality(v: Cmyk, o: Cmyk)
    ensures Equals(v, o) <==> v == o
  {
  }

  /** `toString(separator)`: c, m, y and k in decimal separated by `sep`. */
  function ToString(v: Cmyk, sep: string): (s: string)
    requires Valid(v)
  {
    FormatInts([v.c, v.m, v.y, v.k], sep)
  }

  /** `fromString`: exactly four comma-separated numbers, each rounded half up, then range-checked. */
  function FromString(color: JString): (res: Result<Cmyk>)
    ensures res.Ok? ==> Valid(res.value)
    ensures |ExtractAsInt(color)| != 4 ==> res == Err(IllegalArgument)
    ensures |ExtractAsInt(color)| == 4 ==>
              var v := ExtractAsInt(color);
              res == From(v[0], v[1], v[2], v[3])
  {
    var cm := ExtractAsInt(color);
    if |cm| != 4 then Err(IllegalArgument) else From(cm[0], cm[1], cm[2], cm[3])
  }

  /** The comma-separated text of a valid colour parses back to it. */
  lemma FromStringToString(v: Cmyk)
    requires Valid(v)
    ensures FromString(Some(ToString(v, ","))) == Ok(v)
  {
    ExtractAsIntFormatInts([v.c, v.m, v.y, v.k]);
  }

  /** `hashCode`: `c << 24 | m << 16 | y << 8 | k`; for components of 0..100 the shifted
      bytes do not overlap and the top one stays below the sign bit. */
  function HashCode(v: Cmyk): (h: int)
    requires Valid(v)
    ensures IsInt(h) && 0 <= h
  {
    v.c * 0x100_0000 + v.m * 0x1_0000 + v.y * 256 + v.k
  }

  /** Equal colours hash alike, and different valid colours hash differently. */
  lemma HashCodeInjective(v: Cmyk, o: Cmyk)
    requires Valid(v) && Valid(o)
    ensures HashCode(v) == HashCode(o) <==> Equals(v, o)
  {
    if HashCode(v) == HashCode(o) {
      var h := HashCode(v);
      DivModUnique(h, 256, v.c * 0x1_0000 + v.m * 256 + v.y, v.k);
      DivModUnique(h, 256, o.c * 0x1_0000 + o.m * 256 + o.y, o.k);
      var h1 := v.c * 0x1_0000 + v.m * 256 + v.y;
      DivModUnique(h1, 256, v.c * 256 + v.m, v.y);
      DivModUnique(h1, 256, o.c * 256 + o.m, o.y);
      var h2 := v.c * 256 + v.m;
      DivModUnique(h2, 256, v.c, v.m);
      DivModUnique(h2, 256, o.c, o.m);
    }
  }
}
