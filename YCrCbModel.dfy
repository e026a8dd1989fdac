/** `colorpad.core.model.YCrCb`: luma and the two chroma differences, each an int of 0..255. */
module YCrCbModel {
  import opened Wrappers
  import opened JavaNum
  import opened JavaText
  import opened Basic

  /** The three final int fields. */
  datatype YCrCb = YCrCb(y: int, cr: int, cb: int)

  /** The negation of `checkRange`'s failure test. */
  predicate InRange(y: int, cr: int, cb: int)
  {
    0 <= y <= 255 && 0 <= cr <= 255 && 0 <= cb <= 255
  }

  predicate Valid(c: YCrCb)
  {
    InRange(c.y, c.cr, c.cb)
  }

  /** `YCrCb.from`: the components, or ArgumentOutOfRangeException when one is outside 0..255. */
  function From(y: int, cr: int, cb: int): (res: Result<YCrCb>)
    ensures res.Ok? <==> InRange(y, cr, cb)
    ensures res.Ok? ==> res.value == YCrCb(y, cr, cb) && Valid(res.value)
    ensures res.Err? ==> res.error == ArgumentOutOfRange
  {
    if !InRange(y, cr, cb) then Err(ArgumentOutOfRange) else Ok(YCrCb(y, cr, cb))
  }

  /** `compareWith(y, cr, cb)`: exact equality of every component. */
  predicate CompareWith(c: YCrCb, y: int, cr: int, cb: int)
  {
    c.y == y && c.cr == cr && c.cb == cb
  }

  /** `equals` on two YCrCb objects. */
  predicate Equals(c: YCrCb, o: YCrCb)
  {
    CompareWith(c, o.y, o.cr, o.cb)
  }

  /** `hashCode`: `y << 16 | cr << 8 | cb`, a sum of non-overlapping bytes for valid values. */
  function HashCode(c: YCrCb): (h: int)
    requires Valid(c)
    ensures 0 <= h < 0x100_0000
  {
    c.y * 0x1_0000 + c.cr * 256 + c.cb
  }

  /** `equals` is value equality, and on valid values it agrees with equality of hashes. */
  lemma EqualsHashCode(c: YCrCb, o: YCrCb)
    requires Valid(c) && Valid(o)
    ensures Equals(c, o) <==> c == o
    ensures Equals(c, o) <==> HashCode(c) == HashCode(o)
  {
    if HashCode(c) == HashCode(o) {
      var h := HashCode(c);
      DivModUnique(h, 0x1_0000, c.y, c.cr * 256 + c.cb);
      DivModUnique(h, 0x1_0000, o.y, o.cr * 256 + o.cb);
      DivModUnique(h, 256, c.y * 256 + c.cr, c.cb);
      DivModUnique(h, 256, o.y * 256 + o.cr, o.cb);
    }
  }

  /** `toString(separator)`: y, cr and cb in decimal separated by `sep`. */
  function ToString(c: YCrCb, sep: string): string
    requires Valid(c)
  {
    FormatInts([c.y, c.cr, c.cb], sep)
  }

  /** `fromString`: exactly three comma-separated numbers, each rounded half up, then range-checked. */
  function FromString(color: JString): (res: Result<YCrCb>)
    ensures res.Ok? ==> Valid(res.value)
    ensures |ExtractAsInt(color)| != 3 ==> res == Err(IllegalArgument)
    ensures |ExtractAsInt(color)| == 3 ==>
              var v := ExtractAsInt(color);
              res == From(v[0], v[1], v[2])
  {
    var cm := ExtractAsInt(color);
    if |cm| != 3 then Err(IllegalArgument) else From(cm[0], cm[1], cm[2])
  }

  /** The comma-separated text of a valid value parses back to it. */
  lemma FromStringToString(c: YCrCb)
    requires Valid(c)
    ensures FromString(Some(ToString(c, ","))) == Ok(c)
  {
    ExtractAsIntFormatInts([c.y, c.cr, c.cb]);
  }
}
