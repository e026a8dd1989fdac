/** `colorpad.core.model.Xyz`, its subclass `CieXyzD65` and `CieXyzHelper`: CIE XYZ
    tristimulus values in a mutable object whose setters pass every written value
    through an overridable hook. The D65 subclass is the flag `d65`, fixed at
    construction, that selects its clamping hooks. */
module XyzModel {
  import opened Wrappers
  import opened Basic

  /** The D65 white point: the largest X, Y and Z a `CieXyzD65` may hold. */
  const X_MAX: real := 0.95047
  const Y_MAX: real := 1.0
  const Z_MAX: real := 1.08883

  /** The box `checkRangeOfD65` accepts, bounds included. */
  predicate InD65Box(x: real, y: real, z: real)
  {
    0.0 <= x <= X_MAX && 0.0 <= y <= Y_MAX && 0.0 <= z <= Z_MAX
  }

  class Xyz {
    /** The runtime class: `CieXyzD65` when true, plain `Xyz` when false. */
    const d65: bool
    var x: real
    var y: real
    var z: real

    /** A D65 object always lies in the D65 box; a plain one may hold any values. */
    predicate Valid()
      reads this
    {
      d65 ==> InD65Box(x, y, z)
    }

    /** `replaceXValue`: the identity on `Xyz`, `getFixRange(value, 0, 0.95047)` on `CieXyzD65`. */
    function ReplaceX(value: real): (r: real)
    {
      if d65 then GetFixRangeReal(value, 0.0, X_MAX) else value
    }

    /** `replaceYValue`: the identity on `Xyz`, `getFixRange(value, 0, 1)` on `CieXyzD65`. */
    function ReplaceY(value: real): (r: real)
    {
      if d65 then GetFixRangeReal(value, 0.0, Y_MAX) else value
    }

    /** `replaceZValue`: the identity on `Xyz`, `getFixRange(value, 0, 1.08883)` on `CieXyzD65`. */
    function ReplaceZ(value: real): (r: real)
    {
      if d65 then GetFixRangeReal(value, 0.0, Z_MAX) else value
    }

    /** `setX`: stores the hooked value; nothing else changes. */
    method SetX(v: real)
      requires Valid()
      modifies this
      ensures x == ReplaceX(v) && y == old(y) && z == old(z)
      ensures Valid()
    {
      x := ReplaceX(v);
    }

    /** `setY`: stores the hooked value; nothing else changes. */
    method SetY(v: real)
      requires Valid()
      modifies this
      ensures y == ReplaceY(v) && x == old(x) && z == old(z)
      ensures Valid()
    {
      y := ReplaceY(v);
    }

    /** `setZ`: stores the hooked value; nothing else changes. */
    method SetZ(v: real)
      requires Valid()
      modifies this
      ensures z == ReplaceZ(v) && x == old(x) && y == old(y)
      ensures Valid()
    {
      z := ReplaceZ(v);
    }

    /** `new Xyz(x, y, z)`: the fields start at 0 and the three setters run in turn; the
        hooks are the identity, so the arguments are stored as given. */
    constructor Plain(x0: real, y0: real, z0: real)
      ensures !d65 && Valid()
      ensures x == x0 && y == y0 && z == z0
    {
      d65 := false;
      x, y, z := 0.0, 0.0, 0.0;
      new;
      SetX(x0);
      SetY(y0);
      SetZ(z0);
    }

    /** `new CieXyzD65(x, y, z)`: the same setters with the clamping hooks, so the stored
        values are the arguments clamped into the D65 box. */
    constructor D65(x0: real, y0: real, z0: real)
      ensures d65 && Valid()
      ensures x == GetFixRangeReal(x0, 0.0, X_MAX)
      ensures y == GetFixRangeReal(y0, 0.0, Y_MAX)
      ensures z == GetFixRangeReal(z0, 0.0, Z_MAX)
      ensures InD65Box(x0, y0, z0) ==> x == x0 && y == y0 && z == z0
    {
      d65 := true;
      x, y, z := 0.0, 0.0, 0.0;
      new;
      SetX(x0);
      SetY(y0);
      SetZ(z0);
    }

    /** `compareWith(x, y, z)`: every component within `PRECISION`. */
    predicate CompareWith(x1: real, y1: real, z1: real)
      reads this
    {
      DecimalEquals(x, x1) && DecimalEquals(y, y1) && DecimalEquals(z, z1)
    }

    /** `equals`: the same object, or any Xyz (of either class) whose components are all
        within `PRECISION`. */
    predicate Equals(o: Xyz)
      reads this, o
    {
      this == o || CompareWith(o.x, o.y, o.z)
    }
  }

  /** `Xyz.fromString`: a plain Xyz of the three comma-separated numbers, or null (not an
      exception) when the text does not hold exactly three. */
  method FromString(color: JString) returns (r: Xyz?)
    ensures r == null <==> |Extract(color)| != 3
    ensures r != null ==> fresh(r) && !r.d65 && r.Valid()
    ensures r != null ==> [r.x, r.y, r.z] == Extract(color)
  {
    var values := ExtractFromString(color);
    if values.Length != 3 {
      return null;
    }
    r := new Xyz.Plain(values[0], values[1], values[2]);
  }

  /** `CieXyzD65.fromString`: a D65 object of the three numbers, or null when the count is
      wrong or a number lies outside the D65 box. It rejects rather than clamps. */
  method FromStringD65(color: JString) returns (r: Xyz?)
    ensures r == null <==> !IsD65Triple(Extract(color))
    ensures r != null ==> fresh(r) && r.d65 && r.Valid()
    ensures r != null ==> [r.x, r.y, r.z] == Extract(color)
  {
    var xyz := ExtractFromString(color);
    r := D65OfValues(xyz);
  }

  /** The checks `CieXyzD65.fromString` makes on the parsed numbers: exactly three of them,
      each inside the D65 box, or null. */
  method D65OfValues(xyz: array<real>) returns (r: Xyz?)
    ensures r == null <==> !IsD65Triple(xyz[..])
    ensures r != null ==> fresh(r) && r.d65 && r.Valid()
    ensures r != null ==> [r.x, r.y, r.z] == xyz[..]
  {
    if xyz.Length != 3 {
      return null;
    }
    var x, y, z := xyz[0], xyz[1], xyz[2];
    assert xyz[..] == [x, y, z];
    if x < 0.0 || x > X_MAX || y < 0.0 || y > Y_MAX || z < 0.0 || z > Z_MAX {
      return null;
    }
    r := new Xyz.D65(x, y, z);
  }

  /** Three numbers that lie in the D65 box. */
  predicate IsD65Triple(vs: seq<real>)
  {
    |vs| == 3 && InD65Box(vs[0], vs[1], vs[2])
  }

  /** `CieXyzHelper.checkRangeOfD65`: the value lies in the D65 box. */
  predicate CheckRangeOfD65(value: Xyz)
    reads value
  {
    !(value.x < 0.0 || value.x > X_MAX || value.y < 0.0 || value.y > Y_MAX ||
      value.z < 0.0 || value.z > Z_MAX)
  }

  /** `CieXyzHelper.parseStringOfD65`: `Xyz.fromString`, then the D65 range check. Text that
      does not hold three numbers makes `fromString` return null, which the range check
      then dereferences. The value is returned unclamped, as a plain Xyz. */
  method ParseStringOfD65(color: JString) returns (r: Result<Xyz>)
    ensures r == Err(NullPointer) <==> |Extract(color)| != 3
    ensures r == Err(ArgumentOutOfRange) <==>
              |Extract(color)| == 3 && !InD65Box(Extract(color)[0], Extract(color)[1], Extract(color)[2])
    ensures r.Ok? ==> fresh(r.value) && !r.value.d65 && [r.value.x, r.value.y, r.value.z] == Extract(color)
  {
    var value := FromString(color);
    if value == null {
      return Err(NullPointer);
    }
    if !CheckRangeOfD65(value) {
      return Err(ArgumentOutOfRange);
    }
    return Ok(value);
  }

  /** The D65 hooks land in the box and keep values already inside it; the plain hooks
      keep every value. */
  lemma HooksClampIntoBox(o: Xyz, vx: real, vy: real, vz: real)
    ensures o.d65 ==> InD65Box(o.ReplaceX(vx), o.ReplaceY(vy), o.ReplaceZ(vz))
    ensures o.d65 && InD65Box(vx, vy, vz) ==>
              o.ReplaceX(vx) == vx && o.ReplaceY(vy) == vy && o.ReplaceZ(vz) == vz
    ensures !o.d65 ==> o.ReplaceX(vx) == vx && o.ReplaceY(vy) == vy && o.ReplaceZ(vz) == vz
  {
  }
}
