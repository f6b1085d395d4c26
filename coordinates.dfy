/**
 * `to_deg` of geotag.py: a signed decimal-degree value becomes degrees, minutes,
 * seconds and a hemisphere label.  Arithmetic is on exact reals; Python's
 * `int(...)` on a non-negative value is `.Floor`, and `round(x, 5)` is Python 2's
 * round-half-away-from-zero to five decimals.
 */
module Coordinates {

  /** The label list `loc` passed to `to_deg`: `loc[0]` for negative, `loc[1]` for positive values. */
  datatype Hemispheres = Hemispheres(negative: string, positive: string)

  const LATITUDE_LABELS := Hemispheres("S", "N")
  const LONGITUDE_LABELS := Hemispheres("W", "E")

  /** The tuple `(deg, min, sec, loc_value)` returned by `to_deg`. */
  datatype Dms = Dms(deg: nat, min: nat, sec: real, ref: string)

  /** Rounding seconds to five decimals moves them by at most half of 10^-5. */
  const MAX_SECONDS_ERROR: real := 0.000005
  /** The same error expressed in degrees. */
  const MAX_ANGLE_ERROR: real := MAX_SECONDS_ERROR / 3600.0

  function Abs(x: real): (r: real)
    ensures r >= 0.0 && (r == x || r == -x)
  {
    if x < 0.0 then -x else x
  }

  /** A multiple of 10^-5: what rounding to five decimals can produce. */
  predicate OnFifthDecimal(r: real)
  {
    (r * 100000.0).Floor as real == r * 100000.0
  }

  /** `round(x, 5)` for a non-negative `x`: halves are rounded away from zero. */
  function Round5(x: real): (r: real)
    requires x >= 0.0
    ensures r >= 0.0
    ensures OnFifthDecimal(r)
    ensures x - MAX_SECONDS_ERROR < r <= x + MAX_SECONDS_ERROR
  {
    var n := (x * 100000.0 + 0.5).Floor;
    n as real / 100000.0
  }

  /** No multiple of 10^-5 is closer to `x` than `Round5(x)`. */
  lemma Round5Nearest(x: real, k: int)
    requires x >= 0.0
    ensures Abs(Round5(x) - x) <= Abs(k as real / 100000.0 - x)
  {
    var y := x * 100000.0;
    var n := (y + 0.5).Floor;
    assert Round5(x) == n as real / 100000.0;
    assert -0.5 < n as real - y <= 0.5;
    if k > n {
      assert k as real - y >= 0.5;
    } else if k < n {
      assert y - k as real >= 0.5;
    }
    assert Abs(n as real - y) <= Abs(k as real - y);
    assert Round5(x) - x == (n as real - y) / 100000.0;
    assert k as real / 100000.0 - x == (k as real - y) / 100000.0;
  }

  /** The label `to_deg` chooses from the sign of the value. */
  function Hemisphere(value: real, loc: Hemispheres): string
  {
    if value < 0.0 then loc.negative else if value > 0.0 then loc.positive else ""
  }

  /** The angle a DMS tuple denotes, ignoring its hemisphere. */
  function DmsValue(d: Dms): real
  {
    d.deg as real + d.min as real / 60.0 + d.sec / 3600.0
  }

  /** The signed angle a DMS tuple denotes under the given labels. */
  function SignedValue(d: Dms, loc: Hemispheres): real
  {
    if d.ref == loc.negative then -DmsValue(d) else DmsValue(d)
  }

  function ToDeg(value: real, loc: Hemispheres): (d: Dms)
    ensures d.deg as real <= Abs(value) < d.deg as real + 1.0
    ensures d.min < 60
    ensures d.min as real <= (Abs(value) - d.deg as real) * 60.0 < d.min as real + 1.0
    ensures 0.0 <= d.sec <= 60.0
    ensures OnFifthDecimal(d.sec)
    ensures Abs(DmsValue(d) - Abs(value)) <= MAX_ANGLE_ERROR
  {
    var locValue := Hemisphere(value, loc);
    var absValue := Abs(value);
    var deg := absValue.Floor;
    var t1 := (absValue - deg as real) * 60.0;
    var min := t1.Floor;
    var exact := (t1 - min as real) * 60.0;
    var sec := Round5(exact);
    ExactDecomposition(absValue, deg, t1, min, exact);
    Dms(deg, min, sec, locValue)
  }

  /** Before rounding, the decomposition reproduces the magnitude exactly. */
  lemma ExactDecomposition(a: real, deg: int, t1: real, min: int, exact: real)
    requires t1 == (a - deg as real) * 60.0
    requires exact == (t1 - min as real) * 60.0
    ensures deg as real + min as real / 60.0 + exact / 3600.0 == a
  {
    assert exact / 3600.0 == (t1 - min as real) / 60.0;
    assert t1 / 60.0 == a - deg as real;
  }

  /** The hemisphere label follows the sign of the value, in both directions. */
  lemma HemisphereBySign(value: real, loc: Hemispheres)
    requires loc.negative != loc.positive && loc.negative != "" && loc.positive != ""
    ensures ToDeg(value, loc).ref == loc.negative <==> value < 0.0
    ensures ToDeg(value, loc).ref == loc.positive <==> value > 0.0
    ensures ToDeg(value, loc).ref == "" <==> value == 0.0
  {
  }

  /** A value and its negation have the same degrees, minutes and seconds. */
  lemma MirrorSymmetric(value: real, loc: Hemispheres)
    ensures ToDeg(value, loc).deg == ToDeg(-value, loc).deg
    ensures ToDeg(value, loc).min == ToDeg(-value, loc).min
    ensures ToDeg(value, loc).sec == ToDeg(-value, loc).sec
  {
    assert Abs(value) == Abs(-value);
  }

  /**
   * Rounding can carry the seconds up to exactly 60 without carrying into the minutes:
   * 59.999996 seconds past 0 degrees 0 minutes comes out as (0, 0, 60.0).
   */
  lemma SecondsCanReachSixty(loc: Hemispheres)
    ensures var d := ToDeg(59.999996 / 3600.0, loc);
            d.deg == 0 && d.min == 0 && d.sec == 60.0
  {
    var v := 59.999996 / 3600.0;
    assert Abs(v) == v;
    assert v.Floor == 0;
    var t1 := (v - 0.0) * 60.0;
    assert t1 == 59.999996 / 60.0;
    assert t1.Floor == 0;
    assert (t1 - 0.0) * 60.0 == 59.999996;
    assert Round5(59.999996) == 60.0 by {
      assert 59.999996 * 100000.0 + 0.5 == 6000000.1;
    }
  }

  /** Reading the tuple back with its hemisphere label recovers the signed value. */
  lemma SignedReconstruction(value: real, loc: Hemispheres)
    requires loc.negative != loc.positive && loc.negative != "" && loc.positive != ""
    ensures Abs(SignedValue(ToDeg(value, loc), loc) - value) <= MAX_ANGLE_ERROR
  {
    var d := ToDeg(value, loc);
    HemisphereBySign(value, loc);
    if value < 0.0 {
      assert SignedValue(d, loc) - value == -(DmsValue(d) - Abs(value));
    } else {
      assert SignedValue(d, loc) - value == DmsValue(d) - Abs(value);
    }
  }
}
