/** Evaluation of the curve: the per-segment interpolation with its linear and
    exponential shapes, and the lookup of the curve's value at a normalized x. */
module CurveEvaluate {
  import opened CurvePoint
  import opened CurveSearch

  datatype Option<T> = None | Some(value: T)

  /** The exponential e^p is taken as a parameter; the one fact about it the
      evaluator relies on is that it equals 1 only at 0, so that the
      denominator e^p - 1 of the exponential shape is never 0. */
  ghost predicate ExpModel(exp: real -> real)
  {
    forall p: real :: p != 0.0 ==> exp(p) != 1.0
  }

  /** Magnitudes of power below this bound give a straight segment. */
  const LinearPowerBound: real := 0.005

  /** The value at `x` of the segment from `from` to `to`, shaped by
      `from.power`. */
  function Interpolate(from: Point, to: Point, x: real, exp: real -> real): (r: real)
    requires ExpModel(exp)
    ensures from.x == to.x ==> r == to.y
    ensures from.x != to.x && x == from.x ==> r == from.y
    ensures from.x != to.x && x == to.x ==> r == to.y
    ensures from.x != to.x && x != from.x && x != to.x && -LinearPowerBound < from.power < LinearPowerBound ==>
      r == from.y + (to.y - from.y) * ((x - from.x) / (to.x - from.x))
    ensures from.x != to.x && x != from.x && x != to.x ==>
      !(-LinearPowerBound < from.power < LinearPowerBound) ==> Min(from.y, to.y) <= r <= Max(from.y, to.y)
  {
    if from.x == to.x then to.y
    else
      var height := to.y - from.y;
      var width := to.x - from.x;
      if x == to.x - width then from.y
      else if x == from.x + width then to.y
      else
        var t := (x - from.x) / width;
        var power := from.power;
        if -LinearPowerBound < power < LinearPowerBound then from.y + height * t
        else
          assert power != 0.0;
          var normalized := (exp(power * t) - 1.0) / (exp(power) - 1.0);
          Clamp(from.y + normalized * height, Min(from.y, to.y), Max(from.y, to.y))
  }

  /** A fraction `t` in [0,1] of `height` lies between 0 and `height`. */
  lemma ScaledBetween(height: real, t: real)
    requires 0.0 <= t <= 1.0
    ensures Min(0.0, height) <= height * t <= Max(0.0, height)
  {
    if height >= 0.0 {
      assert height * t <= height * 1.0;
    } else {
      assert height * 1.0 <= height * t;
    }
  }

  /** Inside the segment's x-range every branch stays within the segment's
      y-range. */
  lemma InterpolateWithinSegment(from: Point, to: Point, x: real, exp: real -> real)
    requires ExpModel(exp)
    requires from.x <= x <= to.x
    ensures Min(from.y, to.y) <= Interpolate(from, to, x, exp) <= Max(from.y, to.y)
  {
    if from.x != to.x && x != from.x && x != to.x && -LinearPowerBound < from.power < LinearPowerBound {
      var width := to.x - from.x;
      var t := (x - from.x) / width;
      assert t * width == x - from.x;
      assert 0.0 <= t <= 1.0;
      ScaledBetween(to.y - from.y, t);
    }
  }

  /** A straight segment takes the mean of its end values at its midpoint. */
  lemma StraightMidpoint(from: Point, to: Point, exp: real -> real)
    requires ExpModel(exp)
    requires from.x < to.x
    requires -LinearPowerBound < from.power < LinearPowerBound
    ensures Interpolate(from, to, (from.x + to.x) / 2.0, exp) == (from.y + to.y) / 2.0
  {
    var x := (from.x + to.x) / 2.0;
    assert (x - from.x) / (to.x - from.x) == 0.5;
  }

  /** The curve's value at `normalizedX`. Reading a point that is not there
      (no segment found away from the domain ends, or an empty list at a
      domain end) gives None. */
  function GetCurveAtNormalized(normalizedX: real, points: seq<Point>, exp: real -> real): (r: Option<real>)
    requires ExpModel(exp)
    ensures normalizedX == 0.0 && |points| > 0 ==> r == Some(points[0].y)
    ensures normalizedX == 1.0 && |points| > 0 ==> r == Some(points[|points| - 1].y)
    ensures r == None <==>
      (|points| == 0 && (normalizedX == 0.0 || normalizedX == 1.0)) ||
      (normalizedX != 0.0 && normalizedX != 1.0 && SegmentIndex(normalizedX, points) == -1)
  {
    var pos := SegmentIndex(normalizedX, points);
    if normalizedX == 0.0 then
      if |points| > 0 then Some(points[0].y) else None
    else if normalizedX == 1.0 then
      if |points| > 0 then Some(points[|points| - 1].y) else None
    else if pos == -1 then None
    else Some(Interpolate(points[pos], points[pos + 1], normalizedX, exp))
  }

  /** Away from the domain ends the value lies in the y-range of the first
      segment that contains `normalizedX`. */
  lemma CurveWithinFoundSegment(normalizedX: real, points: seq<Point>, exp: real -> real)
    requires ExpModel(exp)
    requires normalizedX != 0.0 && normalizedX != 1.0
    requires SegmentIndex(normalizedX, points) != -1
    ensures var pos := SegmentIndex(normalizedX, points);
      GetCurveAtNormalized(normalizedX, points, exp) == Some(Interpolate(points[pos], points[pos + 1], normalizedX, exp)) &&
      Min(points[pos].y, points[pos + 1].y) <= GetCurveAtNormalized(normalizedX, points, exp).value <= Max(points[pos].y, points[pos + 1].y)
  {
    var pos := SegmentIndex(normalizedX, points);
    SegmentIndexIsFirst(normalizedX, points);
    InterpolateWithinSegment(points[pos], points[pos + 1], normalizedX, exp);
  }

  /** A curve whose first point sits at x = 0 and last at x = 1 has a value
      everywhere on [0,1], even when its x coordinates are out of order. */
  lemma CurveDefinedOnDomain(normalizedX: real, points: seq<Point>, exp: real -> real)
    requires ExpModel(exp)
    requires |points| >= 2 && points[0].x == 0.0 && points[|points| - 1].x == 1.0
    requires 0.0 <= normalizedX <= 1.0
    ensures GetCurveAtNormalized(normalizedX, points, exp).Some?
  {
    SegmentExists(normalizedX, points);
  }

  /** When every point's y lies in [lo, hi], so does every value of the curve. */
  lemma CurveBounded(normalizedX: real, points: seq<Point>, exp: real -> real, lo: real, hi: real)
    requires ExpModel(exp)
    requires forall k :: 0 <= k < |points| ==> lo <= points[k].y <= hi
    requires GetCurveAtNormalized(normalizedX, points, exp).Some?
    ensures lo <= GetCurveAtNormalized(normalizedX, points, exp).value <= hi
  {
    if normalizedX != 0.0 && normalizedX != 1.0 {
      CurveWithinFoundSegment(normalizedX, points, exp);
    }
  }
}
