/** Segment lookup and point hit-testing: first-match linear scans over a
    point list, once as loops (the editor's operations) and once as recursive
    functions (their specification, which the evaluator also uses). */
module CurveSearch {
  import opened CurvePoint

  /** Segment `i` (from point `i` to point `i+1`) contains `x`, both ends included. */
  predicate InSegment(points: seq<Point>, i: int, x: real)
    ensures InSegment(points, i, x) ==> 0 <= i < |points| - 1 && points[i].x <= points[i + 1].x
  {
    0 <= i < |points| - 1 && points[i].x <= x <= points[i + 1].x
  }

  /** A segment whose left end is not right of its right end contains both
      of its end x coordinates. */
  lemma SegmentHoldsEnds(points: seq<Point>, i: int)
    requires 0 <= i < |points| - 1 && points[i].x <= points[i + 1].x
    ensures InSegment(points, i, points[i].x) && InSegment(points, i, points[i + 1].x)
  {
  }

  /** The first segment at index `i` or later that contains `x`, or -1. */
  function SegmentFrom(points: seq<Point>, x: real, i: nat): (r: int)
    decreases |points| - i
    ensures r == -1 || i <= r < |points| - 1
  {
    if i + 1 >= |points| then -1
    else if points[i].x <= x <= points[i + 1].x then i
    else SegmentFrom(points, x, i + 1)
  }

  /** The scan from `i` finds a containing segment, and no earlier one from
      `i` on contains `x`; it finds none only when no segment from `i` on does. */
  lemma {:induction false} SegmentFromIsFirst(points: seq<Point>, x: real, i: nat)
    decreases |points| - i
    ensures var r := SegmentFrom(points, x, i);
      && (r != -1 ==> InSegment(points, r, x))
      && (r == -1 ==> forall j :: i <= j ==> !InSegment(points, j, x))
      && (r != -1 ==> forall j :: i <= j < r ==> !InSegment(points, j, x))
  {
    if i + 1 < |points| && !(points[i].x <= x <= points[i + 1].x) {
      SegmentFromIsFirst(points, x, i + 1);
    }
  }

  /** The lowest-indexed segment that contains `x`, or -1 when none does
      (in particular when there are fewer than two points). */
  function SegmentIndex(x: real, points: seq<Point>): (r: int)
    ensures r == -1 || 0 <= r < |points| - 1
  {
    SegmentFrom(points, x, 0)
  }

  /** SegmentIndex is the first match: -1 exactly when no segment contains
      `x`, and otherwise a containing segment with none before it. */
  lemma SegmentIndexIsFirst(x: real, points: seq<Point>)
    ensures var r := SegmentIndex(x, points);
      && (r == -1 <==> forall j :: 0 <= j ==> !InSegment(points, j, x))
      && (r != -1 ==> InSegment(points, r, x))
      && (r != -1 ==> forall j :: 0 <= j < r ==> !InSegment(points, j, x))
  {
    SegmentFromIsFirst(points, x, 0);
  }

  /** The linear scan with an early exit. */
  method FindPointPositionIndex(x: real, points: seq<Point>) returns (index: int)
    ensures index == SegmentIndex(x, points)
  {
    index := -1;
    var i := 0;
    while i + 1 < |points|
      invariant 0 <= i
      invariant index == -1
      invariant forall j :: 0 <= j < i ==> !InSegment(points, j, x)
    {
      if x >= points[i].x && x <= points[i + 1].x {
        index := i;
        assert InSegment(points, index, x);
        break;
      }
      i := i + 1;
    }
    SegmentIndexIsFirst(x, points);
    assert index == -1 ==> forall j :: 0 <= j ==> !InSegment(points, j, x);
  }

  /** Two lists with the same segment membership have the same first match. */
  lemma {:induction false} SegmentIndexCongruent(a: seq<Point>, xa: real, b: seq<Point>, xb: real)
    requires forall j :: InSegment(a, j, xa) <==> InSegment(b, j, xb)
    ensures SegmentIndex(xa, a) == SegmentIndex(xb, b)
  {
    SegmentIndexIsFirst(xa, a);
    SegmentIndexIsFirst(xb, b);
  }

  /** Segment lookup reads only the x coordinates. */
  lemma SegmentIndexOnlyReadsX(x: real, a: seq<Point>, b: seq<Point>)
    requires |a| == |b|
    requires forall k :: 0 <= k < |a| ==> a[k].x == b[k].x
    ensures SegmentIndex(x, a) == SegmentIndex(x, b)
  {
    forall j ensures InSegment(a, j, x) <==> InSegment(b, j, x) {
      if 0 <= j < |a| - 1 {
        assert a[j].x == b[j].x && a[j + 1].x == b[j + 1].x;
      }
    }
    SegmentIndexCongruent(a, x, b, x);
  }

  /** The point list mapped into the component's local bounds, as the
      editor keeps it for hit-testing. */
  function Resized(points: seq<Point>, width: real, height: real): (r: seq<Point>)
    ensures |r| == |points|
  {
    seq(|points|, k requires 0 <= k < |points| => ResizePoint(points[k], LocalBounds(width, height)))
  }

  /** Looking up a pixel x among the resized points finds the same segment
      as looking up the normalized x among the normalized points. */
  lemma SegmentIndexResized(x: real, points: seq<Point>, width: real, height: real)
    requires width > 0.0
    ensures SegmentIndex(x, Resized(points, width, height)) == SegmentIndex(x / width, points)
  {
    var r := Resized(points, width, height);
    forall j ensures InSegment(r, j, x) <==> InSegment(points, j, x / width) {
      if 0 <= j < |points| - 1 {
        ResizeKeepsOrder(points[j], width, height, x);
        ResizeKeepsOrder(points[j + 1], width, height, x);
      }
    }
    SegmentIndexCongruent(r, x, points, x / width);
  }

  /** Some segment at `i` or later contains `x` when point `i` lies at or left
      of `x` and the last point at or right of it; no ordering is needed. */
  lemma {:induction false} SegmentBetween(points: seq<Point>, x: real, i: nat)
    requires i < |points| - 1
    requires points[i].x <= x <= points[|points| - 1].x
    ensures SegmentFrom(points, x, i) != -1
    decreases |points| - i
  {
    if x > points[i + 1].x {
      SegmentBetween(points, x, i + 1);
    }
  }

  /** With at least two points, every x between the first and the last
      point's x lies in some segment. */
  lemma SegmentExists(x: real, points: seq<Point>)
    requires |points| >= 2
    requires points[0].x <= x <= points[|points| - 1].x
    ensures SegmentIndex(x, points) != -1
  {
    SegmentBetween(points, x, 0);
  }

  /** The square of side `p.size` centred on the point contains `pos`; the
      left and top edges belong to it, the right and bottom edges do not. */
  predicate InHitBox(p: Point, pos: Pos)
    ensures InHitBox(p, pos) ==> p.size > 0.0
  {
    var left := p.x - p.size / 2.0;
    var top := p.y - p.size / 2.0;
    left <= pos.x < left + p.size && top <= pos.y < top + p.size
  }

  /** A non-empty hit box holds the point's centre and its top-left corner,
      but neither the middle of its right edge nor that of its bottom edge. */
  lemma HitBoxHalfOpen(p: Point)
    requires p.size > 0.0
    ensures InHitBox(p, Pos(p.x, p.y))
    ensures InHitBox(p, Pos(p.x - p.size / 2.0, p.y - p.size / 2.0))
    ensures !InHitBox(p, Pos(p.x + p.size / 2.0, p.y))
    ensures !InHitBox(p, Pos(p.x, p.y + p.size / 2.0))
  {
  }

  /** The first point at index `i` or later whose hit box contains `pos`, or -1. */
  function HitFrom(points: seq<Point>, pos: Pos, i: nat): (r: int)
    decreases |points| - i
    ensures r == -1 || i <= r < |points|
  {
    if i >= |points| then -1
    else if InHitBox(points[i], pos) then i
    else HitFrom(points, pos, i + 1)
  }

  /** The scan from `i` finds a point whose hit box contains `pos` with no
      such point before it from `i` on, or -1 when there is none from `i` on. */
  lemma {:induction false} HitFromIsFirst(points: seq<Point>, pos: Pos, i: nat)
    decreases |points| - i
    ensures var r := HitFrom(points, pos, i);
      && (r != -1 ==> InHitBox(points[r], pos))
      && (r == -1 ==> forall j :: i <= j < |points| ==> !InHitBox(points[j], pos))
      && (r != -1 ==> forall j :: i <= j < r ==> !InHitBox(points[j], pos))
  {
    if i < |points| && !InHitBox(points[i], pos) {
      HitFromIsFirst(points, pos, i + 1);
    }
  }

  /** The lowest index whose hit box contains `pos`, or -1 when none does. */
  function HitIndex(points: seq<Point>, pos: Pos): (r: int)
    ensures -1 <= r < |points|
  {
    HitFrom(points, pos, 0)
  }

  /** HitIndex is the first match: -1 exactly when no hit box contains
      `pos`, and otherwise a point whose box does with none before it. */
  lemma HitIndexIsFirst(points: seq<Point>, pos: Pos)
    ensures var r := HitIndex(points, pos);
      && (r == -1 <==> forall j :: 0 <= j < |points| ==> !InHitBox(points[j], pos))
      && (r != -1 ==> InHitBox(points[r], pos))
      && (r != -1 ==> forall j :: 0 <= j < r ==> !InHitBox(points[j], pos))
  {
    HitFromIsFirst(points, pos, 0);
  }

  /** The hit-test loop over the resized points, with an early exit. */
  method IsOverPoint(points: seq<Point>, position: Pos) returns (index: int)
    ensures index == HitIndex(points, position)
  {
    index := -1;
    var i := 0;
    while i < |points|
      invariant 0 <= i <= |points|
      invariant index == -1
      invariant forall j :: 0 <= j < i ==> !InHitBox(points[j], position)
    {
      var point := points[i];
      var left := point.x - point.size / 2.0;
      var top := point.y - point.size / 2.0;
      if left <= position.x < left + point.size && top <= position.y < top + point.size {
        index := i;
        break;
      }
      i := i + 1;
    }
    HitIndexIsFirst(points, position);
  }
}
