/** The curve editor: the point list it owns, the transient drag state, and
    the pointer events that move points, reshape segments, insert, delete and
    straighten. Each event is first a pure step on an EditorState, about
    which the lemmas below are proved; the class CurveDisplay performs the
    same step in place on its fields. */
module CurveEditor {
  import opened CurvePoint
  import opened CurveSearch
  import opened CurveEvaluate

  /** A drag offset from the gesture's start, in whole pixels. */
  datatype Offset = Offset(dx: int, dy: int)

  /** The editor's state: the normalized point list, the index of the point
      being dragged (-1 for none) and the drag offset seen last. */
  datatype EditorState = EditorState(points: seq<Point>, dragging: int, lastOffset: Offset)

  /** A point list and the index of the point it follows. */
  datatype Tracked = Tracked(points: seq<Point>, index: int)

  /** At least two points, and a drag index that is none or in range. */
  predicate StateValid(s: EditorState)
  {
    |s.points| >= 2 && -1 <= s.dragging < |s.points|
  }

  /** The curve spans the normalized domain: its first point sits at x = 0,
      its last at x = 1, and every point's x lies in [0,1]. */
  predicate OnDomain(points: seq<Point>)
  {
    && |points| >= 2
    && points[0].x == 0.0 && points[|points| - 1].x == 1.0
    && forall k :: 0 <= k < |points| ==> 0.0 <= points[k].x <= 1.0
  }

  /** The two points every curve starts with: (0,1) and (1,0). */
  function DefaultPoints(): (r: seq<Point>)
    ensures |r| == 2 && r[0] == NewPoint(0.0, 1.0) && r[1] == NewPoint(1.0, 0.0)
    ensures OnDomain(r)
  {
    [NewPoint(0.0, 1.0), NewPoint(1.0, 0.0)]
  }

  /** The list with the elements at `i` and `j` exchanged (nothing when i == j). */
  function Swap(points: seq<Point>, i: int, j: int): (r: seq<Point>)
    requires 0 <= i < |points| && 0 <= j < |points|
    ensures |r| == |points| && r[i] == points[j] && r[j] == points[i]
    ensures forall k :: 0 <= k < |points| && k != i && k != j ==> r[k] == points[k]
  {
    points[i := points[j]][j := points[i]]
  }

  /** Swapping rearranges the list without changing its contents. */
  lemma SwapPermutes(points: seq<Point>, i: int, j: int)
    requires 0 <= i < |points| && 0 <= j < |points|
    ensures multiset(Swap(points, i, j)) == multiset(points)
  {
  }

  /** The list with `p` inserted so that it lands at index `k`. */
  function Insert(points: seq<Point>, k: int, p: Point): (r: seq<Point>)
    requires 0 <= k <= |points|
    ensures |r| == |points| + 1 && r[k] == p
    ensures forall j :: 0 <= j < k ==> r[j] == points[j]
    ensures forall j :: k < j < |r| ==> r[j] == points[j - 1]
  {
    points[..k] + [p] + points[k..]
  }

  /** The list without its element at index `k`. */
  function Remove(points: seq<Point>, k: int): (r: seq<Point>)
    requires 0 <= k < |points|
    ensures |r| == |points| - 1
    ensures forall j :: 0 <= j < k ==> r[j] == points[j]
    ensures forall j :: k <= j < |r| ==> r[j] == points[j + 1]
  {
    points[..k] + points[k + 1..]
  }

  /** Removing an interior point keeps both endpoints. */
  lemma RemoveKeepsEnds(points: seq<Point>, k: int)
    requires 0 < k < |points| - 1
    ensures var r := Remove(points, k); r[0] == points[0] && r[|r| - 1] == points[|points| - 1]
  {
  }

  /** Point `i` moved to normalized (nx, ny), under the endpoint and
      collision rules stated in MovePointRules. */
  function MovePoint(points: seq<Point>, i: int, nx: real, ny: real): (r: seq<Point>)
    requires 0 <= i < |points|
    ensures |r| == |points|
  {
    var unchangedX := points[i].x;
    var endpoint := i == 0 || i == |points| - 1;
    var moved := points[i := points[i].(x := if endpoint then points[i].x else nx, y := ny)];
    if !endpoint && (moved[i].x == moved[i + 1].x || moved[i].x == moved[i - 1].x)
    then moved[i := moved[i].(x := unchangedX)]
    else moved
  }

  /** A move changes only point `i`, and of it only x and y: y becomes `ny`;
      an endpoint keeps its x; an interior point keeps its x when `nx` equals
      a neighbour's x and takes `nx` otherwise. */
  lemma MovePointRules(points: seq<Point>, i: int, nx: real, ny: real)
    requires 0 <= i < |points|
    ensures var r := MovePoint(points, i, nx, ny);
      && r == points[i := r[i]]
      && r[i] == points[i].(x := r[i].x, y := ny)
      && (i == 0 || i == |points| - 1 ==> r[i].x == points[i].x)
      && (0 < i < |points| - 1 && (nx == points[i - 1].x || nx == points[i + 1].x) ==> r[i].x == points[i].x)
      && (0 < i < |points| - 1 && nx != points[i - 1].x && nx != points[i + 1].x ==> r[i].x == nx)
  {
  }

  /** After a move, swap point `i` with its left neighbour if it is now left
      of it, then with its right neighbour if it is now right of it; the
      returned index follows the moved point. */
  function Reorder(points: seq<Point>, i: int): (r: Tracked)
    requires 0 <= i < |points|
    ensures |r.points| == |points| && 0 <= r.index < |points|
  {
    var left := if i > 0 && points[i].x < points[i - 1].x
      then Tracked(Swap(points, i, i - 1), i - 1) else Tracked(points, i);
    if left.index < |points| - 1 && left.points[left.index].x > left.points[left.index + 1].x
    then Tracked(Swap(left.points, left.index, left.index + 1), left.index + 1)
    else left
  }

  /** Reordering makes at most one exchange, with an adjacent point: with the
      left neighbour exactly when point `i` is left of it, with the right one
      exactly when it is not and is right of that one. The index follows the
      point and the contents are unchanged. */
  lemma ReorderRules(points: seq<Point>, i: int)
    requires 0 <= i < |points|
    ensures var r := Reorder(points, i);
      && i - 1 <= r.index <= i + 1
      && r.points == Swap(points, i, r.index)
      && r.points[r.index] == points[i]
      && multiset(r.points) == multiset(points)
      && (r.index == i - 1 <==> i > 0 && points[i].x < points[i - 1].x)
      && (r.index == i + 1 <==>
           !(i > 0 && points[i].x < points[i - 1].x) && i < |points| - 1 && points[i].x > points[i + 1].x)
  {
    var r := Reorder(points, i);
    SwapPermutes(points, i, r.index);
  }

  /** The power of segment `k`'s left point changed by `yOffset` times 0.05
      (the multiplier negated), the sign flipped when the left point's y is
      greater than the right one's, then clamped. */
  function AdjustPower(points: seq<Point>, k: int, yOffset: real): (r: seq<Point>)
    requires 0 <= k < |points| - 1
    ensures |r| == |points|
  {
    var multiplier := if points[k].y > points[k + 1].y then -0.05 else 0.05;
    points[k := SetPowerClamped(points[k], points[k].power + yOffset * -multiplier)]
  }

  /** The pointer's position in pixels during a drag. */
  function CheckPoint(down: Pos, offset: Offset): (r: Pos)
    ensures r.x - down.x == offset.dx as real && r.y - down.y == offset.dy as real
  {
    Pos(down.x + offset.dx as real, down.y + offset.dy as real)
  }

  /** The point a drag event moves: the one already being dragged, else the
      first whose hit box contains the pointer, else -1. */
  function DraggedIndex(s: EditorState, down: Pos, offset: Offset, width: real, height: real): (d: int)
    requires StateValid(s)
    ensures -1 <= d < |s.points|
  {
    if s.dragging == -1 then HitIndex(Resized(s.points, width, height), CheckPoint(down, offset))
    else s.dragging
  }

  /** The normalized target of a point drag: the pointer clamped into the
      bounds, divided by the bounds' size. */
  function DragTarget(down: Pos, offset: Offset, width: real, height: real): (t: Pos)
    requires width > 0.0 && height > 0.0
    ensures 0.0 <= t.x <= 1.0 && 0.0 <= t.y <= 1.0
  {
    var c := ClampToBounds(CheckPoint(down, offset), LocalBounds(width, height));
    UnitFraction(c.x, width);
    UnitFraction(c.y, height);
    Pos(c.x / width, c.y / height)
  }

  /** One drag event, with `down` the pixel position where the gesture
      started and `offset` the pixel offset from there. */
  function Drag(s: EditorState, down: Pos, offset: Offset, width: real, height: real): (r: EditorState)
    requires StateValid(s) && width > 0.0 && height > 0.0
    ensures StateValid(r)
    ensures |r.points| == |s.points|
    ensures r.lastOffset == offset
  {
    var d := DraggedIndex(s, down, offset, width, height);
    var segment := SegmentIndex(down.x, Resized(s.points, width, height));
    if d != -1 then
      var t := DragTarget(down, offset, width, height);
      var r := Reorder(MovePoint(s.points, d, t.x, t.y), d);
      EditorState(r.points, r.index, offset)
    else if segment != -1 then
      EditorState(AdjustPower(s.points, segment, (offset.dy - s.lastOffset.dy) as real), -1, offset)
    else
      EditorState(s.points, -1, offset)
  }

  /** One double-click at pixel position `down`: shift inserts, alt deletes,
      no modifier straightens; a click outside every segment does nothing. */
  function DoubleClick(s: EditorState, down: Pos, shift: bool, alt: bool, width: real, height: real): (r: EditorState)
    requires StateValid(s) && width > 0.0 && height > 0.0
    ensures r.dragging == s.dragging && r.lastOffset == s.lastOffset
    ensures |r.points| >= 2
  {
    var resized := Resized(s.points, width, height);
    var segment := SegmentIndex(down.x, resized);
    if segment == -1 then s
    else if shift then
      s.(points := Insert(s.points, segment + 1, NewPoint(down.x / width, down.y / height)))
    else if alt then
      var k := HitIndex(resized, down);
      if k != -1 && k != 0 && k != |s.points| - 1 then s.(points := Remove(s.points, k)) else s
    else
      s.(points := s.points[segment := SetPowerClamped(s.points[segment], 0.0)])
  }

  // ---------------------------------------------------------------------
  // Properties of the drag.

  /** A point drag sets the dragged point's y, moves its x under the endpoint
      and collision rules, keeps its other fields, and otherwise at most
      exchanges it with one neighbour; the drag index follows the point. */
  lemma PointDragRules(s: EditorState, down: Pos, offset: Offset, width: real, height: real)
    requires StateValid(s) && width > 0.0 && height > 0.0
    requires DraggedIndex(s, down, offset, width, height) != -1
    ensures var d := DraggedIndex(s, down, offset, width, height);
      var t := DragTarget(down, offset, width, height);
      var r := Drag(s, down, offset, width, height);
      var p := r.points[r.dragging];
      var n := |s.points|;
      && p == s.points[d].(x := p.x, y := t.y)
      && 0.0 <= p.y <= 1.0
      && ((d == 0 || d == n - 1) ==> p.x == s.points[d].x)
      && ((0 < d < n - 1 && (t.x == s.points[d - 1].x || t.x == s.points[d + 1].x)) ==> p.x == s.points[d].x)
      && ((0 < d < n - 1 && t.x != s.points[d - 1].x && t.x != s.points[d + 1].x) ==> p.x == t.x)
      && d - 1 <= r.dragging <= d + 1
      && r.points == Swap(s.points[d := p], d, r.dragging)
  {
    var d := DraggedIndex(s, down, offset, width, height);
    var t := DragTarget(down, offset, width, height);
    var moved := MovePoint(s.points, d, t.x, t.y);
    MovePointRules(s.points, d, t.x, t.y);
    ReorderRules(moved, d);
  }

  /** A point drag exchanges the dragged point with its left neighbour exactly
      when its new x is left of that neighbour's, and with its right one
      exactly when it is not and its new x is right of that neighbour's. */
  lemma PointDragSwapsOnCrossing(s: EditorState, down: Pos, offset: Offset, width: real, height: real)
    requires StateValid(s) && width > 0.0 && height > 0.0
    requires DraggedIndex(s, down, offset, width, height) != -1
    ensures var d := DraggedIndex(s, down, offset, width, height);
      var t := DragTarget(down, offset, width, height);
      var moved := MovePoint(s.points, d, t.x, t.y);
      var r := Drag(s, down, offset, width, height);
      && (r.dragging == d - 1 <==> d > 0 && moved[d].x < s.points[d - 1].x)
      && (r.dragging == d + 1 <==>
           !(d > 0 && moved[d].x < s.points[d - 1].x) && d < |s.points| - 1 && moved[d].x > s.points[d + 1].x)
  {
    var d := DraggedIndex(s, down, offset, width, height);
    var t := DragTarget(down, offset, width, height);
    var moved := MovePoint(s.points, d, t.x, t.y);
    MovePointRules(s.points, d, t.x, t.y);
    ReorderRules(moved, d);
  }

  /** The points after a point drag are a rearrangement of the points before
      it with only the dragged point replaced. */
  lemma PointDragPermutes(s: EditorState, down: Pos, offset: Offset, width: real, height: real)
    requires StateValid(s) && width > 0.0 && height > 0.0
    requires DraggedIndex(s, down, offset, width, height) != -1
    ensures var d := DraggedIndex(s, down, offset, width, height);
      var r := Drag(s, down, offset, width, height);
      multiset(r.points) == multiset(s.points) - multiset{s.points[d]} + multiset{r.points[r.dragging]}
  {
    var d := DraggedIndex(s, down, offset, width, height);
    var t := DragTarget(down, offset, width, height);
    var moved := MovePoint(s.points, d, t.x, t.y);
    MovePointRules(s.points, d, t.x, t.y);
    ReorderRules(moved, d);
    assert multiset(moved) == multiset(s.points) - multiset{s.points[d]} + multiset{moved[d]};
  }

  /** With no point under the pointer, a drag that starts inside a segment
      changes only the power of that segment's left point, by the offset's
      y change times 0.05, downwards unless the left point's y is greater
      than the right one's, and clamps it; the drag index stays none. The
      segment is the one containing the normalized start x. */
  lemma PowerDragRules(s: EditorState, down: Pos, offset: Offset, width: real, height: real)
    requires StateValid(s) && width > 0.0 && height > 0.0
    requires DraggedIndex(s, down, offset, width, height) == -1
    requires SegmentIndex(down.x / width, s.points) != -1
    ensures var k := SegmentIndex(down.x / width, s.points);
      var r := Drag(s, down, offset, width, height);
      var pts := s.points;
      var delta := (if pts[k].y > pts[k + 1].y then 0.05 else -0.05) * (offset.dy - s.lastOffset.dy) as real;
      && r.dragging == -1
      && r.points == pts[k := SetPowerClamped(pts[k], pts[k].power + delta)]
      && r.points[k] == pts[k].(power := r.points[k].power)
      && (pts[k].maxAbsPower >= 0.0 ==> -pts[k].maxAbsPower <= r.points[k].power <= pts[k].maxAbsPower)
  {
    SegmentIndexResized(down.x, s.points, width, height);
  }

  /** A drag that hits no point and starts outside every segment leaves the
      points as they were. */
  lemma IdleDragChangesNothing(s: EditorState, down: Pos, offset: Offset, width: real, height: real)
    requires StateValid(s) && width > 0.0 && height > 0.0
    requires DraggedIndex(s, down, offset, width, height) == -1
    requires SegmentIndex(down.x / width, s.points) == -1
    ensures Drag(s, down, offset, width, height) == EditorState(s.points, -1, offset)
  {
    SegmentIndexResized(down.x, s.points, width, height);
  }

  // ---------------------------------------------------------------------
  // Properties of the double-click.

  /** A double-click whose normalized x lies in no segment changes nothing. */
  lemma DoubleClickOutsideIsNoOp(s: EditorState, down: Pos, shift: bool, alt: bool, width: real, height: real)
    requires StateValid(s) && width > 0.0 && height > 0.0
    requires SegmentIndex(down.x / width, s.points) == -1
    ensures DoubleClick(s, down, shift, alt, width, height) == s
  {
    SegmentIndexResized(down.x, s.points, width, height);
  }

  /** Shift inserts one point with the default power right after the left
      point of the segment containing the click. */
  lemma InsertRule(s: EditorState, down: Pos, alt: bool, width: real, height: real)
    requires StateValid(s) && width > 0.0 && height > 0.0
    requires SegmentIndex(down.x / width, s.points) != -1
    ensures var k := SegmentIndex(down.x / width, s.points);
      var r := DoubleClick(s, down, true, alt, width, height);
      && |r.points| == |s.points| + 1
      && r.points == s.points[..k + 1] + [NewPoint(down.x / width, down.y / height)] + s.points[k + 1..]
      && r.points[k + 1].x == down.x / width && r.points[k + 1].y == down.y / height
      && r.points[k + 1].power == DefaultPower
  {
    SegmentIndexResized(down.x, s.points, width, height);
  }

  /** Alt deletes the point under the click when it is neither endpoint;
      otherwise nothing changes. The endpoints always survive. */
  lemma DeleteRule(s: EditorState, down: Pos, width: real, height: real)
    requires StateValid(s) && width > 0.0 && height > 0.0
    requires SegmentIndex(down.x / width, s.points) != -1
    ensures var k := HitIndex(Resized(s.points, width, height), down);
      var r := DoubleClick(s, down, false, true, width, height);
      && (0 < k < |s.points| - 1 ==> r.points == Remove(s.points, k))
      && (!(0 < k < |s.points| - 1) ==> r == s)
      && r.points[0] == s.points[0]
      && r.points[|r.points| - 1] == s.points[|s.points| - 1]
  {
    SegmentIndexResized(down.x, s.points, width, height);
    var k := HitIndex(Resized(s.points, width, height), down);
    var r := DoubleClick(s, down, false, true, width, height);
    assert r == if 0 < k < |s.points| - 1 then s.(points := Remove(s.points, k)) else s;
    if 0 < k < |s.points| - 1 {
      RemoveKeepsEnds(s.points, k);
    }
  }

  /** Without a modifier the left point of the segment under the click gets
      power 0 (when its bound is not negative); nothing else changes. */
  lemma StraightenRule(s: EditorState, down: Pos, width: real, height: real)
    requires StateValid(s) && width > 0.0 && height > 0.0
    requires SegmentIndex(down.x / width, s.points) != -1
    ensures var k := SegmentIndex(down.x / width, s.points);
      var r := DoubleClick(s, down, false, false, width, height);
      && r.points == s.points[k := s.points[k].(power := r.points[k].power)]
      && (s.points[k].maxAbsPower >= 0.0 ==> r.points[k].power == 0.0)
  {
    SegmentIndexResized(down.x, s.points, width, height);
  }

  /** Straightening twice at the same place is straightening once. */
  lemma StraightenIdempotent(s: EditorState, down: Pos, width: real, height: real)
    requires StateValid(s) && width > 0.0 && height > 0.0
    ensures var once := DoubleClick(s, down, false, false, width, height);
      DoubleClick(once, down, false, false, width, height) == once
  {
    var once := DoubleClick(s, down, false, false, width, height);
    var a, b := Resized(s.points, width, height), Resized(once.points, width, height);
    var k := SegmentIndex(down.x, a);
    if k != -1 {
      assert once.points == s.points[k := SetPowerClamped(s.points[k], 0.0)];
      assert forall j :: 0 <= j < |a| ==> a[j].x == b[j].x;
      SegmentIndexOnlyReadsX(down.x, a, b);
      assert SegmentIndex(down.x, b) == k;
      assert SetPowerClamped(once.points[k], 0.0) == once.points[k];
    }
  }

  // ---------------------------------------------------------------------
  // The curve keeps its domain.

  /** A drag keeps the curve on its domain: the target is clamped into
      [0,1], the endpoints never move in x, and an exchange never involves
      an endpoint, since it needs an x left of 0 or right of 1. */
  lemma DragKeepsDomain(s: EditorState, down: Pos, offset: Offset, width: real, height: real)
    requires StateValid(s) && width > 0.0 && height > 0.0
    requires OnDomain(s.points)
    ensures OnDomain(Drag(s, down, offset, width, height).points)
  {
    var d := DraggedIndex(s, down, offset, width, height);
    var n := |s.points|;
    if d != -1 {
      var t := DragTarget(down, offset, width, height);
      var moved := MovePoint(s.points, d, t.x, t.y);
      MovePointRules(s.points, d, t.x, t.y);
      assert OnDomain(moved);
      var r := Reorder(moved, d);
      ReorderRules(moved, d);
      assert r.index != d ==> 0 < d < n - 1 && 0 < r.index < n - 1;
    } else {
      var segment := SegmentIndex(down.x, Resized(s.points, width, height));
      if segment != -1 {
        var r := AdjustPower(s.points, segment, (offset.dy - s.lastOffset.dy) as real);
        assert forall k :: 0 <= k < n ==> r[k].x == s.points[k].x;
      }
    }
  }

  /** A point inserted right after the left end of a segment, with an x
      inside that segment, keeps the curve on its domain. */
  lemma InsertKeepsDomain(points: seq<Point>, k: int, p: Point)
    requires OnDomain(points) && 0 <= k < |points| - 1
    requires points[k].x <= p.x <= points[k + 1].x
    ensures OnDomain(Insert(points, k + 1, p))
  {
    var r := Insert(points, k + 1, p);
    forall j | 0 <= j < |r|
      ensures 0.0 <= r[j].x <= 1.0
    {
      if j > k + 1 {
        assert r[j] == points[j - 1];
      }
    }
  }

  /** Removing an interior point keeps the curve on its domain. */
  lemma RemoveKeepsDomain(points: seq<Point>, k: int)
    requires OnDomain(points) && 0 < k < |points| - 1
    ensures OnDomain(Remove(points, k))
  {
    var r := Remove(points, k);
    forall j | 0 <= j < |r|
      ensures 0.0 <= r[j].x <= 1.0
    {
      if j >= k {
        assert r[j] == points[j + 1];
      }
    }
  }

  /** A double-click keeps the curve on its domain: an inserted point lies
      inside the segment that was found, and deletion spares the endpoints. */
  lemma DoubleClickKeepsDomain(s: EditorState, down: Pos, shift: bool, alt: bool, width: real, height: real)
    requires StateValid(s) && width > 0.0 && height > 0.0
    requires OnDomain(s.points)
    ensures OnDomain(DoubleClick(s, down, shift, alt, width, height).points)
  {
    var resized := Resized(s.points, width, height);
    var k := SegmentIndex(down.x, resized);
    SegmentIndexResized(down.x, s.points, width, height);
    if k != -1 {
      if shift {
        SegmentIndexIsFirst(down.x / width, s.points);
        InsertKeepsDomain(s.points, k, NewPoint(down.x / width, down.y / height));
      } else if alt {
        var h := HitIndex(resized, down);
        if h != -1 && h != 0 && h != |s.points| - 1 {
          RemoveKeepsDomain(s.points, h);
        }
      } else {
        var r := s.points[k := SetPowerClamped(s.points[k], 0.0)];
        assert forall j :: 0 <= j < |r| ==> r[j].x == s.points[j].x;
      }
    }
  }

  /** On a curve that spans its domain, the curve left by any drag or
      double-click has a value everywhere on [0,1]. */
  lemma EditedCurveDefined(s: EditorState, down: Pos, offset: Offset, shift: bool, alt: bool,
                           width: real, height: real, x: real, exp: real -> real)
    requires ExpModel(exp)
    requires StateValid(s) && width > 0.0 && height > 0.0
    requires OnDomain(s.points)
    requires 0.0 <= x <= 1.0
    ensures GetCurveAtNormalized(x, Drag(s, down, offset, width, height).points, exp).Some?
    ensures GetCurveAtNormalized(x, DoubleClick(s, down, shift, alt, width, height).points, exp).Some?
  {
    DragKeepsDomain(s, down, offset, width, height);
    CurveDefinedOnDomain(x, Drag(s, down, offset, width, height).points, exp);
    DoubleClickKeepsDomain(s, down, shift, alt, width, height);
    CurveDefinedOnDomain(x, DoubleClick(s, down, shift, alt, width, height).points, exp);
  }

  // ---------------------------------------------------------------------
  // The editor component.

  class CurveDisplay {
    var points: seq<Point>
    var isDraggingIndex: int
    var lastDragOffset: Offset

    function State(): EditorState
      reads this
    {
      EditorState(points, isDraggingIndex, lastDragOffset)
    }

    predicate Valid()
      reads this
    {
      StateValid(State())
    }

    /** Starts from the two default points and adopts the loaded list when
        it has at least two points. */
    constructor (loaded: seq<Point>)
      ensures Valid()
      ensures points == if |loaded| >= 2 then loaded else DefaultPoints()
      ensures isDraggingIndex == -1 && lastDragOffset == Offset(0, 0)
      ensures (|loaded| < 2 || OnDomain(loaded)) ==> OnDomain(points)
    {
      points := DefaultPoints();
      isDraggingIndex := -1;
      lastDragOffset := Offset(0, 0);
      if |loaded| >= 2 {
        points := loaded;
      }
    }

    /** A drag event; `down` is where the gesture started and `offset` the
        offset from there, both in pixels of bounds `width` x `height`. */
    method MouseDrag(down: Pos, offset: Offset, width: real, height: real)
      requires Valid() && width > 0.0 && height > 0.0
      modifies this
      ensures Valid()
      ensures State() == Drag(old(State()), down, offset, width, height)
      ensures old(OnDomain(points)) ==> OnDomain(points)
    {
      ghost var s := State();
      var resized := Resized(points, width, height);
      var yOffset := (offset.dy - lastDragOffset.dy) as real;
      var pointToPowerIndex := FindPointPositionIndex(down.x, resized);
      var checkPoint := CheckPoint(down, offset);
      if isDraggingIndex == -1 {
        isDraggingIndex := IsOverPoint(resized, checkPoint);
      }
      assert isDraggingIndex == DraggedIndex(s, down, offset, width, height);
      if isDraggingIndex != -1 {
        var target := ClampToBounds(checkPoint, LocalBounds(width, height));
        assert Pos(target.x / width, target.y / height) == DragTarget(down, offset, width, height);
        MoveDraggedPoint(target.x / width, target.y / height);
        SwapPastNeighbour();
      } else if pointToPowerIndex != -1 {
        var multiplier := 0.05;
        if points[pointToPowerIndex].y > points[pointToPowerIndex + 1].y {
          multiplier := -multiplier;
        }
        points := points[pointToPowerIndex :=
          SetPowerClamped(points[pointToPowerIndex], points[pointToPowerIndex].power + yOffset * -multiplier)];
        assert points == AdjustPower(s.points, pointToPowerIndex, yOffset);
      }
      lastDragOffset := offset;
      if OnDomain(s.points) {
        DragKeepsDomain(s, down, offset, width, height);
      }
    }

    /** The dragged point takes normalized (nx, ny), except that an endpoint
        keeps its x and an interior point keeps it when it would land on a
        neighbour's x. */
    method MoveDraggedPoint(nx: real, ny: real)
      requires Valid() && isDraggingIndex != -1
      modifies this
      ensures Valid()
      ensures isDraggingIndex == old(isDraggingIndex) && lastDragOffset == old(lastDragOffset)
      ensures points == MovePoint(old(points), old(isDraggingIndex), nx, ny)
    {
      var i := isDraggingIndex;
      var unchangedX := points[i].x;
      var newX := if i == 0 || i == |points| - 1 then points[i].x else nx;
      points := points[i := points[i].(x := newX, y := ny)];
      if 0 < i < |points| - 1 {
        if points[i].x == points[i + 1].x || points[i].x == points[i - 1].x {
          points := points[i := points[i].(x := unchangedX)];
        }
      }
    }

    /** The dragged point changes places with the neighbour it has passed,
        and the drag index follows it. */
    method SwapPastNeighbour()
      requires Valid() && isDraggingIndex != -1
      modifies this
      ensures Valid()
      ensures var r := Reorder(old(points), old(isDraggingIndex));
        points == r.points && isDraggingIndex == r.index
      ensures lastDragOffset == old(lastDragOffset)
    {
      var i := isDraggingIndex;
      if i > 0 && points[i].x < points[i - 1].x {
        points := Swap(points, i, i - 1);
        isDraggingIndex := i - 1;
      }
      if isDraggingIndex < |points| - 1 && points[isDraggingIndex].x > points[isDraggingIndex + 1].x {
        points := Swap(points, isDraggingIndex, isDraggingIndex + 1);
        isDraggingIndex := isDraggingIndex + 1;
      }
    }

    /** Releasing the pointer resets the drag state; saving the points is
        not part of this model. */
    method MouseUp()
      modifies this
      ensures points == old(points) && isDraggingIndex == -1 && lastDragOffset == Offset(0, 0)
    {
      lastDragOffset := Offset(0, 0);
      isDraggingIndex := -1;
    }

    /** A double-click at pixel position `down`. A double-click is delivered
        right after the mouseUp of its second click, which has reset the drag
        index, so no point is being dragged. */
    method MouseDoubleClick(down: Pos, shift: bool, alt: bool, width: real, height: real)
      requires Valid() && isDraggingIndex == -1 && width > 0.0 && height > 0.0
      modifies this
      ensures Valid()
      ensures State() == DoubleClick(old(State()), down, shift, alt, width, height)
      ensures old(OnDomain(points)) ==> OnDomain(points)
    {
      ghost var s := State();
      if OnDomain(points) {
        DoubleClickKeepsDomain(s, down, shift, alt, width, height);
      }
      var resized := Resized(points, width, height);
      var pointIndex := FindPointPositionIndex(down.x, resized);
      if pointIndex == -1 {
        return;
      }
      if shift {
        var normalizedPos := Pos(down.x / width, down.y / height);
        points := Insert(points, pointIndex + 1, NewPoint(normalizedPos.x, normalizedPos.y));
      } else if alt {
        var hit := IsOverPoint(resized, down);
        if hit != -1 && hit != 0 && hit != |points| - 1 {
          points := Remove(points, hit);
        }
      } else {
        var segment := FindPointPositionIndex(down.x, resized);
        if segment != -1 {
          points := points[segment := SetPowerClamped(points[segment], 0.0)];
        }
      }
    }
  }

  // ---------------------------------------------------------------------
  // Worked scenarios.

  /** The default curve is the straight line from (0,1) to (1,0). */
  lemma DefaultCurveMidpoint(exp: real -> real)
    requires ExpModel(exp)
    ensures GetCurveAtNormalized(0.5, DefaultPoints(), exp) == Some(0.5)
  {
    assert InSegment(DefaultPoints(), 0, 0.5);
  }

  /** Shift-double-clicking the middle of the default curve on a 100 x 100
      component gives three points in increasing x, the new one straight. */
  lemma InsertIntoDefault()
    ensures var s := EditorState(DefaultPoints(), -1, Offset(0, 0));
      var r := DoubleClick(s, Pos(50.0, 50.0), true, false, 100.0, 100.0);
      && r.points == [NewPoint(0.0, 1.0), NewPoint(0.5, 0.5), NewPoint(1.0, 0.0)]
      && r.points[0].x < r.points[1].x < r.points[2].x
      && r.points[1].power == 0.0
  {
    var s := EditorState(DefaultPoints(), -1, Offset(0, 0));
    assert SegmentIndex(0.5, s.points) == 0 by {
      assert InSegment(s.points, 0, 0.5);
    }
    InsertRule(s, Pos(50.0, 50.0), false, 100.0, 100.0);
  }

  /** Dragging point 1 of four past point 2 exchanges them, and the drag
      index follows the point to index 2. */
  lemma DragAcrossRightNeighbour()
    ensures var pts := [NewPoint(0.0, 1.0), NewPoint(0.3, 0.5), NewPoint(0.6, 0.4), NewPoint(1.0, 0.0)];
      var s := EditorState(pts, 1, Offset(0, 0));
      var r := Drag(s, Pos(30.0, 50.0), Offset(50, 0), 100.0, 100.0);
      && r.dragging == 2
      && r.points == [NewPoint(0.0, 1.0), NewPoint(0.6, 0.4), NewPoint(0.8, 0.5), NewPoint(1.0, 0.0)]
  {
    var pts := [NewPoint(0.0, 1.0), NewPoint(0.3, 0.5), NewPoint(0.6, 0.4), NewPoint(1.0, 0.0)];
    var s := EditorState(pts, 1, Offset(0, 0));
    assert DraggedIndex(s, Pos(30.0, 50.0), Offset(50, 0), 100.0, 100.0) == 1;
    assert DragTarget(Pos(30.0, 50.0), Offset(50, 0), 100.0, 100.0) == Pos(0.8, 0.5);
    var moved := [NewPoint(0.0, 1.0), NewPoint(0.8, 0.5), NewPoint(0.6, 0.4), NewPoint(1.0, 0.0)];
    assert MovePoint(pts, 1, 0.8, 0.5) == moved;
    assert Reorder(moved, 1) == Tracked(Swap(moved, 1, 2), 2);
  }

  /** Alt-double-clicking onto the first endpoint of the default curve
      deletes nothing. */
  lemma DeleteEndpointRejected()
    ensures var s := EditorState(DefaultPoints(), -1, Offset(0, 0));
      DoubleClick(s, Pos(0.0, 100.0), false, true, 100.0, 100.0) == s
  {
    var s := EditorState(DefaultPoints(), -1, Offset(0, 0));
    assert HitIndex(Resized(s.points, 100.0, 100.0), Pos(0.0, 100.0)) == 0 by {
      assert InHitBox(Resized(s.points, 100.0, 100.0)[0], Pos(0.0, 100.0));
    }
  }

  /** Requesting power 10 with bound 0.3 stores exactly 0.3. */
  lemma ClampToBound()
    ensures SetPowerClamped(NewPoint(0.5, 0.5), 10.0).power == 0.3
  {
  }
}
