# Curve editor model

This project models the curve editor of the HentaiDuck plug-in's user interface.
The editor holds an ordered list of control points in normalized space
([0,1] x [0,1]). A control point has an x, a y, a shape value called `power`, a
bound on that value, and a hit-box size in pixels. The curve is evaluated one
segment at a time. A segment is straight when `power` is near 0. Otherwise it is
an exponential ease, clamped to the segment's y-range. The user edits the curve
with the pointer:

- dragging a point moves it, and it changes places with a neighbour it passes;
- dragging elsewhere reshapes the segment under the pointer;
- shift-double-click inserts a point;
- alt-double-click deletes a point (never an endpoint);
- a plain double-click straightens a segment;
- releasing the pointer ends the gesture.

Modules:

- `CurvePoint` (point.dfy) has the point datatype, the power clamp, and the
  affine map from normalized space into the component's bounds.
- `CurveSearch` (search.dfy) has the two first-match scans: segment lookup and
  point hit-testing. Each is a loop method, proved equal to a recursive
  function. The function is characterised by lemmas.
- `CurveEvaluate` (evaluate.dfy) has the segment interpolation and the curve's
  value at a normalized x.
- `CurveEditor` (editor.dfy) has the editing state machine. Every event is a
  pure step on an `EditorState` (points, drag index, last drag offset). The
  lemmas are proved about these steps. The class `CurveDisplay` holds the same
  three fields. Its methods (`MouseDrag`, `MouseUp`, `MouseDoubleClick`) make
  the change in place, and each one's `ensures` ties the new state to the
  pure step.

Pixel and normalized coordinates are kept apart. Each event takes the
component's width and height as parameters. The hit-test list is
`Resized(points, width, height)`. `SegmentIndexResized` proves that a segment
lookup of a pixel x in that list finds the same segment as a lookup of x/width
in the normalized list. The lemmas use this to state every segment lookup in
normalized terms. Hit tests stay in pixel terms: they are
`HitIndex(Resized(points, width, height), position)`, with the position in
pixels.

A curve is on its domain (`OnDomain`) when its first point is at x = 0, its
last point at x = 1, and every x lies in [0,1]. The default curve is on its
domain. Every drag and every double-click keeps a curve on its domain, so
after any sequence of edits the curve has a value everywhere on [0,1]
(`EditedCurveDefined`, and the `OnDomain` clauses of the `CurveDisplay`
methods).

The code sometimes differs from the system's design description. The model
follows the code:

- When a dragged point passes its right neighbour, the drag index goes up by
  one (Source/GUI/Curve.cpp:196-203). The description says the new index is
  the lower one.
- The power drag flips its direction when the left point's y is greater than
  the right point's (Source/GUI/Curve.cpp:210). The description says it flips
  when the right point is higher.
- Insertion does not guard against an x equal to an existing point's
  (Source/GUI/Curve.cpp:239-242). Strictly increasing x is therefore not an
  invariant of the editor. Apart from the domain invariant above, only the
  local rules of each edit are proved.
- A drag compares the dragged point only with its immediate neighbours and
  makes at most one exchange (Source/GUI/Curve.cpp:187-204).

## Model

| member | source | states |
|---|---|---|
| `CurvePoint.SetPowerClamped` | Source/GUI/Curve.cpp:24-29 | only `power` changes; a value inside `[-maxAbsPower, maxAbsPower]` is stored exactly; above the bound the bound is stored; below minus the bound, minus the bound; with a non-negative bound the stored value is always in range |
| `CurvePoint.ClampIsNearest` | Source/GUI/Curve.cpp:25-28 | the stored power is the admissible value nearest to the requested one |
| `CurvePoint.ClampIdempotent` | Source/GUI/Curve.cpp:25-28 | clamping the stored value again changes nothing |
| `CurveEditor.ClampToBound` | Source/GUI/Curve.cpp:26 | requesting 10 with the default bound 0.3 stores exactly 0.3 |
| `CurvePoint.Clamp` | Source/GUI/Curve.cpp:123-126 | the clamped value lies in `[lo, hi]`, equals the input inside it and the nearer end outside it |
| `CurvePoint.ResizePoint` | Source/GUI/Curve.cpp:13-22 | power, bound and size are kept; subtracting the origin and dividing by the width (height) gives back the normalized x (y) |
| `CurvePoint.ResizeKeepsOrder` | Source/GUI/Curve.cpp:16-17 | with a positive width, a resized x is at most (at least) a pixel x exactly when the normalized x is at most (at least) that pixel x divided by the width |
| `CurvePoint.NewPoint` | Source/GUI/Curve.cpp:8-11 | a point built from a centre has that centre, the default power 0, bound 0.3 and size, and its power lies within its bound |
| `CurvePoint.ClampToBounds` | Source/GUI/Curve.cpp:167 | the clamped pointer lies inside the bounds, and a pointer already inside is left where it is |
| `CurveSearch.InSegment` | Source/GUI/Curve.cpp:267 | a segment contains x only when its index is a valid segment index and its left end is not right of its right end |
| `CurveSearch.SegmentHoldsEnds` | Source/GUI/Curve.cpp:267 | both comparisons are inclusive: a segment contains both of its end x coordinates |
| `CurveSearch.SegmentFrom` | Source/GUI/Curve.cpp:264-271 | the scan from index `i` gives -1 or an index from `i` to the second-to-last point |
| `CurveSearch.SegmentFromIsFirst` | Source/GUI/Curve.cpp:264-271 | the scan from `i` returns a segment containing x with no containing segment between `i` and it, or -1 when no segment from `i` on contains x |
| `CurveSearch.SegmentIndex` | Source/GUI/Curve.cpp:262-274 | the result is -1 or a valid segment index (it is -1 when there are fewer than two points) |
| `CurveSearch.SegmentIndexIsFirst` | Source/GUI/Curve.cpp:262-274 | -1 exactly when no segment `[points[i].x, points[i+1].x]` contains x; otherwise the smallest such `i` |
| `CurveSearch.FindPointPositionIndex` | Source/GUI/Curve.cpp:262-274 | the loop with early exit returns exactly the first-match segment index |
| `CurveSearch.SegmentIndexOnlyReadsX` | Source/GUI/Curve.cpp:265-267 | two lists with the same x coordinates give the same segment |
| `CurveSearch.Resized` | Source/GUI/Curve.cpp:55-62 | the hit-test list has one resized point per normalized point |
| `CurveSearch.SegmentIndexResized` | Source/GUI/Curve.cpp:157 | looking up a pixel x among the resized points finds the segment that x/width finds among the normalized points |
| `CurveSearch.SegmentBetween` | Source/GUI/Curve.cpp:264-271 | when point `i` is at or left of x and the last point is at or right of it, the scan from `i` finds a segment, whatever the order of the points in between |
| `CurveSearch.SegmentExists` | Source/GUI/Curve.cpp:262-274 | with at least two points, every x between the first and the last point's x lies in some segment |
| `CurveSearch.InHitBox` | Source/GUI/Curve.cpp:280-286 | the square of side `size` centred on the point contains the position; an empty box contains nothing |
| `CurveSearch.HitBoxHalfOpen` | Source/GUI/Curve.cpp:280-286 | a non-empty box contains the centre and its top-left corner, but not the middle of its right edge or of its bottom edge |
| `CurveSearch.HitFrom` | Source/GUI/Curve.cpp:278-290 | the scan from index `i` gives -1 or an index from `i` to the last point |
| `CurveSearch.HitFromIsFirst` | Source/GUI/Curve.cpp:278-290 | the scan from `i` returns a point whose centred square of side `size` contains the position, with no such point between `i` and it, or -1 when there is none from `i` on |
| `CurveSearch.HitIndex` | Source/GUI/Curve.cpp:276-293 | the result is -1 or a valid point index |
| `CurveSearch.HitIndexIsFirst` | Source/GUI/Curve.cpp:276-293 | -1 exactly when no point's hit box contains the position; otherwise the smallest index whose box does |
| `CurveSearch.IsOverPoint` | Source/GUI/Curve.cpp:276-293 | the loop with early exit returns exactly the first-match hit index |
| `CurveEvaluate.Interpolate` | Source/GUI/Curve.cpp:99-129 | equal end x gives `to.y`; x at the left end gives `from.y`, at the right end `to.y`; power strictly between -0.005 and 0.005 gives the straight line `from.y + (to.y - from.y) * t`; otherwise the result lies between the two end y values |
| `CurveEvaluate.InterpolateWithinSegment` | Source/GUI/Curve.cpp:99-129 | for x inside the segment's x-range every branch stays within the segment's y-range |
| `CurveEvaluate.StraightMidpoint` | Source/GUI/Curve.cpp:111-113 | a straight segment takes the mean of its two end values at its midpoint |
| `CurveEvaluate.GetCurveAtNormalized` | Source/GUI/Curve.cpp:295-303 | at 0 the result is the first point's y and at 1 the last point's y; there is no value only when a point that is not there would be read |
| `CurveEvaluate.CurveWithinFoundSegment` | Source/GUI/Curve.cpp:296-302 | away from 0 and 1 the value is the interpolation over the first segment containing x, and lies in that segment's y-range |
| `CurveEvaluate.CurveDefinedOnDomain` | Source/GUI/Curve.cpp:295-303 | a curve whose first point is at x = 0 and last at x = 1 has a value everywhere on [0,1] |
| `CurveEvaluate.CurveBounded` | Source/GUI/Curve.cpp:295-303 | when every point's y lies in `[lo, hi]`, every value of the curve does too |
| `CurveEditor.DefaultPoints` | Source/GUI/Curve.cpp:40-41 | the seed list is exactly (0,1), (1,0), and it is on the domain |
| `CurveEditor.DefaultCurveMidpoint` | Source/GUI/Curve.cpp:40-41 | the default curve from (0,1) to (1,0) has value 0.5 at 0.5 |
| `CurveEditor.Swap` | Source/GUI/Curve.cpp:189-192 | the two entries change places and every other entry is kept |
| `CurveEditor.SwapPermutes` | Source/GUI/Curve.cpp:189-192 | an exchange keeps the multiset of points |
| `CurveEditor.Insert` | Source/GUI/Curve.cpp:239-242 | the new point lands at index `k`; the points before keep their index and the points after move up by one |
| `CurveEditor.Remove` | Source/GUI/Curve.cpp:249 | the list is one shorter; the points before `k` keep their index and the points after move down by one |
| `CurveEditor.RemoveKeepsEnds` | Source/GUI/Curve.cpp:248-249 | removing an interior point keeps the first and last points |
| `CurveEditor.MovePoint` | Source/GUI/Curve.cpp:169-184 | the move keeps the list's length |
| `CurveEditor.MovePointRules` | Source/GUI/Curve.cpp:169-184 | only point `i` changes, and only its x and y; y is always set; an endpoint keeps its x; an interior point keeps its old x when the new x equals either neighbour's, and takes the new x otherwise |
| `CurveEditor.Reorder` | Source/GUI/Curve.cpp:186-204 | the length is kept and the tracked index stays in range |
| `CurveEditor.ReorderRules` | Source/GUI/Curve.cpp:186-204 | at most one adjacent exchange; with the left neighbour exactly when the point is left of it; with the right one exactly when it is not and is right of that one; the tracked index still names the moved point; the multiset of points is kept |
| `CurveEditor.AdjustPower` | Source/GUI/Curve.cpp:208-218 | the power adjustment keeps the list's length |
| `CurveEditor.CheckPoint` | Source/GUI/Curve.cpp:160 | the pointer is the drag's start position displaced by the offset from the drag start |
| `CurveEditor.DraggedIndex` | Source/GUI/Curve.cpp:161-163 | the point a drag moves is none or a valid index |
| `CurveEditor.DragTarget` | Source/GUI/Curve.cpp:167-176 | the clamped pointer divided by the bounds' size lies in [0,1] x [0,1] |
| `CurveEditor.Drag` | Source/GUI/Curve.cpp:150-222 | a drag keeps the state valid (at least two points, drag index none or in range) and the number of points, and records the current offset as the last one |
| `CurveEditor.PointDragRules` | Source/GUI/Curve.cpp:164-205 | the dragged point's y is set to the target in [0,1]; its power, bound and size are kept; an endpoint keeps its x; an interior x equal to a neighbour's is reverted; otherwise x is the target; the drag index moves at most one place and still names the dragged point; the new list is the old one with the dragged point replaced and at most one adjacent exchange |
| `CurveEditor.PointDragSwapsOnCrossing` | Source/GUI/Curve.cpp:186-204 | the index goes down exactly when the moved point is left of its left neighbour, and up exactly when it is not and is right of its right neighbour |
| `CurveEditor.PointDragPermutes` | Source/GUI/Curve.cpp:164-205 | the points after a point drag are the points before with the dragged one replaced, as a multiset |
| `CurveEditor.PowerDragRules` | Source/GUI/Curve.cpp:207-218 | with no point hit, only the power of the left point of the segment containing the normalized start x changes: it becomes the old power plus 0.05 times the y change, negated unless the left point's y is greater, then clamped; the drag index stays none |
| `CurveEditor.IdleDragChangesNothing` | Source/GUI/Curve.cpp:161-220 | a drag that hits no point and starts outside every segment only records the offset |
| `CurveEditor.DoubleClick` | Source/GUI/Curve.cpp:230-260 | a double-click keeps the drag state and leaves at least two points |
| `CurveEditor.DoubleClickOutsideIsNoOp` | Source/GUI/Curve.cpp:231-232 | a double-click whose normalized x is in no segment changes nothing, with any modifier |
| `CurveEditor.InsertRule` | Source/GUI/Curve.cpp:237-243 | shift inserts exactly one point, at the click's normalized position with the default power, right after the left point of the segment containing the click |
| `CurveEditor.DeleteRule` | Source/GUI/Curve.cpp:246-251 | alt removes the hit point when it is neither endpoint and otherwise changes nothing; the first and last points always survive |
| `CurveEditor.StraightenRule` | Source/GUI/Curve.cpp:254-257 | without a modifier only the power of the segment's left point changes, and it becomes 0 when its bound is not negative |
| `CurveEditor.StraightenIdempotent` | Source/GUI/Curve.cpp:254-257 | straightening twice at the same place gives the same state as straightening once |
| `CurveEditor.DragKeepsDomain` | Source/GUI/Curve.cpp:164-218 | a drag keeps a curve on its domain: the target is clamped into [0,1], endpoints keep their x, no exchange involves an endpoint, and a power drag changes no x |
| `CurveEditor.InsertKeepsDomain` | Source/GUI/Curve.cpp:239-242 | inserting after the left end of a segment a point whose x lies in that segment keeps the curve on its domain |
| `CurveEditor.RemoveKeepsDomain` | Source/GUI/Curve.cpp:248-249 | removing an interior point keeps the curve on its domain |
| `CurveEditor.DoubleClickKeepsDomain` | Source/GUI/Curve.cpp:230-260 | every double-click keeps a curve on its domain |
| `CurveEditor.EditedCurveDefined` | Source/GUI/Curve.cpp:150-260 | starting from a curve on its domain, the curve after any drag or double-click has a value at every x in [0,1] |
| `CurveEditor.InsertIntoDefault` | Source/GUI/Curve.cpp:237-243 | shift-double-clicking the middle of the default curve gives three points with increasing x, the new one at (0.5, 0.5) with power 0 |
| `CurveEditor.DragAcrossRightNeighbour` | Source/GUI/Curve.cpp:196-203 | dragging point 1 of four past point 2 exchanges them, and the drag index becomes 2 |
| `CurveEditor.DeleteEndpointRejected` | Source/GUI/Curve.cpp:248 | alt-double-clicking onto the first endpoint of the default curve changes nothing |
| `CurveEditor.CurveDisplay.constructor` | Source/GUI/Curve.cpp:37-48 | the points are the loaded list when it has at least two points, and (0,1),(1,0) otherwise; no point is dragged and the last offset is (0,0); the curve is on its domain unless a loaded list that is not was adopted |
| `CurveEditor.CurveDisplay.MouseDrag` | Source/GUI/Curve.cpp:150-222 | the new fields are exactly the pure drag step applied to the old ones, the state stays valid, and a curve on its domain stays on it |
| `CurveEditor.CurveDisplay.MoveDraggedPoint` | Source/GUI/Curve.cpp:169-184 | the in-place move leaves the point list equal to the pure move |
| `CurveEditor.CurveDisplay.SwapPastNeighbour` | Source/GUI/Curve.cpp:186-204 | the in-place exchange leaves the points and drag index equal to the pure reorder |
| `CurveEditor.CurveDisplay.MouseUp` | Source/GUI/Curve.cpp:224-228 | the points are kept, no point is dragged and the last offset is (0,0) |
| `CurveEditor.CurveDisplay.MouseDoubleClick` | Source/GUI/Curve.cpp:230-260 | the new fields are exactly the pure double-click step applied to the old ones, the state stays valid, and a curve on its domain stays on it |

## Left out

- Rendering is not modelled: `paint`, `resized`, the path-building loop of `updateResizedCurve` and `updatePathSection` (Source/GUI/Curve.cpp:50-97, 131-148). They only draw. The resized point list they keep for hit-testing is `Resized`.
- Persistence is not modelled: `getTreeNormalizedPoints`, `updateTree`, `valueTreePropertyChanged` and `changePoint` (Source/GUI/Curve.cpp:306-391). They are calls into the JUCE ValueTree. The loaded list is the constructor's parameter, and the save in `mouseUp` is left out.
- The observer and repaint hooks `onCurveUpdated` and `repaint` are left out. They are UI callbacks.
- The exponential `std::powf(euler, …)` is the parameter `exp`. The only assumption about it is that it is 1 only at 0 (`ExpModel`). No fact about the exponential branch depends on its values beyond the clamp.
- Floating point is modelled as exact reals. There is no rounding, and 0.005f and 0.05f are taken as exact decimals. Under reals the test `x == to.x - width` is exactly `x == from.x`.
- `utils::clampToBounds` is not part of this model. `ClampToBounds` takes it as a closed clamp into the local bounds, per axis.
- JUCE's `Rectangle::contains` is not part of this model. `InHitBox` takes it as half-open: the left and top edges are inside, the right and bottom edges are not.
- Curve.h is not part of this model. The model assumes these initial values: `isDraggingIndex` is -1, `lastDragOffset` is (0,0), a new point's power is 0 and its bound is 0.3. The new point's size of 10 pixels is a stand-in. No proved property depends on that size.
- GetCurveAtNormalized: the `jassert` at Source/GUI/Curve.cpp:297 is debug-only. The model follows the release build, so at 0 or 1 it returns an endpoint's y even when no segment was found. Reading a point that does not exist is undefined in the source, and the model returns None there.
- CurveDisplay.MouseDoubleClick: requires that no point is being dragged. JUCE delivers a double-click right after the mouseUp of its second click, and that mouseUp resets the drag index (Source/GUI/Curve.cpp:226). If a point were being dragged, deleting a point could leave the drag index past the end of the list.
- CurveDisplay.MouseDrag and CurveDisplay.MouseDoubleClick: require positive bounds. A component of zero width or height has no area to receive pointer events. The source divides by the bounds' size in the point drag (Source/GUI/Curve.cpp:173, 175) and the shift-insert (Source/GUI/Curve.cpp:238). The model also divides by it when it states segment lookups in normalized terms.
- CurveDisplay.constructor: the loaded list is adopted unchecked (Source/GUI/Curve.cpp:46). The domain invariant holds from construction only when that list is on its domain or is rejected for having fewer than two points.
- Indices are unbounded integers. The `int` and `size_t` comparisons in the source never overflow for lists of at least two points, and the model keeps at least two points.
- Point.setPowerClamped is a member function in the source that changes the point in place. Points are held by value in the vector, so `SetPowerClamped` is a function that returns the updated point, and the editor writes it back into its point list.
- Source/GUI/CustomSliders.h is not part of this model. It declares a JUCE slider whose method bodies are not in the source.
