/** Control points of the curve editor and the maps between normalized space
    ([0,1] x [0,1]) and the pixel space of the component's bounds. */
module CurvePoint {

  /** A control point: normalized coordinates, the segment shape value
      ("power") of the segment that starts here, the bound on the magnitude of
      that value, and the side of its square hit box in pixels. */
  datatype Point = Point(x: real, y: real, power: real, maxAbsPower: real, size: real)

  /** A position, in pixels or normalized, depending on the caller. */
  datatype Pos = Pos(x: real, y: real)

  /** A rectangle given by its origin and its size. */
  datatype Rect = Rect(x: real, y: real, width: real, height: real)

  /** Values a freshly constructed point takes for the fields its
      constructor does not set. */
  const DefaultPower: real := 0.0
  const DefaultMaxAbsPower: real := 0.3
  const DefaultSize: real := 10.0

  /** The point constructed from a centre alone. */
  function NewPoint(x: real, y: real): (r: Point)
    ensures r.x == x && r.y == y
    ensures r.power == DefaultPower && r.maxAbsPower == DefaultMaxAbsPower && r.size == DefaultSize
    ensures -r.maxAbsPower <= r.power <= r.maxAbsPower
  {
    Point(x, y, DefaultPower, DefaultMaxAbsPower, DefaultSize)
  }

  /** The component's local bounds: origin (0,0), the given width and height. */
  function LocalBounds(width: real, height: real): (r: Rect)
  {
    Rect(0.0, 0.0, width, height)
  }

  /** `v` clamped into `[lo, hi]` the way std::clamp does it. */
  function Clamp(v: real, lo: real, hi: real): (r: real)
    requires lo <= hi
    ensures lo <= r <= hi
    ensures lo <= v <= hi ==> r == v
    ensures v < lo ==> r == lo
    ensures hi < v ==> r == hi
  {
    if v < lo then lo else if hi < v then hi else v
  }

  /** The smaller and the larger of two values. */
  function Min(a: real, b: real): (r: real)
    ensures (r == a || r == b) && r <= a && r <= b
  {
    if a <= b then a else b
  }

  function Max(a: real, b: real): (r: real)
    ensures (r == a || r == b) && a <= r && b <= r
  {
    if a <= b then b else a
  }

  /** The point with its power set to `power` clamped into
      `[-maxAbsPower, maxAbsPower]`; every other field is kept. */
  function SetPowerClamped(p: Point, power: real): (r: Point)
    ensures r == p.(power := r.power)
    ensures -p.maxAbsPower <= power <= p.maxAbsPower ==> r.power == power
    ensures power > p.maxAbsPower ==> r.power == p.maxAbsPower
    ensures power < -p.maxAbsPower && power <= p.maxAbsPower ==> r.power == -p.maxAbsPower
    ensures p.maxAbsPower >= 0.0 ==> -p.maxAbsPower <= r.power <= p.maxAbsPower
  {
    if power > p.maxAbsPower then p.(power := p.maxAbsPower)
    else if power < -p.maxAbsPower then p.(power := -p.maxAbsPower)
    else p.(power := power)
  }

  /** The clamp picks the value of the admissible range nearest to the
      requested one. */
  lemma ClampIsNearest(p: Point, power: real, other: real)
    requires p.maxAbsPower >= 0.0
    requires -p.maxAbsPower <= other <= p.maxAbsPower
    ensures var stored := SetPowerClamped(p, power).power;
      (stored - power) * (stored - power) <= (other - power) * (other - power)
  {
    var stored := SetPowerClamped(p, power).power;
    var m := p.maxAbsPower;
    if power > m {
      assert 0.0 <= power - m <= power - other;
    } else if power < -m {
      assert 0.0 <= -m - power <= other - power;
    }
  }

  /** Clamping again to the stored value changes nothing. */
  lemma ClampIdempotent(p: Point, power: real)
    requires p.maxAbsPower >= 0.0
    ensures var q := SetPowerClamped(p, power); SetPowerClamped(q, q.power) == q
  {
  }

  /** The point mapped from normalized space into `bounds`. */
  function ResizePoint(p: Point, bounds: Rect): (r: Point)
    ensures r.power == p.power && r.maxAbsPower == p.maxAbsPower && r.size == p.size
    ensures bounds.width != 0.0 ==> (r.x - bounds.x) / bounds.width == p.x
    ensures bounds.height != 0.0 ==> (r.y - bounds.y) / bounds.height == p.y
  {
    p.(x := p.x * bounds.width + bounds.x, y := p.y * bounds.height + bounds.y)
  }

  /** With a positive width the map keeps the order of x coordinates, and
      dividing a pixel x by the width of local bounds undoes it. */
  lemma ResizeKeepsOrder(p: Point, width: real, height: real, x: real)
    requires width > 0.0
    ensures var r := ResizePoint(p, LocalBounds(width, height));
      (r.x <= x <==> p.x <= x / width) && (x <= r.x <==> x / width <= p.x)
  {
    var q := x / width;
    assert x == q * width;
    if p.x <= q {
      assert p.x * width <= q * width;
    } else {
      assert q * width < p.x * width;
    }
    if q <= p.x {
      assert q * width <= p.x * width;
    } else {
      assert p.x * width < q * width;
    }
  }

  /** A value between 0 and `w` divided by `w` lies in [0,1]. */
  lemma UnitFraction(a: real, w: real)
    requires w > 0.0 && 0.0 <= a <= w
    ensures 0.0 <= a / w <= 1.0
  {
    assert a / w * w == a;
  }

  /** A position clamped into `bounds`: the utility that does this is not
      part of this model, so it is taken as a closed clamp per axis. */
  function ClampToBounds(pos: Pos, bounds: Rect): (r: Pos)
    requires bounds.width >= 0.0 && bounds.height >= 0.0
    ensures bounds.x <= r.x <= bounds.x + bounds.width
    ensures bounds.y <= r.y <= bounds.y + bounds.height
    ensures bounds.x <= pos.x <= bounds.x + bounds.width ==> r.x == pos.x
    ensures bounds.y <= pos.y <= bounds.y + bounds.height ==> r.y == pos.y
  {
    Pos(Clamp(pos.x, bounds.x, bounds.x + bounds.width),
        Clamp(pos.y, bounds.y, bounds.y + bounds.height))
  }
}
