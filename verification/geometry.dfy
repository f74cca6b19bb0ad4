/** Integer pixel points, exact real points, and the truncation toward zero that
    Python's `int()` applies when a real-valued sample becomes a pixel. */
module Geometry {

  /** An anchor point or a curve sample: an (x, y) pixel pair. */
  datatype Point = Point(x: int, y: int)

  /** A point with exact real coordinates, before truncation. */
  datatype RealPoint = RealPoint(x: real, y: real)

  /** The exact real point of a pixel. */
  function ToReal(p: Point): RealPoint
  {
    RealPoint(p.x as real, p.y as real)
  }

  /** Truncation toward zero, as Python's `int()` does to a float: the integer of
      the same sign as `v` whose magnitude is the whole part of `|v|`. */
  function Trunc(v: real): (r: int)
    ensures 0.0 <= v ==> 0 <= r && r as real <= v < (r + 1) as real
    ensures v < 0.0 ==> r <= 0 && (r - 1) as real < v <= r as real
  {
    if v >= 0.0 then v.Floor else -((-v).Floor)
  }

  /** The pixel of a real point: `int()` applied to each coordinate. */
  function TruncPoint(q: RealPoint): Point
  {
    Point(Trunc(q.x), Trunc(q.y))
  }

  /** Truncating a whole number gives it back. */
  lemma TruncOfInt(a: int)
    ensures Trunc(a as real) == a
  {
  }

  /** Truncation toward zero never leaves an interval with integer ends. */
  lemma TruncBetween(v: real, lo: int, hi: int)
    requires lo as real <= v <= hi as real
    ensures lo <= Trunc(v) <= hi
  {
  }

  lemma TruncPointOfInt(p: Point)
    ensures TruncPoint(ToReal(p)) == p
  {
    TruncOfInt(p.x);
    TruncOfInt(p.y);
  }

  function Min(a: int, b: int): int { if a <= b then a else b }
  function Max(a: int, b: int): int { if a <= b then b else a }
  function Min3(a: int, b: int, c: int): int { Min(a, Min(b, c)) }
  function Max3(a: int, b: int, c: int): int { Max(a, Max(b, c)) }

  /** `q` lies in the axis-aligned bounding box of `p0` and `p1`. */
  predicate InBox2(q: Point, p0: Point, p1: Point) {
    && Min(p0.x, p1.x) <= q.x <= Max(p0.x, p1.x)
    && Min(p0.y, p1.y) <= q.y <= Max(p0.y, p1.y)
  }

  /** `q` lies in the axis-aligned bounding box of three control points. */
  predicate InBox3(q: Point, p0: Point, p1: Point, p2: Point) {
    && Min3(p0.x, p1.x, p2.x) <= q.x <= Max3(p0.x, p1.x, p2.x)
    && Min3(p0.y, p1.y, p2.y) <= q.y <= Max3(p0.y, p1.y, p2.y)
  }

  /** The contour is handed on as a NumPy array of dtype int32. */
  const Int32Min: int := -0x8000_0000
  const Int32Max: int := 0x7FFF_FFFF

  predicate FitsInt32(p: Point) {
    Int32Min <= p.x <= Int32Max && Int32Min <= p.y <= Int32Max
  }
}
