/**
 * The geometry both fill generators use: bounding boxes, scan lines, a point
 * along a segment, and the crossing of two segments by the parametric formula their
 * lineIntersection functions evaluate.
 */
module Geometry {
  import opened Types

  /** An axis-aligned bounding box. */
  datatype Bounds = Bounds(minX: real, maxX: real, minY: real, maxY: real)

  /** The square of the box's diagonal. */
  function DiagonalSq(bounds: Bounds): real {
    DistSq(bounds.minX, bounds.minY, bounds.maxX, bounds.maxY)
  }

  /** A scan line, `[start, end]`. */
  datatype Line = Line(start: Point, end: Point)

  /** The point at parameter t of the segment from a to b: `a + t (b - a)`. */
  function Lerp(a: Point, b: Point, t: real): Point {
    Point(a.x + t * (b.x - a.x), a.y + t * (b.y - a.y))
  }

  /** Whether q is a point of the segment from a to b. */
  ghost predicate OnSegment(q: Point, a: Point, b: Point) {
    exists t :: 0.0 <= t <= 1.0 && q == Lerp(a, b, t)
  }

  /** `(p4.y - p3.y)(p2.x - p1.x) - (p4.x - p3.x)(p2.y - p1.y)`: zero when the segments are parallel. */
  function Denominator(p1: Point, p2: Point, p3: Point, p4: Point): real {
    (p4.y - p3.y) * (p2.x - p1.x) - (p4.x - p3.x) * (p2.y - p1.y)
  }

  /** The numerator of ua, the crossing's parameter on p1 → p2. */
  function UaNumerator(p1: Point, p2: Point, p3: Point, p4: Point): real {
    (p4.x - p3.x) * (p1.y - p3.y) - (p4.y - p3.y) * (p1.x - p3.x)
  }

  /** The numerator of ub, the crossing's parameter on p3 → p4. */
  function UbNumerator(p1: Point, p2: Point, p3: Point, p4: Point): real {
    (p2.x - p1.x) * (p1.y - p3.y) - (p2.y - p1.y) * (p1.x - p3.x)
  }

  /**
   * The formula is right: for non-parallel lines the point at ua on the
   * first line is the point at ub on the second, so it lies on both.
   */
  lemma CrossingOnBoth(p1: Point, p2: Point, p3: Point, p4: Point)
    requires Denominator(p1, p2, p3, p4) != 0.0
    ensures var den := Denominator(p1, p2, p3, p4);
      Lerp(p1, p2, UaNumerator(p1, p2, p3, p4) / den) == Lerp(p3, p4, UbNumerator(p1, p2, p3, p4) / den)
  {
    var a, b := p2.x - p1.x, p2.y - p1.y;
    var c, d := p4.x - p3.x, p4.y - p3.y;
    var e, f := p1.x - p3.x, p1.y - p3.y;
    var den := Denominator(p1, p2, p3, p4);
    assert den == d * a - c * b;
    var ua := UaNumerator(p1, p2, p3, p4) / den;
    var ub := UbNumerator(p1, p2, p3, p4) / den;
    assert UaNumerator(p1, p2, p3, p4) == c * f - d * e;
    assert UbNumerator(p1, p2, p3, p4) == a * f - b * e;
    CrossingAlgebra(a, b, c, d, e, f, ua, ub);
    LerpsMeet(p1, p2, p3, p4, ua, ub);
  }

  /** The points at ua and ub agree once their offsets from p3 agree coordinate by coordinate. */
  lemma LerpsMeet(p1: Point, p2: Point, p3: Point, p4: Point, ua: real, ub: real)
    requires (p1.x - p3.x) + ua * (p2.x - p1.x) == ub * (p4.x - p3.x)
    requires (p1.y - p3.y) + ua * (p2.y - p1.y) == ub * (p4.y - p3.y)
    ensures Lerp(p1, p2, ua) == Lerp(p3, p4, ub)
  {
  }

  /** Both coordinates of the crossing, with the differences named. */
  lemma CrossingAlgebra(a: real, b: real, c: real, d: real, e: real, f: real, ua: real, ub: real)
    requires d * a - c * b != 0.0
    requires ua == (c * f - d * e) / (d * a - c * b) && ub == (a * f - b * e) / (d * a - c * b)
    ensures e + ua * a == ub * c && f + ua * b == ub * d
  {
    var den := d * a - c * b;
    var uaN, ubN := c * f - d * e, a * f - b * e;
    assert ua * den == uaN;
    assert ub * den == ubN;
    assert den * e + uaN * a == c * ubN;
    assert den * f + uaN * b == d * ubN;
    assert (e + ua * a) * den == den * e + uaN * a;
    assert (ub * c) * den == ubN * c;
    CancelFactor(e + ua * a, ub * c, den);
    assert (f + ua * b) * den == den * f + uaN * b;
    assert (ub * d) * den == ubN * d;
    CancelFactor(f + ua * b, ub * d, den);
  }

  lemma CancelFactor(u: real, v: real, k: real)
    requires k != 0.0 && u * k == v * k
    ensures u == v
  {
    assert (u - v) * k == 0.0;
  }
}
