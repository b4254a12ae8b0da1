/** Points of the map, distances between them, and the distance of a point to a segment. */
module Plane {
  import opened Reals

  datatype Point = Point(lat: real, lng: real)

  type Distance = (Point, Point) -> real

  ghost predicate NeverNegative(dist: Distance) {
    forall p, q :: dist(p, q) >= 0.0
  }

  ghost predicate Metric(dist: Distance) {
    && NeverNegative(dist)
    && (forall p :: dist(p, p) == 0.0)
    && (forall p, q :: dist(p, q) == dist(q, p))
    && (forall p, q, r :: dist(p, r) <= dist(p, q) + dist(q, r))
  }

  function Between(a: Point, b: Point, f: real): Point {
    Point(a.lat + Times(b.lat - a.lat, f), a.lng + Times(b.lng - a.lng, f))
  }

  /** A stretch of the segment is at most `c` times as long as its share of the segment. Interpolating
      degrees spaces points unevenly on the ground, so `c` is above 1 there. */
  ghost predicate Stretches(dist: Distance, a: Point, b: Point, c: real) {
    forall f, g :: 0.0 <= f <= g <= 1.0 ==>
      dist(Between(a, b, f), Between(a, b, g)) <= Times(c, Times(g - f, dist(a, b)))
  }

  lemma Triangle(dist: Distance, p: Point, q: Point, r: Point)
    requires Metric(dist)
    ensures dist(p, r) <= dist(p, q) + dist(q, r)
  {
  }

  lemma Stretch(dist: Distance, a: Point, b: Point, c: real, f: real, g: real)
    requires Stretches(dist, a, b, c) && 0.0 <= f <= g <= 1.0
    ensures dist(Between(a, b, f), Between(a, b, g)) <= Times(c, Times(g - f, dist(a, b)))
  {
  }

  function Squared(p: Point, q: Point): real {
    Square(p.lat - q.lat) + Square(p.lng - q.lng)
  }

  /** `dist` is the distance of the flat plane. */
  ghost predicate Flat(dist: Distance) {
    forall p, q :: dist(p, q) >= 0.0 && Square(dist(p, q)) == Squared(p, q)
  }

  lemma Product(ux: real, uy: real, vx: real, vy: real)
    ensures Times(Square(ux) + Square(uy), Square(vx) + Square(vy))
         == Square(Times(ux, vx) + Times(uy, vy)) + Square(Times(ux, vy) - Times(uy, vx))
  {
  }

  lemma SquareOfProduct(u: real, v: real)
    ensures Square(Times(u, v)) == Times(Square(u), Square(v))
  {
    assert (u * v) * (u * v) == (u * u) * (v * v);
  }

  lemma SquareOfSum(u: real, v: real)
    ensures Square(u + v) == Square(u) + Square(v) + 2.0 * Times(u, v)
    ensures Square(u - v) == Square(u) + Square(v) - 2.0 * Times(u, v)
  {
  }

  lemma CauchySchwarz(ux: real, uy: real, vx: real, vy: real, u: real, v: real)
    requires u >= 0.0 && v >= 0.0 && Square(u) == Square(ux) + Square(uy) && Square(v) == Square(vx) + Square(vy)
    ensures Times(ux, vx) + Times(uy, vy) <= Times(u, v)
  {
    hide Times;
    var dot := Times(ux, vx) + Times(uy, vy);
    Product(ux, uy, vx, vy);
    SquareOfProduct(u, v);
    SquareSign(Times(ux, vy) - Times(uy, vx));
    NonNegative(u, v);
    if dot >= 0.0 {
      SquaresCompare(dot, Times(u, v));
    }
  }

  lemma FlatTriangle(dist: Distance, p: Point, q: Point, r: Point)
    requires Flat(dist)
    ensures dist(p, r) <= dist(p, q) + dist(q, r)
  {
    hide Times;
    var ux, uy, vx, vy := p.lat - q.lat, p.lng - q.lng, q.lat - r.lat, q.lng - r.lng;
    CauchySchwarz(ux, uy, vx, vy, dist(p, q), dist(q, r));
    SquareOfSum(ux, vx);
    SquareOfSum(uy, vy);
    SquareOfSum(dist(p, q), dist(q, r));
    assert ux + vx == p.lat - r.lat && uy + vy == p.lng - r.lng;
    SquaresCompare(dist(p, r), dist(p, q) + dist(q, r));
  }

  lemma StretchSquared(a: Point, b: Point, f: real, g: real)
    ensures Squared(Between(a, b, f), Between(a, b, g)) == Times(Square(g - f), Squared(a, b))
  {
  }

  lemma FlatStretch(dist: Distance, a: Point, b: Point, f: real, g: real)
    requires Flat(dist) && 0.0 <= f <= g
    ensures dist(Between(a, b, f), Between(a, b, g)) == Times(g - f, dist(a, b))
  {
    hide Times, Between;
    StretchSquared(a, b, f, g);
    SquareOfProduct(g - f, dist(a, b));
    NonNegative(g - f, dist(a, b));
    SquaresCompare(dist(Between(a, b, f), Between(a, b, g)), Times(g - f, dist(a, b)));
    SquaresCompare(Times(g - f, dist(a, b)), dist(Between(a, b, f), Between(a, b, g)));
  }

  lemma FlatSegmentStretches(dist: Distance, a: Point, b: Point)
    requires Flat(dist)
    ensures Stretches(dist, a, b, 1.0)
  {
    hide Times, Between, Flat;
    forall f, g | 0.0 <= f <= g <= 1.0
      ensures dist(Between(a, b, f), Between(a, b, g)) <= Times(1.0, Times(g - f, dist(a, b)))
    {
      FlatStretch(dist, a, b, f, g);
      Units(Times(g - f, dist(a, b)));
    }
  }

  /** The flat plane has every property the corridor's guarantee assumes of a distance, with factor 1. */
  lemma FlatIsMetricAndStraight(dist: Distance)
    requires Flat(dist)
    ensures Metric(dist) && forall a, b :: Stretches(dist, a, b, 1.0)
  {
    hide Times;
    Units(0.0);
    forall p
      ensures dist(p, p) == 0.0
    {
      SquaresCompare(dist(p, p), 0.0);
    }
    forall p, q
      ensures dist(p, q) == dist(q, p)
    {
      SwapSquared(p, q);
      SquaresCompare(dist(p, q), dist(q, p));
      SquaresCompare(dist(q, p), dist(p, q));
    }
    forall p, q, r ensures dist(p, r) <= dist(p, q) + dist(q, r) { FlatTriangle(dist, p, q, r); }
    forall a, b
      ensures Stretches(dist, a, b, 1.0)
    {
      FlatSegmentStretches(dist, a, b);
    }
  }

  lemma SwapSquared(p: Point, q: Point)
    ensures Squared(p, q) == Squared(q, p)
  {
  }

  // ---------------------------------------------------------------- point to segment

  function Clamp(x: real): real {
    if x < 0.0 then 0.0 else if x > 1.0 then 1.0 else x
  }

  function Dot(p: Point, s: Point): real {
    Times(p.lng, s.lng) + Times(p.lat, s.lat)
  }

  /** p seen from a, longitude scaled by `k`: the length of a degree of longitude at a, relative to one of latitude. */
  function From(a: Point, p: Point, k: real): Point {
    Point(p.lat - a.lat, Times(p.lng - a.lng, k))
  }

  /** Where the segment from the origin to s is nearest to p, as a fraction of the segment. */
  function FootFraction(p: Point, s: Point): real {
    var l2 := Dot(s, s);
    if l2 == 0.0 then 0.0 else Clamp(Over(Dot(p, s), l2))
  }

  function GapSquared(p: Point, s: Point, t: real): real {
    Square(p.lng - Times(t, s.lng)) + Square(p.lat - Times(t, s.lat))
  }

  /** The square of the distance from p to the segment ab, in degrees of latitude. */
  function SegmentSquared(p: Point, a: Point, b: Point, k: real): real {
    var q, s := From(a, p, k), From(a, b, k);
    GapSquared(q, s, FootFraction(q, s))
  }

  lemma GapAt(p: Point, s: Point, t: real)
    ensures GapSquared(p, s, t) == Dot(p, p) - 2.0 * Times(t, Dot(p, s)) + Times(Square(t), Dot(s, s))
  {
  }

  lemma GapsDiffer(l2: real, q: real, s: real, t: real)
    ensures Times(Times(s - t, s + t - 2.0 * q), l2) ==
      Times(Square(s), l2) - 2.0 * Times(s, Times(q, l2)) - (Times(Square(t), l2) - 2.0 * Times(t, Times(q, l2)))
  {
  }

  /** A parabola that opens upward is lowest, over [0, 1], at its clamped vertex. */
  lemma ClampedVertexIsLowest(q: real, s: real, t: real)
    requires 0.0 <= s <= 1.0 && t == Clamp(q)
    ensures Times(s - t, s + t - 2.0 * q) >= 0.0
  {
    hide Times;
    if s >= t && s + t >= 2.0 * q {
      NonNegative(s - t, s + t - 2.0 * q);
    } else {
      NonNegative(t - s, 2.0 * q - s - t);
      Distributes(t - s, 0.0, 2.0 * q - s - t);
      Distributes(s - t, 0.0, 2.0 * q - s - t);
      Commutes(s - t, 2.0 * q - s - t);
      Commutes(s - t, s + t - 2.0 * q);
      Distributes(2.0 * q - s - t, 0.0, s - t);
      assert -(2.0 * q - s - t) == s + t - 2.0 * q && -(t - s) == s - t;
    }
  }

  lemma NoLength(s: Point)
    requires Dot(s, s) == 0.0
    ensures s.lng == 0.0 && s.lat == 0.0
  {
    hide Times;
    SquareSign(s.lng);
    SquareSign(s.lat);
  }

  lemma FootOfPoint(p: Point, s: Point, t: real)
    requires Dot(s, s) == 0.0
    ensures GapSquared(p, s, t) == Dot(p, p)
  {
    hide Times, Dot;
    NoLength(s);
    Units(t);
    assert GapSquared(p, s, t) == Square(p.lng) + Square(p.lat);
    assert Dot(p, p) == Square(p.lng) + Square(p.lat) by { DotWithItself(p); }
  }

  lemma DotWithItself(p: Point)
    ensures Dot(p, p) == Square(p.lng) + Square(p.lat)
  {
  }

  lemma FootOfSegment(p: Point, s: Point, t: real, foot: real, q: real)
    requires 0.0 <= t <= 1.0 && foot == Clamp(q) && Times(q, Dot(s, s)) == Dot(p, s) && Dot(s, s) >= 0.0
    ensures GapSquared(p, s, foot) <= GapSquared(p, s, t)
  {
    hide Times, GapSquared, Dot, Square, Clamp;
    GapAt(p, s, t);
    GapAt(p, s, foot);
    ClampedVertexIsLowest(q, t, foot);
    NonNegative(Times(t - foot, t + foot - 2.0 * q), Dot(s, s));
    GapsDiffer(Dot(s, s), q, t, foot);
  }

  lemma FootIsNearest(p: Point, s: Point, t: real)
    requires 0.0 <= t <= 1.0
    ensures GapSquared(p, s, FootFraction(p, s)) <= GapSquared(p, s, t)
    ensures 0.0 <= FootFraction(p, s) <= 1.0
  {
    hide Times, Over, GapSquared;
    if Dot(s, s) == 0.0 {
      FootOfPoint(p, s, t);
      FootOfPoint(p, s, 0.0);
    } else {
      SquareSign(s.lng);
      SquareSign(s.lat);
      Quotient(Dot(p, s), Dot(s, s));
      FootOfSegment(p, s, t, FootFraction(p, s), Over(Dot(p, s), Dot(s, s)));
    }
  }

  /** The square of the distance of two points, a degree of longitude being `k` degrees of latitude long. */
  function ScaledSquared(p: Point, x: Point, k: real): real {
    Square(p.lat - x.lat) + Square(Times(p.lng - x.lng, k))
  }

  lemma GapIsScaled(p: Point, a: Point, b: Point, k: real, t: real)
    ensures GapSquared(From(a, p, k), From(a, b, k), t) == ScaledSquared(p, Between(a, b, t), k)
  {
    hide Times;
    Commutes(t, b.lat - a.lat);
    Rearrange(b.lng - a.lng, t, k);
    Distributes(p.lng - a.lng, Times(b.lng - a.lng, t), k);
  }

  lemma Rearrange(x: real, t: real, k: real)
    ensures Times(t, Times(x, k)) == Times(Times(x, t), k)
  {
    assert t * (x * k) == (x * t) * k;
  }

  /** The point of the segment at fraction t is within `limit` of p. */
  ghost predicate Reaches(p: Point, a: Point, b: Point, k: real, t: real, limit: real) {
    0.0 <= t <= 1.0 && ScaledSquared(p, Between(a, b, t), k) <= limit
  }

  /** The clamped projection gives the minimum over the whole segment, degenerate segments included:
      a point is within `limit` of the segment exactly when it is within `limit` of one of its points. */
  lemma SegmentDistanceIsTheMinimum(p: Point, a: Point, b: Point, k: real, limit: real)
    ensures SegmentSquared(p, a, b, k) <= limit <==> exists t :: Reaches(p, a, b, k, t, limit)
  {
    hide GapSquared, FootFraction, ScaledSquared, Between, From;
    var q, s := From(a, p, k), From(a, b, k);
    FootIsNearest(q, s, 0.0);
    GapIsScaled(p, a, b, k, FootFraction(q, s));
    assert Reaches(p, a, b, k, FootFraction(q, s), limit) <==> SegmentSquared(p, a, b, k) <= limit;
    if t :| Reaches(p, a, b, k, t, limit) {
      GapIsScaled(p, a, b, k, t);
      FootIsNearest(q, s, t);
    }
  }
}
