/**
  The corridor along a way: anchors at every `step` along it, and the rule that keeps a point when
  some anchor is within `width` of it.
*/
module Corridor {
  import opened Reals
  import opened Plane

  datatype Anchor = Anchor(at: Point, along: real)

  // ---------------------------------------------------------------- the way

  function Gap(shape: seq<Point>, dist: Distance, i: nat): real
    requires i + 1 < |shape|
  {
    dist(shape[i], shape[i + 1])
  }

  /** Metres from the start of the way to its i-th vertex. */
  function Travelled(shape: seq<Point>, dist: Distance, i: nat): real
    requires i < |shape|
  {
    if i == 0 then 0.0 else Travelled(shape, dist, i - 1) + Gap(shape, dist, i - 1)
  }

  /** The point p lies on segment i, at fraction f of it, `along` metres from the start. */
  ghost predicate OnSegment(shape: seq<Point>, dist: Distance, i: nat, f: real, p: Point, along: real) {
    && i + 1 < |shape| && 0.0 <= f <= 1.0
    && p == Between(shape[i], shape[i + 1], f)
    && along == Travelled(shape, dist, i) + Times(f, Gap(shape, dist, i))
  }

  // ---------------------------------------------------------------- where anchors belong

  function Mark(k: nat, step: real): real {
    Times(k as real, step)
  }

  /** How many whole steps fit in a length. */
  function Steps(length: real, step: real): nat
    requires length >= 0.0 && step > 0.0
  {
    var q := Over(length, step);
    OverNonNegative(length, step);
    q.Floor
  }

  lemma OverNonNegative(x: real, y: real)
    requires x >= 0.0 && y > 0.0
    ensures Over(x, y) >= 0.0
  {
  }

  lemma NextMark(k: nat, step: real)
    ensures Mark(k + 1, step) == Mark(k, step) + step
    ensures Mark(0, step) == 0.0
  {
  }

  lemma {:induction false} MarksIncrease(i: nat, j: nat, step: real)
    requires i <= j && step > 0.0
    ensures Mark(i, step) <= Mark(j, step) && (i < j ==> Mark(i, step) + step <= Mark(j, step))
    ensures 0.0 <= Mark(i, step)
  {
    hide Times;
    Units(step);
    KeepsOrder(0.0, i as real, step);
    if i < j {
      KeepsOrder((i + 1) as real, j as real, step);
      NextMark(i, step);
    }
  }

  /** `Steps` is the number k with k * step <= length < (k + 1) * step. */
  lemma StepsBrackets(length: real, step: real)
    requires length >= 0.0 && step > 0.0
    ensures Mark(Steps(length, step), step) <= length < Mark(Steps(length, step) + 1, step)
  {
    hide Times, Over;
    var q := Over(length, step);
    OverNonNegative(length, step);
    Quotient(length, step);
    KeepsOrder(q.Floor as real, q, step);
    KeepsOrder(q, (q.Floor + 1) as real, step);
  }

  lemma StepsIsUnique(length: real, step: real, k: nat)
    requires step > 0.0 && Mark(k, step) <= length < Mark(k + 1, step)
    ensures length >= 0.0 && Steps(length, step) == k
  {
    hide Mark;
    MarksIncrease(k, k, step);
    var m := Steps(length, step);
    StepsBrackets(length, step);
    if m < k { MarksIncrease(m + 1, k, step); }
    if k < m { MarksIncrease(k + 1, m, step); }
  }

  /** What is left of x after its whole steps. */
  function Remainder(x: real, step: real): real
    requires x >= 0.0 && step > 0.0
  {
    x - Mark(Steps(x, step), step)
  }

  function AnchorCount(length: real, step: real): nat
    requires length >= 0.0 && step > 0.0
  {
    Steps(length, step) + if Mark(Steps(length, step), step) < length then 2 else 1
  }

  /** Anchors sit at 0, step, 2 * step, ... up to the whole length, and at the length itself. */
  ghost predicate Spaced(anchors: seq<Anchor>, step: real, length: real)
    requires length >= 0.0 && step > 0.0
  {
    && |anchors| == AnchorCount(length, step)
    && (forall k :: 0 <= k <= Steps(length, step) ==> anchors[k].along == Mark(k, step))
    && anchors[|anchors| - 1].along == length
  }

  /** Every anchor after the first is interpolated on the way, at a fraction in (0, 1] of its segment. */
  ghost predicate OnWay(anchors: seq<Anchor>, shape: seq<Point>, dist: Distance) {
    && anchors != [] && shape != []
    && anchors[0] == Anchor(shape[0], 0.0)
    && forall k :: 1 <= k < |anchors| ==> Interpolated(anchors[k], shape, dist)
  }

  ghost predicate Interpolated(a: Anchor, shape: seq<Point>, dist: Distance) {
    exists i: nat, f :: f > 0.0 && OnSegment(shape, dist, i, f, a.at, a.along)
  }

  // ---------------------------------------------------------------- placing the anchors

  method Densify(shape: seq<Point>, step: real, dist: Distance) returns (out: seq<Anchor>, along: real)
    requires shape != [] && step > 0.0 && NeverNegative(dist)
    ensures along == Travelled(shape, dist, |shape| - 1) >= 0.0
    ensures Spaced(out, step, along) && OnWay(out, shape, dist)
  {
    hide Times, Over, Between, OnWay, Mark, Remainder, Steps, NeverNegative;
    GapsAreNonNegative(shape, dist);
    out := [Anchor(shape[0], 0.0)];
    var carry := 0.0;
    along := 0.0;
    OnWayStarts(shape, dist);
    NextMark(0, step);
    for i := 0 to |shape| - 1
      invariant along == Travelled(shape, dist, i) >= 0.0
      invariant out != [] && carry == along - Mark(|out| - 1, step) && 0.0 <= carry < step
      invariant forall k :: 0 <= k < |out| ==> out[k].along == Mark(k, step)
      invariant OnWay(out, shape, dist)
    {
      var a, b := shape[i], shape[i + 1];
      var d := dist(a, b);
      if d > 0.0 {
        var t := step - carry;
        ghost var top := Steps(along + d, step) + 1;
        ghost var first := |out|;
        StepsBrackets(along + d, step);
        NextMark(|out| - 1, step);
        MarksReflect(|out| - 1, top, step, along + d);
        while t <= d
          invariant first <= |out| <= top && 0.0 < t == Mark(|out|, step) - along
          invariant Mark(|out| - 1, step) <= along + d
          invariant forall k :: 0 <= k < |out| ==> out[k].along == Mark(k, step)
          invariant OnWay(out, shape, dist)
          decreases top - |out|
        {
          var f := Over(t, d);
          FractionOfGap(t, d);
          MarksReflect(|out|, top, step, along + d);
          OnWayGrows(out, shape, dist, i, f, along + t);
          NextMark(|out|, step);
          out := out + [Anchor(Between(a, b, f), along + t)];
          t := t + step;
        }
        NextMark(|out| - 1, step);
        RemainderOfSum(carry + d, step, along + d, first - 1, |out| - 1);
        carry := Remainder(carry + d, step);
        along := along + d;
      }
    }
    NextMark(|out| - 1, step);
    StepsIsUnique(along, step, |out| - 1);
    MarksIncrease(|out| - 1, |out| - 1, step);
    if out[|out| - 1].along < along {
      LastVertex(shape[|shape| - 2], shape[|shape| - 1]);
      Units(Gap(shape, dist, |shape| - 2));
      OnWayGrows(out, shape, dist, |shape| - 2, 1.0, along);
      out := out + [Anchor(shape[|shape| - 1], along)];
    }
  }

  lemma GapsAreNonNegative(shape: seq<Point>, dist: Distance)
    requires NeverNegative(dist)
    ensures forall i: nat :: i + 1 < |shape| ==> Gap(shape, dist, i) >= 0.0
  {
  }

  lemma OnWayStarts(shape: seq<Point>, dist: Distance)
    requires shape != []
    ensures OnWay([Anchor(shape[0], 0.0)], shape, dist)
  {
  }

  lemma OnWayGrows(out: seq<Anchor>, shape: seq<Point>, dist: Distance, i: nat, f: real, along: real)
    requires OnWay(out, shape, dist) && i + 1 < |shape| && 0.0 < f <= 1.0
    requires along == Travelled(shape, dist, i) + Times(f, Gap(shape, dist, i))
    ensures OnWay(out + [Anchor(Between(shape[i], shape[i + 1], f), along)], shape, dist)
  {
    hide Times, Between, Travelled;
    assert OnSegment(shape, dist, i, f, Between(shape[i], shape[i + 1], f), along);
  }

  lemma MarksReflect(i: nat, j: nat, step: real, total: real)
    requires step > 0.0 && Mark(i, step) <= total < Mark(j, step)
    ensures i < j
  {
  }

  lemma FractionOfGap(t: real, d: real)
    requires 0.0 < t <= d
    ensures 0.0 < Over(t, d) <= 1.0 && Times(Over(t, d), d) == t
  {
    hide Times, Over;
    Quotient(t, d);
    Units(d);
    OverPositive(t, d);
    if Over(t, d) > 1.0 { KeepsOrder(1.0, Over(t, d), d); }
  }

  lemma LastVertex(a: Point, b: Point)
    ensures Between(a, b, 1.0) == b && Between(a, b, 0.0) == a
  {
  }

  /** Dropping the marks already passed does not change the remainder. */
  lemma RemainderOfSum(x: real, step: real, total: real, passed: nat, reached: nat)
    requires step > 0.0 && passed <= reached && x == total - Mark(passed, step)
    requires Mark(reached, step) <= total < Mark(reached, step) + step
    ensures x >= 0.0 && Remainder(x, step) == total - Mark(reached, step)
  {
    hide Times, Over;
    Distributes(reached as real, passed as real, step);
    assert (reached - passed) as real == reached as real - passed as real;
    NextMark(reached - passed, step);
    StepsIsUnique(x, step, reached - passed);
  }

  // ---------------------------------------------------------------- capping their number

  const MAX_ANCHORS := 4000

  lemma WholeStepsHaveNoTail(length: real, parts: nat)
    requires length > 0.0 && parts > 0
    ensures Over(length, parts as real) > 0.0
    ensures AnchorCount(length, Over(length, parts as real)) == parts + 1
  {
    hide Times, Over;
    var step := Over(length, parts as real);
    OverPositive(length, parts as real);
    Quotient(length, parts as real);
    Commutes(step, parts as real);
    NextMark(parts, step);
    StepsIsUnique(length, step, parts);
  }

  lemma OverPositive(x: real, y: real)
    requires x > 0.0 && y > 0.0
    ensures Over(x, y) > 0.0
  {
  }

  /** The cap is passed exactly by ways longer than MAX_ANCHORS - 1 steps. */
  lemma CapIsPassedExactlyBy(length: real, step: real)
    requires length >= 0.0 && step > 0.0
    ensures AnchorCount(length, step) > MAX_ANCHORS <==> length > Mark(MAX_ANCHORS - 1, step)
  {
    hide Times, Over;
    var k := Steps(length, step);
    StepsBrackets(length, step);
    NextMark(k, step);
    if k >= MAX_ANCHORS { MarksIncrease(MAX_ANCHORS - 1, k, step); }
    if k < MAX_ANCHORS - 1 { MarksIncrease(k + 1, MAX_ANCHORS - 1, step); }
  }

  /** The step of the second placement is wider exactly when the way holds MAX_ANCHORS whole steps of the first. */
  lemma WidensExactlyWhen(length: real, step: real)
    requires length >= 0.0 && step > 0.0
    ensures Over(length, MAX_ANCHORS as real) >= step <==> length >= Mark(MAX_ANCHORS, step)
  {
  }

  /** A way of 3999.5 steps passes the cap because of its tail, and its second step is narrower than the first. */
  lemma SecondStepCanBeNarrower(step: real)
    requires step > 0.0
    ensures AnchorCount(3999.5 * step, step) > MAX_ANCHORS && Over(3999.5 * step, MAX_ANCHORS as real) < step
  {
    var length := 3999.5 * step;
    assert Mark(3999, step) < length < Mark(4000, step);
    CapIsPassedExactlyBy(length, step);
    WidensExactlyWhen(length, step);
  }

  /** The anchors of a route: `width` / 2 apart, or exactly MAX_ANCHORS + 1 of them. Then each is the
      MAX_ANCHORS-th part of the way after the last, which is wider than before exactly when the way
      holds MAX_ANCHORS whole steps of the first width; between 3999 and 4000 of them it is narrower. */
  method AnchorsFor(shape: seq<Point>, width: real, dist: Distance)
    returns (anchors: seq<Anchor>, step: real, length: real)
    requires |shape| >= 2 && width > 0.0 && NeverNegative(dist)
    ensures step > 0.0 && length == Travelled(shape, dist, |shape| - 1) >= 0.0
    ensures Spaced(anchors, step, length) && OnWay(anchors, shape, dist)
    ensures length <= Mark(MAX_ANCHORS - 1, width / 2.0) ==> step == width / 2.0 && |anchors| <= MAX_ANCHORS
    ensures length > Mark(MAX_ANCHORS - 1, width / 2.0) ==>
      && step == Over(length, MAX_ANCHORS as real) && |anchors| == MAX_ANCHORS + 1
      && (step >= width / 2.0 <==> length >= Mark(MAX_ANCHORS, width / 2.0))
  {
    hide Times, Over;
    step := width / 2.0;
    anchors, length := Densify(shape, step, dist);
    CapIsPassedExactlyBy(length, step);
    WidensExactlyWhen(length, step);
    MarksIncrease(MAX_ANCHORS - 1, MAX_ANCHORS, step);
    if |anchors| > MAX_ANCHORS {
      MarksIncrease(0, MAX_ANCHORS - 1, step);
      WholeStepsHaveNoTail(length, MAX_ANCHORS);
      step := Over(length, MAX_ANCHORS as real);
      anchors, length := Densify(shape, step, dist);
    }
  }

  // ---------------------------------------------------------------- what the corridor keeps

  /** The nearest anchor is within `width`. */
  ghost predicate Kept(p: Point, anchors: seq<Anchor>, width: real, dist: Distance) {
    exists k :: 0 <= k < |anchors| && dist(anchors[k].at, p) <= width
  }

  lemma Itself(dist: Distance, p: Point)
    requires Metric(dist)
    ensures dist(p, p) == 0.0
  {
  }

  lemma {:induction false} VerticesAreNoFarther(shape: seq<Point>, dist: Distance, i: nat, j: nat)
    requires Metric(dist) && i <= j < |shape|
    ensures dist(shape[i], shape[j]) <= Travelled(shape, dist, j) - Travelled(shape, dist, i)
  {
    hide Metric, Travelled;
    if i < j {
      VerticesAreNoFarther(shape, dist, i, j - 1);
      Triangle(dist, shape[i], shape[j - 1], shape[j]);
      Arrive(shape, dist, j - 1);
    } else {
      Itself(dist, shape[i]);
    }
  }

  /** Every segment of the way stretches by at most `c`. */
  ghost predicate WayStretches(shape: seq<Point>, dist: Distance, c: real) {
    && c >= 1.0
    && forall i: nat {:trigger Gap(shape, dist, i)} :: i + 1 < |shape| ==> Stretches(dist, shape[i], shape[i + 1], c)
  }

  lemma AtLeastOnce(c: real, x: real)
    requires c >= 1.0 && x >= 0.0
    ensures x <= Times(c, x)
  {
    hide Times;
    KeepsOrder(1.0, c, x);
    Units(x);
  }

  lemma InAllOf(c: real, x: real, y: real, z: real)
    ensures Times(c, x) + Times(c, y) + Times(c, z) == Times(c, x + y + z)
  {
    hide Times;
    Shares(c, x, y);
    Shares(c, x + y, z);
  }

  /** Two points of the way are at most `c` times as far apart as the way between them is long. */
  lemma WayIsNoShortcut(shape: seq<Point>, dist: Distance, c: real, i: nat, f: real, p: Point, pa: real,
                        j: nat, g: real, q: Point, qa: real)
    requires Metric(dist) && WayStretches(shape, dist, c)
    requires OnSegment(shape, dist, i, f, p, pa) && OnSegment(shape, dist, j, g, q, qa)
    requires i < j || (i == j && f <= g)
    ensures dist(p, q) <= Times(c, qa - pa)
  {
    hide Times, Between, Metric, Stretches, Travelled;
    var a, b := Gap(shape, dist, i), Gap(shape, dist, j);
    if i == j {
      Distributes(g, f, a);
      Stretch(dist, shape[i], shape[i + 1], c, f, g);
    } else {
      var u, v := shape[i + 1], shape[j];
      LastVertex(shape[i], u);
      LastVertex(v, shape[j + 1]);
      Stretch(dist, shape[i], u, c, f, 1.0);
      Stretch(dist, v, shape[j + 1], c, 0.0, g);
      Distributes(1.0, f, a);
      Units(a);
      Arrive(shape, dist, i);
      VerticesAreNoFarther(shape, dist, i + 1, j);
      DistanceIsNonNegative(dist, u, v);
      var whole := Travelled(shape, dist, j) - Travelled(shape, dist, i + 1);
      AtLeastOnce(c, whole);
      InAllOf(c, Times(1.0 - f, a), whole, Times(g, b));
      Triangle(dist, p, u, q);
      Triangle(dist, u, v, q);
    }
  }

  lemma DistanceIsNonNegative(dist: Distance, p: Point, q: Point)
    requires Metric(dist)
    ensures dist(p, q) >= 0.0
  {
  }

  lemma Arrive(shape: seq<Point>, dist: Distance, i: nat)
    requires i + 1 < |shape|
    ensures Travelled(shape, dist, i + 1) == Travelled(shape, dist, i) + Gap(shape, dist, i)
  {
  }

  lemma SetOut(shape: seq<Point>, dist: Distance)
    requires shape != []
    ensures Travelled(shape, dist, 0) == 0.0
  {
  }

  ghost predicate Somewhere(shape: seq<Point>, dist: Distance, p: Point, along: real) {
    exists i: nat, f :: OnSegment(shape, dist, i, f, p, along)
  }

  lemma NoFartherEitherWay(shape: seq<Point>, dist: Distance, c: real, p: Point, pa: real, q: Point, qa: real)
    requires Metric(dist) && WayStretches(shape, dist, c)
    requires Somewhere(shape, dist, p, pa) && Somewhere(shape, dist, q, qa)
    ensures dist(p, q) <= Times(c, if pa <= qa then qa - pa else pa - qa)
  {
    hide Times, Between, Stretches, WayStretches, Travelled, OnSegment, Metric;
    StretchIsAtLeastOne(shape, dist, c);
    var i: nat, f :| OnSegment(shape, dist, i, f, p, pa);
    var j: nat, g :| OnSegment(shape, dist, j, g, q, qa);
    if i < j || (i == j && f <= g) {
      WayIsNoShortcut(shape, dist, c, i, f, p, pa, j, g, q, qa);
      Longer(c, qa - pa, pa - qa);
    } else {
      WayIsNoShortcut(shape, dist, c, j, g, q, qa, i, f, p, pa);
      Longer(c, pa - qa, qa - pa);
    }
    Mirrored(dist, p, q);
  }

  lemma Mirrored(dist: Distance, p: Point, q: Point)
    requires Metric(dist)
    ensures dist(p, q) == dist(q, p)
  {
  }

  lemma Longer(c: real, x: real, y: real)
    requires c >= 1.0
    ensures x <= y ==> Times(c, x) <= Times(c, y)
  {
    if x <= y {
      KeepsOrder(x, y, c);
    }
  }

  lemma AnchorsAreSomewhere(anchors: seq<Anchor>, shape: seq<Point>, dist: Distance, k: nat)
    requires OnWay(anchors, shape, dist) && |shape| >= 2 && k < |anchors|
    ensures Somewhere(shape, dist, anchors[k].at, anchors[k].along)
  {
    if k == 0 {
      LastVertex(shape[0], shape[1]);
      Units(Gap(shape, dist, 0));
      assert OnSegment(shape, dist, 0, 0.0, anchors[0].at, 0.0);
    } else {
      assert Interpolated(anchors[k], shape, dist);
    }
  }

  lemma AlongIsWithin(shape: seq<Point>, dist: Distance, x: Point, along: real)
    requires Metric(dist) && Somewhere(shape, dist, x, along)
    ensures 0.0 <= along <= Travelled(shape, dist, |shape| - 1)
  {
    hide Times, Between, Travelled, Metric;
    var i: nat, f :| OnSegment(shape, dist, i, f, x, along);
    var d := Gap(shape, dist, i);
    DistanceIsNonNegative(dist, shape[i], shape[i + 1]);
    Arrive(shape, dist, i);
    SetOut(shape, dist);
    NonNegative(f, d);
    KeepsOrder(f, 1.0, d);
    Units(d);
    TravelledIncreases(shape, dist, 0, i);
    TravelledIncreases(shape, dist, i + 1, |shape| - 1);
  }

  lemma {:induction false} TravelledIncreases(shape: seq<Point>, dist: Distance, i: nat, j: nat)
    requires Metric(dist) && i <= j < |shape|
    ensures Travelled(shape, dist, i) <= Travelled(shape, dist, j)
  {
    if i < j {
      TravelledIncreases(shape, dist, i, j - 1);
    }
  }

  /** Some anchor is at most half a step away, along the way, from any place on it. */
  lemma HalfAStepAway(anchors: seq<Anchor>, step: real, length: real, along: real) returns (k: nat)
    requires length >= 0.0 && step > 0.0 && Spaced(anchors, step, length) && 0.0 <= along <= length
    ensures k < |anchors| && -step / 2.0 <= anchors[k].along - along <= step / 2.0
  {
    hide Times, Over;
    var m, n := Steps(along, step), Steps(length, step);
    StepsBrackets(along, step);
    StepsBrackets(length, step);
    NextMark(m, step);
    NextMark(n, step);
    if n < m { MarksIncrease(n + 1, m, step); }
    k := if along - Mark(m, step) <= step / 2.0 then m else if m < n then m + 1 else |anchors| - 1;
    if m < n { MarksIncrease(m + 1, n, step); }
  }

  /** A point at most `width - c * step/2` from some place on the way is kept, whatever the spacing is. */
  lemma NearTheWayIsKept(anchors: seq<Anchor>, shape: seq<Point>, dist: Distance, c: real, step: real, width: real,
                         x: Point, along: real, p: Point)
    requires |shape| >= 2 && step > 0.0 && Metric(dist) && WayStretches(shape, dist, c)
    requires Travelled(shape, dist, |shape| - 1) >= 0.0
    requires Spaced(anchors, step, Travelled(shape, dist, |shape| - 1)) && OnWay(anchors, shape, dist)
    requires Somewhere(shape, dist, x, along) && dist(x, p) <= width - Times(c, step / 2.0)
    ensures Kept(p, anchors, width, dist)
  {
    hide Times, Stretches, WayStretches, Travelled, Somewhere, Spaced, OnWay, Metric;
    StretchIsAtLeastOne(shape, dist, c);
    AlongIsWithin(shape, dist, x, along);
    var k := HalfAStepAway(anchors, step, Travelled(shape, dist, |shape| - 1), along);
    AnchorsAreSomewhere(anchors, shape, dist, k);
    var there := anchors[k].along;
    NoFartherEitherWay(shape, dist, c, anchors[k].at, there, x, along);
    Longer(c, if there <= along then along - there else there - along, step / 2.0);
    Triangle(dist, anchors[k].at, x, p);
  }

  lemma StretchIsAtLeastOne(shape: seq<Point>, dist: Distance, c: real)
    requires WayStretches(shape, dist, c)
    ensures c >= 1.0
  {
  }

  /** A point that is kept is within `width` of some place on the way. */
  lemma KeptIsNearTheWay(anchors: seq<Anchor>, shape: seq<Point>, dist: Distance, width: real, p: Point)
    requires |shape| >= 2 && OnWay(anchors, shape, dist) && Kept(p, anchors, width, dist)
    ensures exists x, along :: Somewhere(shape, dist, x, along) && dist(x, p) <= width
  {
    hide Somewhere, OnWay;
    var k: nat :| k < |anchors| && dist(anchors[k].at, p) <= width;
    AnchorsAreSomewhere(anchors, shape, dist, k);
  }

  // ---------------------------------------------------------------- beside one straight segment

  function Across(p: Point, x: Point, a: Point, b: Point): real {
    Times(p.lat - x.lat, b.lat - a.lat) + Times(p.lng - x.lng, b.lng - a.lng)
  }

  lemma SquareOfDifference(s: real, h: real, u: real)
    ensures Square(Times(s, h) - u) == Square(u) + Times(Square(h), Square(s)) - 2.0 * Times(h, Times(u, s))
  {
    assert (s * h - u) * (s * h - u) == (s * h) * (s * h) - 2.0 * ((s * h) * u) + u * u;
    assert (s * h) * (s * h) == (h * h) * (s * s);
    assert (s * h) * u == h * (u * s);
  }

  /** One coordinate of a point over the segment, seen from fraction g of it instead of f. */
  lemma CoordinateFrom(x: real, a: real, s: real, f: real, g: real)
    ensures Square(a + Times(s, g) - x) == Square(a + Times(s, f) - x) + Times(Square(g - f), Square(s))
                                           - 2.0 * Times(g - f, Times(x - (a + Times(s, f)), s))
  {
    hide Times;
    var u := x - (a + Times(s, f));
    SquareOfDifference(s, g - f, u);
    Shares(s, g - f, f);
    SquareOfNegation(u);
    assert a + Times(s, g) - x == Times(s, g - f) - u;
  }

  /** Pythagoras: p stands at a right angle to the segment, over its point at fraction f. */
  lemma RightAngle(a: Point, b: Point, f: real, g: real, p: Point)
    requires Across(p, Between(a, b, f), a, b) == 0.0
    ensures Squared(Between(a, b, g), p) == Squared(Between(a, b, f), p) + Times(Square(g - f), Squared(a, b))
  {
    hide Times, Square;
    var x, h := Between(a, b, f), g - f;
    CoordinateFrom(p.lat, a.lat, b.lat - a.lat, f, g);
    CoordinateFrom(p.lng, a.lng, b.lng - a.lng, f, g);
    Shares(h, Times(p.lat - x.lat, b.lat - a.lat), Times(p.lng - x.lng, b.lng - a.lng));
    Units(h);
    SquareOfNegation(a.lat - b.lat);
    SquareOfNegation(a.lng - b.lng);
    Shares(Square(h), Square(a.lat - b.lat), Square(a.lng - b.lng));
  }

  /** Between two neighbouring anchors of one straight segment, a point whose foot lies between them
      is kept when the square of its distance to the segment is at most width^2 - (step/2)^2. */
  lemma BetweenNeighboursIsKept(anchors: seq<Anchor>, dist: Distance, a: Point, b: Point, k: nat, f: real,
                                f0: real, f1: real, step: real, width: real, p: Point)
    requires Flat(dist) && width >= 0.0 && step >= 0.0 && k + 1 < |anchors|
    requires f0 <= f <= f1 && Times(f1 - f0, dist(a, b)) <= step
    requires anchors[k].at == Between(a, b, f0) && anchors[k + 1].at == Between(a, b, f1)
    requires Across(p, Between(a, b, f), a, b) == 0.0
    requires Squared(Between(a, b, f), p) <= Square(width) - Square(step / 2.0)
    ensures Kept(p, anchors, width, dist)
  {
    hide Times, Between, Across;
    var m, g := if f - f0 <= f1 - f then k else k + 1, if f - f0 <= f1 - f then f0 else f1;
    var h := if g <= f then f - g else g - f;
    var d := dist(a, b);
    RightAngle(a, b, f, g, p);
    SquareOfProduct(h, d);
    SquareOfNegation(g - f);
    NonNegative(h, d);
    KeepsOrder(h + h, f1 - f0, d);
    Distributes(h, -h, d);
    Distributes(h, 0.0, d);
    SquaresCompare(Times(h, d), step / 2.0);
    SquaresCompare(dist(anchors[m].at, p), width);
  }

  lemma NeighboursAreAtMostAStepApart(anchors: seq<Anchor>, step: real, length: real, k: nat)
    requires length >= 0.0 && step > 0.0 && Spaced(anchors, step, length) && k + 1 < |anchors|
    ensures anchors[k + 1].along - anchors[k].along <= step
  {
    hide Times, Over;
    NextMark(k, step);
    StepsBrackets(length, step);
    NextMark(Steps(length, step), step);
  }

  /** The same for the anchors of a way, two neighbours of which lie on one segment: the point over
      fraction f, between theirs, is kept up to the corridor's narrowest half-width. */
  lemma BesideTheWayIsKept(anchors: seq<Anchor>, shape: seq<Point>, dist: Distance, step: real, width: real,
                           k: nat, i: nat, f0: real, f: real, f1: real, p: Point)
    requires Flat(dist) && width >= 0.0 && step > 0.0 && shape != [] && Travelled(shape, dist, |shape| - 1) >= 0.0
    requires Spaced(anchors, step, Travelled(shape, dist, |shape| - 1)) && k + 1 < |anchors|
    requires OnSegment(shape, dist, i, f0, anchors[k].at, anchors[k].along)
    requires OnSegment(shape, dist, i, f1, anchors[k + 1].at, anchors[k + 1].along)
    requires f0 <= f <= f1 && Across(p, Between(shape[i], shape[i + 1], f), shape[i], shape[i + 1]) == 0.0
    requires Squared(Between(shape[i], shape[i + 1], f), p) <= Square(width) - Square(step / 2.0)
    ensures Kept(p, anchors, width, dist)
  {
    hide Times, Between, Across, Spaced, Flat, Travelled, Kept;
    NeighboursAreAtMostAStepApart(anchors, step, Travelled(shape, dist, |shape| - 1), k);
    Distributes(f1, f0, Gap(shape, dist, i));
    BetweenNeighboursIsKept(anchors, dist, shape[i], shape[i + 1], k, f, f0, f1, step, width, p);
  }

  lemma SquareOfNegation(x: real)
    ensures Square(x) == Square(-x)
  {
  }

  /** Midway between two anchors the bound is exact: nothing farther out is kept by either. */
  lemma MidwayIsWhereTheCorridorNarrows(a: Point, b: Point, f0: real, f1: real, width: real, p: Point)
    requires Across(p, Between(a, b, (f0 + f1) / 2.0), a, b) == 0.0
    ensures var gap := Squared(Between(a, b, f0), Between(a, b, f1));
      (Squared(Between(a, b, f0), p) <= Square(width) || Squared(Between(a, b, f1), p) <= Square(width))
      <==> Squared(Between(a, b, (f0 + f1) / 2.0), p) <= Square(width) - gap / 4.0
  {
    hide Times, Between, Across;
    var f, h := (f0 + f1) / 2.0, (f1 - f0) / 2.0;
    RightAngle(a, b, f, f0, p);
    RightAngle(a, b, f, f1, p);
    StretchSquared(a, b, f0, f1);
    assert f1 - f == h && f0 - f == -h;
    SquareOfNegation(h);
    QuarterOfSquare(f1 - f0, Squared(a, b));
  }

  lemma QuarterOfSquare(x: real, y: real)
    ensures Times(Square(x / 2.0), y) == Times(Square(x), y) / 4.0
  {
  }

  // ---------------------------------------------------------------- at a bend

  lemma SquareAround(x: real, v: real, a: real)
    ensures Square(a - x) == Square(v - x) + Square(a - v) + 2.0 * Times(x - v, v - a)
  {
    assert (a - x) * (a - x) == ((v - x) + (a - v)) * ((v - x) + (a - v));
    assert (v - x) * (a - v) == (x - v) * (v - a);
  }

  /** Seen from anchor a, a point p is farther than from the vertex by the way from a to the vertex and by
      how far p lies ahead in that direction. */
  lemma AroundTheVertex(a: Point, v: Point, p: Point)
    ensures Squared(a, p) == Squared(v, p) + Squared(a, v) + 2.0 * Across(p, v, a, v)
  {
    hide Times;
    SquareAround(p.lat, v.lat, a.lat);
    SquareAround(p.lng, v.lng, a.lng);
  }

  /** At a vertex v between the anchors a and b, one on each arm, a point is kept by one of the two exactly
      when the square of its distance to the vertex is at most what `width` leaves after the stretch of one
      arm and after how far the point lies away from that arm's anchor: ahead of the way in the first arm's
      direction, or behind it in the second's. */
  lemma KeptAtAVertexExactlyWhen(a: Point, v: Point, b: Point, width: real, p: Point)
    ensures (Squared(a, p) <= Square(width) || Squared(b, p) <= Square(width)) <==>
      || Squared(v, p) <= Square(width) - Squared(a, v) - 2.0 * Across(p, v, a, v)
      || Squared(v, p) <= Square(width) - Squared(v, b) + 2.0 * Across(p, v, v, b)
  {
    hide Times;
    AroundTheVertex(a, v, p);
    AroundTheVertex(b, v, p);
    Distributes(b.lat - v.lat, 0.0, p.lat - v.lat);
    Distributes(b.lng - v.lng, 0.0, p.lng - v.lng);
    Commutes(p.lat - v.lat, b.lat - v.lat);
    Commutes(p.lng - v.lng, b.lng - v.lng);
    Commutes(p.lat - v.lat, v.lat - b.lat);
    Commutes(p.lng - v.lng, v.lng - b.lng);
    SquareOfNegation(b.lat - v.lat);
    SquareOfNegation(b.lng - v.lng);
  }

  const BEND := [Point(0.0, 0.0), Point(0.35, 0.0), Point(0.35, 0.15)]

  const BEYOND := Point(1.034, -0.684)

  /** A right-angle bend between two anchors half a width apart: a point outside the bend, nearer to the
      vertex than the half-width the corridor is said to hold everywhere, is rejected. */
  lemma BendIsNarrower(anchors: seq<Anchor>, dist: Distance)
    requires Flat(dist) && OnWay(anchors, BEND, dist)
    requires Travelled(BEND, dist, 2) >= 0.0 && Spaced(anchors, 0.5, Travelled(BEND, dist, 2))
    ensures Somewhere(BEND, dist, BEND[1], Travelled(BEND, dist, 1))
    ensures Squared(BEND[1], BEYOND) <= Square(1.0) - Square(0.5 / 2.0)
    ensures !Kept(BEYOND, anchors, 1.0, dist)
  {
    hide Times, Over, Flat, Travelled, Between, Squared, Square, Steps;
    BendIsHalfAWidth(dist);
    OneStep();
    LastAnchorOfTheBend(anchors[1], dist);
    VertexIsOnTheWay(dist);
    BeyondTheBend();
    FartherThanOne(dist, BEND[0]);
    FartherThanOne(dist, BEND[2]);
  }

  lemma VertexIsOnTheWay(dist: Distance)
    ensures Somewhere(BEND, dist, BEND[1], Travelled(BEND, dist, 1))
  {
    hide Times, Between, Travelled;
    LastVertex(BEND[1], BEND[2]);
    Units(Gap(BEND, dist, 1));
    assert OnSegment(BEND, dist, 1, 0.0, BEND[1], Travelled(BEND, dist, 1));
  }

  lemma BeyondTheBend()
    ensures Squared(BEND[0], BEYOND) > 1.0 && Squared(BEND[2], BEYOND) > 1.0
    ensures Squared(BEND[1], BEYOND) <= Square(1.0) - Square(0.5 / 2.0)
  {
  }

  lemma FartherThanOne(dist: Distance, a: Point)
    requires Flat(dist) && Squared(a, BEYOND) > 1.0
    ensures dist(a, BEYOND) > 1.0
  {
    hide Times, Squared;
    Units(1.0);
    SquaresCompare(dist(a, BEYOND), 1.0);
  }

  lemma DistanceIs(dist: Distance, a: Point, b: Point, d: real)
    requires Flat(dist) && d >= 0.0 && Squared(a, b) == Square(d)
    ensures dist(a, b) == d
  {
    hide Times, Squared;
    SquaresCompare(dist(a, b), d);
    SquaresCompare(d, dist(a, b));
  }

  lemma ArmsOfTheBend()
    ensures Squared(BEND[0], BEND[1]) == Square(0.35) && Squared(BEND[1], BEND[2]) == Square(0.15)
  {
  }

  lemma BendIsHalfAWidth(dist: Distance)
    requires Flat(dist)
    ensures Gap(BEND, dist, 0) == 0.35 && Gap(BEND, dist, 1) == 0.15
    ensures Travelled(BEND, dist, 1) == 0.35 && Travelled(BEND, dist, 2) == 0.5
  {
    hide Flat, Squared, Square, Travelled;
    ArmsOfTheBend();
    DistanceIs(dist, BEND[0], BEND[1], 0.35);
    DistanceIs(dist, BEND[1], BEND[2], 0.15);
    SetOut(BEND, dist);
    Arrive(BEND, dist, 0);
    Arrive(BEND, dist, 1);
  }

  lemma OneStep()
    ensures AnchorCount(0.5, 0.5) == 2 && Steps(0.5, 0.5) == 1 && Mark(1, 0.5) == 0.5
  {
    StepsIsUnique(0.5, 0.5, 1);
  }

  lemma LastAnchorOfTheBend(a: Anchor, dist: Distance)
    requires Flat(dist) && Interpolated(a, BEND, dist) && a.along == 0.5
    ensures a.at == BEND[2]
  {
    hide Times, Between, Flat, Travelled, Gap;
    BendIsHalfAWidth(dist);
    SetOut(BEND, dist);
    var i: nat, f :| f > 0.0 && OnSegment(BEND, dist, i, f, a.at, a.along);
    if i == 0 {
      Units(0.35);
      KeepsOrder(f, 1.0, 0.35);
    } else {
      Units(0.15);
      KeepsOrder(f, 1.0, 0.15);
      LastVertex(BEND[1], BEND[2]);
    }
  }
}
