/**
  The order of a tour's stops: every permutation up to nine stops, nearest neighbour improved by
  2-opt beyond. Distances are a matrix of exact reals; stop 0 is where the tour starts.
*/
module Tour {
  type Matrix = seq<seq<real>>

  predicate Distances(d: Matrix, n: nat) {
    && |d| == n
    && (forall i :: 0 <= i < n ==> |d[i]| == n)
    && (forall i, j :: 0 <= i < n && 0 <= j < n ==> d[i][j] >= 0.0)
  }

  predicate Within(order: seq<nat>, n: nat) {
    forall k :: 0 <= k < |order| ==> order[k] < n
  }

  function Path(d: Matrix, order: seq<nat>): real
    requires Distances(d, |d|) && Within(order, |d|)
  {
    if |order| < 2 then 0.0
    else Path(d, order[..|order| - 1]) + d[order[|order| - 2]][order[|order| - 1]]
  }

  /** The length of a tour, back to its first stop when it is closed. */
  function Length(d: Matrix, order: seq<nat>, closed: bool): real
    requires Distances(d, |d|) && Within(order, |d|) && order != []
  {
    Path(d, order) + if closed then d[order[|order| - 1]][order[0]] else 0.0
  }

  function Stops(n: nat): (s: seq<nat>)
    ensures |s| == n && forall k :: 0 <= k < n ==> s[k] == k
  {
    seq(n, k => k)
  }

  /** Each of the n stops exactly once. */
  ghost predicate Visits(order: seq<nat>, n: nat) {
    multiset(order) == multiset(Stops(n))
  }

  lemma VisitsIsWithin(order: seq<nat>, n: nat)
    requires Visits(order, n)
    ensures Within(order, n) && |order| == n
  {
    assert |multiset(order)| == |multiset(Stops(n))|;
    forall k | 0 <= k < |order| ensures order[k] < n {
      assert order[k] in multiset(order);
      assert order[k] in Stops(n);
    }
  }

  lemma {:induction false} PathIsNonNegative(d: Matrix, order: seq<nat>)
    requires Distances(d, |d|) && Within(order, |d|)
    ensures Path(d, order) >= 0.0
  {
    if |order| >= 2 {
      PathIsNonNegative(d, order[..|order| - 1]);
    }
  }

  lemma {:induction false} PathAppend(d: Matrix, a: seq<nat>, b: seq<nat>)
    requires Distances(d, |d|) && Within(a + b, |d|) && Within(a, |d|) && Within(b, |d|) && a != [] && b != []
    ensures Path(d, a + b) == Path(d, a) + d[a[|a| - 1]][b[0]] + Path(d, b)
  {
    var front := b[..|b| - 1];
    assert (a + b)[..|a + b| - 1] == a + front;
    if |b| == 1 {
      assert a + front == a;
    } else {
      PathAppend(d, a, front);
    }
  }

  /** The length of an open tour is the sum of its legs, and a closed one is as long as the open one that
      comes back to its first stop. */
  lemma LengthIsItsLegs(d: Matrix, a: seq<nat>, x: nat)
    requires Distances(d, |d|) && Within(a, |d|) && a != [] && x < |d|
    ensures Length(d, [x], false) == 0.0
    ensures Length(d, a + [x], false) == Length(d, a, false) + d[a[|a| - 1]][x]
    ensures Length(d, a, true) == Length(d, a + [a[0]], false)
  {
    PathAppend(d, a, [x]);
    PathAppend(d, a, [a[0]]);
  }

  // ---------------------------------------------------------------- every permutation

  function Without(xs: seq<nat>, i: nat): (rest: seq<nat>)
    requires i < |xs|
    ensures |rest| == |xs| - 1
  {
    xs[..i] + xs[i + 1..]
  }

  /** The orders of `xs` that start with one of its first `upTo` elements. */
  function Arrangements(xs: seq<nat>, upTo: nat): seq<seq<nat>>
    requires upTo <= |xs|
    decreases |xs|, upTo, 0
  {
    if upTo == 0 then []
    else Arrangements(xs, upTo - 1) + Prefixed(xs[upTo - 1], Permutations(Without(xs, upTo - 1)))
  }

  /** Every order of `xs`, in the order itertools lists them. */
  function Permutations(xs: seq<nat>): seq<seq<nat>>
    decreases |xs|, |xs| + 1, 1
  {
    if xs == [] then [[]] else Arrangements(xs, |xs|)
  }

  function Prefixed(x: nat, lists: seq<seq<nat>>): (r: seq<seq<nat>>)
    ensures |r| == |lists| && forall k :: 0 <= k < |r| ==> r[k] == [x] + lists[k]
  {
    seq(|lists|, k requires 0 <= k < |lists| => [x] + lists[k])
  }

  lemma RemoveOne(xs: seq<nat>, i: nat)
    requires i < |xs|
    ensures multiset(xs) == multiset{xs[i]} + multiset(Without(xs, i))
  {
    assert xs == xs[..i] + [xs[i]] + xs[i + 1..];
  }

  lemma SameTails(a: seq<nat>, b: seq<nat>)
    requires a != [] && b != [] && a[0] == b[0] && multiset(a) == multiset(b)
    ensures multiset(a[1..]) == multiset(b[1..])
  {
    assert a == [a[0]] + a[1..] && b == [b[0]] + b[1..];
    assert multiset(a[1..]) == multiset(a) - multiset{a[0]};
    assert multiset(b[1..]) == multiset(b) - multiset{b[0]};
  }

  lemma {:induction false} ArrangementsArePermutations(xs: seq<nat>, upTo: nat, order: seq<nat>)
    requires upTo <= |xs| && order in Arrangements(xs, upTo)
    ensures multiset(order) == multiset(xs)
    decreases |xs|, upTo
  {
    hide Permutations, Arrangements, Without;
    LastArranged(xs, upTo, order);
    if order in Arrangements(xs, upTo - 1) {
      ArrangementsArePermutations(xs, upTo - 1, order);
    } else {
      PermutationsAreSound(Without(xs, upTo - 1), order[1..]);
      PutBack(xs, upTo - 1, order);
    }
  }

  lemma LastArranged(xs: seq<nat>, upTo: nat, order: seq<nat>)
    requires upTo <= |xs| && order in Arrangements(xs, upTo)
    ensures upTo > 0
    ensures order in Arrangements(xs, upTo - 1)
      || (order != [] && order[0] == xs[upTo - 1] && order[1..] in Permutations(Without(xs, upTo - 1)))
  {
    hide Permutations, Without;
    if order !in Arrangements(xs, upTo - 1) {
      var rest := Permutations(Without(xs, upTo - 1));
      var k :| 0 <= k < |rest| && order == [xs[upTo - 1]] + rest[k];
      assert order[1..] == rest[k];
    }
  }

  lemma PutBack(xs: seq<nat>, i: nat, order: seq<nat>)
    requires i < |xs| && order != [] && order[0] == xs[i] && multiset(order[1..]) == multiset(Without(xs, i))
    ensures multiset(order) == multiset(xs)
  {
    hide Without;
    RemoveOne(xs, i);
    assert order == [order[0]] + order[1..];
  }

  lemma {:induction false} PermutationsAreSound(xs: seq<nat>, order: seq<nat>)
    requires order in Permutations(xs)
    ensures multiset(order) == multiset(xs)
    decreases |xs|, |xs| + 1
  {
    if xs != [] {
      ArrangementsArePermutations(xs, |xs|, order);
    }
  }

  lemma {:induction false} ArrangementsGrow(xs: seq<nat>, i: nat, upTo: nat, order: seq<nat>)
    requires i < upTo <= |xs| && order in Prefixed(xs[i], Permutations(Without(xs, i)))
    ensures order in Arrangements(xs, upTo)
    decreases upTo
  {
    if i < upTo - 1 {
      ArrangementsGrow(xs, i, upTo - 1, order);
    }
  }

  /** The enumeration lists exactly the reorderings of `xs`. */
  lemma {:induction false} PermutationsAreExactlyTheReorderings(xs: seq<nat>, order: seq<nat>)
    ensures order in Permutations(xs) <==> multiset(order) == multiset(xs)
    decreases |xs|
  {
    if order in Permutations(xs) {
      PermutationsAreSound(xs, order);
    }
    if multiset(order) == multiset(xs) {
      assert |order| == |multiset(order)| == |xs|;
      if xs != [] {
        assert order[0] in multiset(xs);
        var i :| 0 <= i < |xs| && xs[i] == order[0];
        RemoveOne(xs, i);
        assert order == [order[0]] + order[1..];
        SameTails(order, [xs[i]] + Without(xs, i));
        PermutationsAreExactlyTheReorderings(Without(xs, i), order[1..]);
        var rest := Permutations(Without(xs, i));
        var k :| 0 <= k < |rest| && rest[k] == order[1..];
        assert Prefixed(xs[i], rest)[k] == order;
        ArrangementsGrow(xs, i, |xs|, order);
      }
    }
  }

  /** The shortest of the tours that start at stop 0, the first one listed when several tie. */
  method Shortest(d: Matrix, n: nat, closed: bool) returns (order: seq<nat>)
    requires n > 0 && |d| == n && Distances(d, n)
    ensures Visits(order, n) && Within(order, n) && |order| == n && order[0] == 0
    ensures forall other :: Visits(other, n) && Within(other, n) && |other| == n && other[0] == 0 ==>
      Length(d, order, closed) <= Length(d, other, closed)
  {
    hide Path, Permutations;
    var rest := Stops(n)[1..];
    var all := Permutations(rest);
    assert Stops(n) == [0] + rest;
    StartingAtZero(all, rest, n);
    assert all != [] by { PermutationsAreExactlyTheReorderings(rest, rest); }
    order := [0] + all[0];
    for k := 1 to |all|
      invariant exists m :: 0 <= m < |all| && order == [0] + all[m]
      invariant forall m :: 0 <= m < k ==> Length(d, order, closed) <= Length(d, [0] + all[m], closed)
    {
      if Length(d, [0] + all[k], closed) < Length(d, order, closed) {
        order := [0] + all[k];
      }
    }
    forall other | Visits(other, n) && Within(other, n) && |other| == n && other[0] == 0
      ensures Length(d, order, closed) <= Length(d, other, closed)
    {
      assert other == [0] + other[1..];
      SameTails(other, Stops(n));
      PermutationsAreExactlyTheReorderings(rest, other[1..]);
      var m :| 0 <= m < |all| && all[m] == other[1..];
    }
  }

  lemma StartingAtZero(all: seq<seq<nat>>, rest: seq<nat>, n: nat)
    requires n > 0 && Stops(n) == [0] + rest && all == Permutations(rest)
    ensures forall m :: 0 <= m < |all| ==> Visits([0] + all[m], n) && Within([0] + all[m], n) && |[0] + all[m]| == n
  {
    forall m | 0 <= m < |all|
      ensures Visits([0] + all[m], n) && Within([0] + all[m], n) && |[0] + all[m]| == n
    {
      PermutationsAreSound(rest, all[m]);
      VisitsIsWithin([0] + all[m], n);
    }
  }

  /** A closed tour may start anywhere: rotating it keeps its length. */
  lemma RotationKeepsTheLength(d: Matrix, a: seq<nat>, b: seq<nat>)
    requires Distances(d, |d|) && a != [] && b != []
    requires Within(a, |d|) && Within(b, |d|) && Within(a + b, |d|) && Within(b + a, |d|)
    ensures Length(d, a + b, true) == Length(d, b + a, true)
  {
    PathAppend(d, a, b);
    PathAppend(d, b, a);
  }

  /** Shortest among the tours from stop 0 is, for a closed tour, shortest among all tours. */
  lemma ShortestFromZeroIsShortest(d: Matrix, n: nat, order: seq<nat>, other: seq<nat>)
    requires n > 0 && |d| == n && Distances(d, n)
    requires Within(order, n) && |order| == n && order[0] == 0
    requires forall o :: Visits(o, n) && Within(o, n) && |o| == n && o[0] == 0 ==>
      Length(d, order, true) <= Length(d, o, true)
    requires Visits(other, n) && Within(other, n) && |other| == n
    ensures Length(d, order, true) <= Length(d, other, true)
  {
    hide Path, Length;
    var turned := FromZero(d, n, other);
  }

  /** The same closed tour, started at stop 0. */
  lemma FromZero(d: Matrix, n: nat, other: seq<nat>) returns (turned: seq<nat>)
    requires n > 0 && |d| == n && Distances(d, n)
    requires Visits(other, n) && Within(other, n) && |other| == n
    ensures Visits(turned, n) && Within(turned, n) && |turned| == n && turned[0] == 0
    ensures Length(d, turned, true) == Length(d, other, true)
  {
    hide Path, Length;
    assert Stops(n)[0] in multiset(other);
    var i :| 0 <= i < n && other[i] == 0;
    var a, b := other[..i], other[i..];
    assert other == a + b;
    if i == 0 {
      turned := other;
    } else {
      turned := b + a;
      VisitsIsWithin(turned, n);
      RotationKeepsTheLength(d, a, b);
    }
  }

  // ---------------------------------------------------------------- nearest neighbour

  /** Each stop is a nearest one among those still to come. */
  ghost predicate Greedy(d: Matrix, order: seq<nat>)
    requires Distances(d, |d|) && Within(order, |d|)
  {
    forall k, m :: 1 <= k <= m < |order| ==> d[order[k - 1]][order[k]] <= d[order[k - 1]][order[m]]
  }

  method Nearest(row: seq<real>, left: set<nat>) returns (next: nat)
    requires left != {} && forall j :: j in left ==> j < |row|
    ensures next in left && forall j :: j in left ==> row[next] <= row[j]
  {
    next :| next in left;
    var rest := left - {next};
    while rest != {}
      invariant rest <= left && next in left
      invariant forall j :: j in left && j !in rest ==> row[next] <= row[j]
      decreases |rest|
    {
      var j :| j in rest;
      if row[j] < row[next] {
        next := j;
      }
      rest := rest - {j};
    }
  }

  /** What is left was no nearer when each stop was chosen. */
  ghost predicate Passed(d: Matrix, order: seq<nat>, left: set<nat>)
    requires Distances(d, |d|) && Within(order, |d|) && forall j :: j in left ==> j < |d|
  {
    forall k, j :: 1 <= k < |order| && j in left ==> d[order[k - 1]][order[k]] <= d[order[k - 1]][j]
  }

  lemma GreedyStarts(d: Matrix, left: set<nat>)
    requires Distances(d, |d|) && |d| > 0 && forall j :: j in left ==> j < |d|
    ensures Greedy(d, [0]) && Passed(d, [0], left)
  {
  }

  lemma GreedyGrows(d: Matrix, order: seq<nat>, left: set<nat>, next: nat)
    requires Distances(d, |d|) && Within(order, |d|) && order != [] && forall j :: j in left ==> j < |d|
    requires Greedy(d, order) && Passed(d, order, left)
    requires next in left && forall j :: j in left ==> d[order[|order| - 1]][next] <= d[order[|order| - 1]][j]
    ensures Within(order + [next], |d|) && Greedy(d, order + [next]) && Passed(d, order + [next], left - {next})
  {
  }

  function Numbers(lo: nat, hi: nat): (s: set<nat>)
    ensures forall j :: j in s <==> lo <= j < hi
    decreases hi - lo
  {
    if lo >= hi then {} else {lo} + Numbers(lo + 1, hi)
  }

  method NearestNeighbour(d: Matrix, n: nat) returns (order: seq<nat>)
    requires n > 0 && |d| == n && Distances(d, n)
    ensures Visits(order, n) && Within(order, n) && |order| == n && order[0] == 0
    ensures Greedy(d, order)
  {
    hide Path, Visits, Greedy, Passed;
    order := [0];
    GreedyStarts(d, Numbers(1, n));
    var left: set<nat> := Numbers(1, n);
    while left != {}
      invariant Within(order, n) && order != [] && order[0] == 0
      invariant forall j: nat :: j in left <==> j < n && j !in order
      invariant forall a, b :: 0 <= a < b < |order| ==> order[a] != order[b]
      invariant Greedy(d, order) && Passed(d, order, left)
      decreases |left|
    {
      var next := Nearest(d[order[|order| - 1]], left);
      GreedyGrows(d, order, left, next);
      order := order + [next];
      left := left - {next};
    }
    EachOnceVisits(order, n);
  }

  lemma EachOnceVisits(order: seq<nat>, n: nat)
    requires Within(order, n) && forall j: nat :: j < n ==> j in order
    requires forall a, b :: 0 <= a < b < |order| ==> order[a] != order[b]
    ensures Visits(order, n) && |order| == n
  {
    forall x: nat ensures multiset(order)[x] == multiset(Stops(n))[x] {
      StopsOnce(n, x);
      CountOnce(order, x);
    }
    assert multiset(order) == multiset(Stops(n));
    VisitsIsWithin(order, n);
  }

  lemma {:induction false} CountOnce(order: seq<nat>, x: nat)
    requires forall a, b :: 0 <= a < b < |order| ==> order[a] != order[b]
    ensures multiset(order)[x] == if x in order then 1 else 0
  {
    if order != [] {
      var front := order[..|order| - 1];
      assert order == front + [order[|order| - 1]];
      CountOnce(front, x);
    }
  }

  lemma {:induction false} StopsOnce(n: nat, x: nat)
    ensures multiset(Stops(n))[x] == if x < n then 1 else 0
  {
    if n > 0 {
      assert Stops(n) == Stops(n - 1) + [n - 1];
      StopsOnce(n - 1, x);
    }
  }

  // ---------------------------------------------------------------- 2-opt

  function Reversed(s: seq<nat>): (r: seq<nat>)
    ensures |r| == |s| && multiset(r) == multiset(s)
  {
    if s == [] then []
    else
      assert s == s[..|s| - 1] + [s[|s| - 1]];
      [s[|s| - 1]] + Reversed(s[..|s| - 1])
  }

  /** The 2-opt move: the stops i to j in the opposite order. */
  function Flip(order: seq<nat>, i: nat, j: nat): (r: seq<nat>)
    requires i <= j < |order|
    ensures |r| == |order| && multiset(r) == multiset(order)
    ensures i > 0 ==> r[0] == order[0]
    ensures forall n :: Within(order, n) ==> Within(r, n)
  {
    assert order == order[..i] + order[i..j + 1] + order[j + 1..];
    var r := order[..i] + Reversed(order[i..j + 1]) + order[j + 1..];
    SameWithin(order, r);
    r
  }

  lemma {:induction false} ReversedAt(s: seq<nat>, k: nat)
    requires k < |s|
    ensures Reversed(s)[k] == s[|s| - 1 - k]
  {
    if k > 0 {
      ReversedAt(s[..|s| - 1], k - 1);
    }
  }

  /** The stops of the stretch change places end for end; the others stay. */
  lemma FlipAt(order: seq<nat>, i: nat, j: nat, k: nat)
    requires i <= j < |order| && k < |order|
    ensures Flip(order, i, j)[k] == if i <= k <= j then order[i + j - k] else order[k]
  {
    if i <= k <= j {
      ReversedAt(order[i..j + 1], k - i);
    }
  }

  lemma SameWithin(a: seq<nat>, b: seq<nat>)
    requires multiset(a) == multiset(b)
    ensures forall n :: Within(a, n) ==> Within(b, n)
  {
    forall k | 0 <= k < |b| ensures b[k] in a {
      assert b[k] in multiset(b);
    }
  }

  const GAIN := 0.000001

  ghost predicate Worthwhile(d: Matrix, order: seq<nat>, closed: bool, i: nat, j: nat)
    requires Distances(d, |d|) && Within(order, |d|) && i <= j < |order|
  {
    Length(d, Flip(order, i, j), closed) < Length(d, order, closed) - GAIN
  }

  ghost predicate Tours(d: Matrix, order: seq<nat>, home: nat) {
    Visits(order, |d|) && Within(order, |d|) && |order| == |d| && order != [] && order[0] == home
  }

  lemma FlipKeepsTheStops(d: Matrix, order: seq<nat>, home: nat, i: nat, j: nat)
    requires Tours(d, order, home) && 1 <= i <= j < |order|
    ensures Tours(d, Flip(order, i, j), home)
  {
  }

  /** The inner loop: tries every end j for the stretch that starts at i, keeping each gain. */
  method EndsFor(d: Matrix, start: seq<nat>, closed: bool, i: nat) returns (order: seq<nat>, improved: bool)
    requires Distances(d, |d|) && 1 <= i < |d| && |start| == |d| && Tours(d, start, start[0])
    ensures Tours(d, order, start[0])
    ensures improved ==> Length(d, order, closed) < Length(d, start, closed) - GAIN
    ensures !improved ==> order == start && forall j :: i < j < |d| ==> !Worthwhile(d, order, closed, i, j)
  {
    hide Path, Visits, Flip;
    order, improved := start, false;
    for j := i + 1 to |d|
      invariant Tours(d, order, start[0])
      invariant improved ==> Length(d, order, closed) < Length(d, start, closed) - GAIN
      invariant !improved ==> order == start && forall b :: i < b < j ==> !Worthwhile(d, order, closed, i, b)
    {
      var cand := Flip(order, i, j);
      FlipKeepsTheStops(d, order, start[0], i, j);
      if Length(d, cand, closed) < Length(d, order, closed) - GAIN {
        order, improved := cand, true;
      }
    }
  }

  /** Repeats passes over every pair until a whole pass finds nothing. */
  method TwoOpt(d: Matrix, start: seq<nat>, closed: bool) returns (order: seq<nat>)
    requires |d| > 0 && Distances(d, |d|) && |start| == |d| && Tours(d, start, start[0])
    ensures Tours(d, order, start[0])
    ensures Length(d, order, closed) <= Length(d, start, closed)
    ensures order == start || Length(d, order, closed) < Length(d, start, closed) - GAIN
    ensures forall i, j :: 1 <= i < j < |d| ==> !Worthwhile(d, order, closed, i, j)
  {
    hide Path, Visits, Measure;
    var n := |d|;
    order := start;
    var improved := true;
    while improved
      invariant Tours(d, order, start[0])
      invariant order == start || Length(d, order, closed) < Length(d, start, closed) - GAIN
      invariant !improved ==> forall i, j :: 1 <= i < j < n ==> !Worthwhile(d, order, closed, i, j)
      decreases Measure(d, order, closed), if improved then 1 else 0
    {
      improved := false;
      ghost var before := order;
      for i := 1 to Top(n)
        invariant Tours(d, order, start[0])
        invariant Progress(d, start, before, order, closed, improved)
        invariant !improved ==> forall a, b :: 1 <= a < i && a < b < n ==> !Worthwhile(d, order, closed, a, b)
      {
        var better;
        order, better := EndsFor(d, order, closed, i);
        improved := improved || better;
      }
      if improved {
        MeasureDrops(d, before, order, closed);
      }
    }
  }

  function Top(n: nat): nat {
    if n < 2 then 1 else n - 1
  }

  ghost predicate Progress(d: Matrix, start: seq<nat>, before: seq<nat>, order: seq<nat>, closed: bool, improved: bool)
    requires Distances(d, |d|) && start != [] && before != [] && order != []
    requires Within(start, |d|) && Within(before, |d|) && Within(order, |d|)
  {
    && (!improved ==> order == before)
    && (improved ==> Length(d, order, closed) < Length(d, before, closed) - GAIN)
    && (before == start || Length(d, before, closed) < Length(d, start, closed) - GAIN)
  }

  ghost function Measure(d: Matrix, order: seq<nat>, closed: bool): nat
    requires Distances(d, |d|) && Within(order, |d|) && order != []
  {
    PathIsNonNegative(d, order);
    (Length(d, order, closed) * 1000000.0).Floor
  }

  lemma MeasureDrops(d: Matrix, before: seq<nat>, after: seq<nat>, closed: bool)
    requires Distances(d, |d|) && Within(before, |d|) && Within(after, |d|) && before != [] && after != []
    requires Length(d, after, closed) < Length(d, before, closed) - GAIN
    ensures Measure(d, after, closed) < Measure(d, before, closed)
  {
  }

  // ---------------------------------------------------------------- stretches that include the first stop

  ghost predicate Symmetric(d: Matrix)
    requires Distances(d, |d|)
  {
    forall i, j :: 0 <= i < |d| && 0 <= j < |d| ==> d[i][j] == d[j][i]
  }

  lemma ReversedStep(s: seq<nat>)
    requires s != []
    ensures Reversed(s) == [s[|s| - 1]] + Reversed(s[..|s| - 1])
  {
  }

  lemma {:induction false} ReversedEnds(s: seq<nat>)
    requires s != []
    ensures Reversed(s)[0] == s[|s| - 1] && Reversed(s)[|s| - 1] == s[0]
  {
    hide Reversed;
    ReversedStep(s);
    if |s| > 1 {
      ReversedEnds(s[..|s| - 1]);
    }
  }

  lemma {:induction false} BackwardsIsAsLong(d: Matrix, s: seq<nat>)
    requires Distances(d, |d|) && Symmetric(d) && Within(s, |d|)
    ensures Within(Reversed(s), |d|) && Path(d, Reversed(s)) == Path(d, s)
  {
    hide Path, Symmetric, Reversed;
    SameWithin(s, Reversed(s));
    assert Within(s, |d|) && Within(Reversed(s), |d|);
    if |s| >= 2 {
      var front := s[..|s| - 1];
      BackwardsIsAsLong(d, front);
      ReversedStep(s);
      ReversedEnds(front);
      OneInFront(d, s[|s| - 1], Reversed(front));
      OneBehind(d, s);
    } else {
      ReversedOfFew(s);
    }
  }

  lemma ReversedOfFew(s: seq<nat>)
    requires |s| < 2
    ensures Reversed(s) == s
  {
  }

  lemma OneBehind(d: Matrix, s: seq<nat>)
    requires Distances(d, |d|) && Symmetric(d) && Within(s, |d|) && |s| >= 2
    ensures Path(d, s) == Path(d, s[..|s| - 1]) + d[s[|s| - 1]][s[|s| - 2]]
  {
  }

  lemma OneInFront(d: Matrix, x: nat, s: seq<nat>)
    requires Distances(d, |d|) && Within([x] + s, |d|) && Within(s, |d|) && x < |d| && s != []
    ensures Path(d, [x] + s) == d[x][s[0]] + Path(d, s)
  {
    PathAppend(d, [x], s);
  }

  /** Reversing the front of a closed tour is, both ways being as long, reversing its back. */
  lemma FrontFlipIsBackFlip(d: Matrix, a: seq<nat>, b: seq<nat>)
    requires Distances(d, |d|) && Symmetric(d) && a != [] && b != [] && Within(a, |d|) && Within(b, |d|)
    ensures Within(Reversed(a) + b, |d|) && Within(a + Reversed(b), |d|)
    ensures Length(d, Reversed(a) + b, true) == Length(d, a + Reversed(b), true)
  {
    hide Path, Reversed;
    BackwardsIsAsLong(d, a);
    BackwardsIsAsLong(d, b);
    ReversedEnds(a);
    ReversedEnds(b);
    PathAppend(d, Reversed(a), b);
    PathAppend(d, a, Reversed(b));
  }

  lemma FlipsOfBothParts(a: seq<nat>, b: seq<nat>)
    requires a != [] && b != []
    ensures Flip(a + b, 0, |a| - 1) == Reversed(a) + b
    ensures Flip(a + b, |a|, |a| + |b| - 1) == a + Reversed(b)
  {
    hide Reversed;
    assert (a + b)[0..|a|] == a && (a + b)[|a|..|a| + |b|] == b;
  }

  lemma FlipOfOne(order: seq<nat>, i: nat)
    requires i < |order|
    ensures Flip(order, i, i) == order
  {
    assert Reversed(order[i..i + 1]) == order[i..i + 1];
  }

  lemma FlipOfAll(order: seq<nat>)
    requires order != []
    ensures Flip(order, 0, |order| - 1) == Reversed(order)
  {
    assert order[0..|order|] == order;
  }

  lemma WholeFlipGainsNothing(d: Matrix, order: seq<nat>)
    requires Distances(d, |d|) && Symmetric(d) && Within(order, |d|) && order != []
    ensures !Worthwhile(d, order, true, 0, |order| - 1)
  {
    hide Path, Reversed, Flip;
    FlipOfAll(order);
    BackwardsIsAsLong(d, order);
    ReversedEnds(order);
  }

  lemma FrontFlipGainsAsBackFlip(d: Matrix, order: seq<nat>, j: nat)
    requires Distances(d, |d|) && Symmetric(d) && Within(order, |d|) && j + 1 < |order|
    ensures Worthwhile(d, order, true, 0, j) <==> Worthwhile(d, order, true, j + 1, |order| - 1)
  {
    hide Path, Length, Reversed, Flip;
    var a, b := order[..j + 1], order[j + 1..];
    assert order == a + b;
    FlipsOfBothParts(a, b);
    FrontFlipIsBackFlip(d, a, b);
  }

  /** Where the search stops, no reversal of any stretch of a closed tour gains more than GAIN: the
      stretches that include the first stop are covered by the others. */
  lemma ClosedTourHasNoWorthwhileFlip(d: Matrix, order: seq<nat>, i: nat, j: nat)
    requires Distances(d, |d|) && Symmetric(d) && Within(order, |d|) && |order| == |d|
    requires forall a, b :: 1 <= a < b < |d| ==> !Worthwhile(d, order, true, a, b)
    requires i <= j < |d|
    ensures !Worthwhile(d, order, true, i, j)
  {
    hide *;
    if i == j {
      SingleFlipGainsNothing(d, order, i);
    } else {
      if i == 0 && j == |d| - 1 {
        WholeFlipGainsNothing(d, order);
      } else if i == 0 {
        FrontFlipGainsAsBackFlip(d, order, j);
        if j + 1 == |d| - 1 {
          SingleFlipGainsNothing(d, order, j + 1);
        }
      }
    }
  }

  lemma SingleFlipGainsNothing(d: Matrix, order: seq<nat>, i: nat)
    requires Distances(d, |d|) && Within(order, |d|) && i < |order|
    ensures !Worthwhile(d, order, true, i, i)
  {
    FlipOfOne(order, i);
  }

  // ---------------------------------------------------------------- the whole

  /** The order the service travels. Up to nine stops it is a shortest one; beyond, no reversal of a
      stretch after the first stop shortens it by more than GAIN, and some nearest-neighbour tour from
      the first stop is no shorter. */
  method Order(d: Matrix, closed: bool) returns (order: seq<nat>)
    requires Distances(d, |d|)
    ensures Visits(order, |d|) && Within(order, |d|) && |order| == |d| && (order != [] ==> order[0] == 0)
    ensures 0 < |d| <= 9 ==>
      forall other :: Visits(other, |d|) && Within(other, |d|) && |other| == |d| && (closed || other[0] == 0) ==>
        Length(d, order, closed) <= Length(d, other, closed)
    ensures |d| > 9 ==> forall i, j :: 1 <= i < j < |d| ==>
      Length(d, order, closed) <= Length(d, Flip(order, i, j), closed) + 0.000001
    ensures |d| > 9 ==>
      exists first ::
        && Visits(first, |d|) && Within(first, |d|) && |first| == |d| && first[0] == 0 && Greedy(d, first)
        && Length(d, order, closed) <= Length(d, first, closed)
  {
    hide Path, Length, Flip, Worthwhile;
    var n := |d|;
    if n <= 2 {
      order := Stops(n);
      if n > 0 {
        AtMostTwo(d, closed);
      }
    } else if n <= 9 {
      order := Shortest(d, n, closed);
      if closed {
        forall other | Visits(other, n) && Within(other, n) && |other| == n
          ensures Length(d, order, closed) <= Length(d, other, closed)
        {
          ShortestFromZeroIsShortest(d, n, order, other);
        }
      }
    } else {
      var first := NearestNeighbour(d, n);
      order := TwoOpt(d, first, closed);
      NoFlipGains(d, order, closed);
    }
  }

  lemma NoFlipGains(d: Matrix, order: seq<nat>, closed: bool)
    requires Distances(d, |d|) && Within(order, |d|) && |order| == |d|
    requires forall i, j :: 1 <= i < j < |d| ==> !Worthwhile(d, order, closed, i, j)
    ensures forall i, j :: 1 <= i < j < |d| ==>
      Length(d, order, closed) <= Length(d, Flip(order, i, j), closed) + 0.000001
  {
    hide Length, Flip;
    forall i, j | 1 <= i < j < |d|
      ensures Length(d, order, closed) <= Length(d, Flip(order, i, j), closed) + 0.000001
    {
      assert !Worthwhile(d, order, closed, i, j);
    }
  }

  lemma AtMostTwo(d: Matrix, closed: bool)
    requires 0 < |d| <= 2 && Distances(d, |d|)
    ensures forall other :: Visits(other, |d|) && Within(other, |d|) && |other| == |d| && (closed || other[0] == 0) ==>
      Length(d, Stops(|d|), closed) <= Length(d, other, closed)
  {
    hide Path, Length;
    forall other | Visits(other, |d|) && Within(other, |d|) && |other| == |d| && (closed || other[0] == 0)
      ensures Length(d, Stops(|d|), closed) <= Length(d, other, closed)
    {
      OrderOfAtMostTwo(other, |d|);
      if other != Stops(|d|) {
        RotationKeepsTheLength(d, [0], [1]);
        assert other == [1] + [0] && Stops(2) == [0] + [1];
      }
    }
  }

  lemma OrderOfAtMostTwo(other: seq<nat>, n: nat)
    requires 0 < n <= 2 && Visits(other, n) && Within(other, n) && |other| == n
    ensures other == Stops(n) || (n == 2 && other == [1, 0])
  {
    if n == 2 {
      StopsOnce(2, other[0]);
      assert other == [other[0]] + [other[1]];
      assert multiset(other)[other[0]] == 1;
    }
  }
}
