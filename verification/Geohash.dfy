/**
  Geohashes: the loop that bisects the two intervals against its closed form, what a shared hash or
  a shared prefix says about two points, and the grid of cells around a centre.
*/
module Geohash {
  import opened BinaryPowers
  import opened Reals

  const B32 := "0123456789bcdefghjkmnpqrstuvwxyz"

  // ---------------------------------------------------------------- the closed form

  /** A coordinate as a fraction of its whole range. */
  function Fraction(v: real, low: real, span: real): real
    requires span > 0.0
  {
    Over(v - low, span)
  }

  function Clamped(n: int, k: nat): (c: nat)
    ensures c < Pow2(k)
  {
    if n < 0 then 0 else if n >= Pow2(k) then Pow2(k) - 1 else n
  }

  function Index(u: real, k: nat): int {
    Times(u, Pow2(k) as real).Floor
  }

  /** The number of the cell that holds u when the range is cut into 2^k equal cells; coordinates out
      of range belong to the first or the last. */
  function Cell(u: real, k: nat): (c: nat)
    ensures c < Pow2(k)
  {
    Clamped(Index(u, k), k)
  }

  /** The first n bits of x and y in turn, x first. */
  function Interleave(x: nat, y: nat, n: nat): nat {
    if n == 0 then 0
    else if n % 2 == 1 then 2 * Interleave(x / 2, y, n - 1) + x % 2
    else 2 * Interleave(x, y / 2, n - 1) + y % 2
  }

  function Base32(z: nat, digits: nat): (s: string)
    ensures |s| == digits
  {
    if digits == 0 then "" else Base32(z / 32, digits - 1) + [B32[z % 32]]
  }

  function LngBits(n: nat): nat { (n + 1) / 2 }

  function LatBits(n: nat): nat { n / 2 }

  function Code(lng: real, lat: real, n: nat): nat {
    Interleave(Cell(Fraction(lng, -180.0, 360.0), LngBits(n)), Cell(Fraction(lat, -90.0, 180.0), LatBits(n)), n)
  }

  function Hash(lat: real, lng: real, precision: nat): (s: string)
    ensures |s| == precision
  {
    Base32(Code(lng, lat, 5 * precision), precision)
  }

  // ---------------------------------------------------------------- one bisection

  lemma DoubleScale(u: real, k: nat)
    ensures Times(u, Pow2(k + 1) as real) == 2.0 * Times(u, Pow2(k) as real)
  {
    Doubled(u, Pow2(k) as real);
    assert Pow2(k + 1) as real == 2.0 * (Pow2(k) as real);
  }

  lemma Doubled(u: real, p: real)
    ensures Times(u, 2.0 * p) == 2.0 * Times(u, p)
  {
  }

  /** One more bit: the upper half of the cell exactly from its middle on. */
  lemma NextCell(u: real, k: nat)
    ensures Cell(u, k + 1) ==
      2 * Cell(u, k) + if 2.0 * Times(u, Pow2(k) as real) >= 2.0 * (Cell(u, k) as real) + 1.0 then 1 else 0
    ensures Cell(u, k + 1) / 2 == Cell(u, k)
  {
    hide Times;
    DoubleScale(u, k);
    var y := Times(u, Pow2(k) as real);
    assert Index(u, k) as real <= y < Index(u, k) as real + 1.0;
    assert Index(u, k + 1) as real <= 2.0 * y < Index(u, k + 1) as real + 1.0;
  }

  /** The interval [lo, hi] the loop holds is the k-bit cell of v. */
  ghost predicate Holds(lo: real, hi: real, v: real, low: real, span: real, k: nat)
    requires span > 0.0
  {
    && hi > lo && Times(hi - lo, Pow2(k) as real) == span
    && lo == low + Times(Cell(Fraction(v, low, span), k) as real, hi - lo)
  }

  lemma HoldsAtStart(v: real, low: real, span: real)
    requires span > 0.0
    ensures Holds(low, low + span, v, low, span, 0)
  {
    Units(span);
  }

  lemma ScaledDistance(v: real, low: real, span: real, p: real, width: real)
    requires span > 0.0 && Times(width, p) == span
    ensures v - low == Times(Times(Fraction(v, low, span), p), width)
  {
    Quotient(v - low, span);
    Rearranged(Fraction(v, low, span), width, p);
  }

  lemma Rearranged(u: real, w: real, p: real)
    ensures Times(u, Times(w, p)) == Times(Times(u, p), w)
  {
    assert u * (w * p) == (u * p) * w;
  }

  lemma Halved(w: real, p: real, c: real)
    ensures Times(w / 2.0, 2.0 * p) == Times(w, p)
    ensures Times(2.0 * c, w / 2.0) == Times(c, w)
    ensures Times(2.0 * c + 1.0, w / 2.0) == Times(c, w) + w / 2.0
  {
  }

  /** Comparing with the middle of the interval gives the next bit and leaves the next cell. */
  lemma Bisect(lo: real, hi: real, v: real, low: real, span: real, k: nat)
    requires span > 0.0 && Holds(lo, hi, v, low, span, k)
    ensures var mid := (lo + hi) / 2.0; var u := Fraction(v, low, span);
      if v >= mid then Cell(u, k + 1) == 2 * Cell(u, k) + 1 && Holds(mid, hi, v, low, span, k + 1)
      else Cell(u, k + 1) == 2 * Cell(u, k) && Holds(lo, mid, v, low, span, k + 1)
  {
    hide Times, Cell, Fraction;
    var u, w, mid := Fraction(v, low, span), hi - lo, (lo + hi) / 2.0;
    var p, c := Pow2(k) as real, Cell(u, k) as real;
    ScaledDistance(v, low, span, p, w);
    NextCell(u, k);
    Halved(w, p, c);
    assert Pow2(k + 1) as real == 2.0 * p;
    var y := Times(u, p);
    Distributes(c, -0.5, w);
    Halved(w, 0.5, 0.5);
    Middle(y, c, w);
    assert mid == low + Times(c, w) + w / 2.0;
    assert v >= mid <==> 2.0 * y >= 2.0 * c + 1.0;
  }

  lemma Middle(y: real, c: real, w: real)
    requires w > 0.0
    ensures Times(y, w) >= Times(c, w) + w / 2.0 <==> 2.0 * y >= 2.0 * c + 1.0
  {
    hide Times;
    var m := c + 0.5;
    assert Times(m, w) == Times(c, w) + w / 2.0 by { HalfMore(c, w); }
    if y >= m {
      KeepsOrder(m, y, w);
    } else {
      KeepsOrder(y, m, w);
    }
  }

  lemma HalfMore(c: real, w: real)
    ensures Times(c + 0.5, w) == Times(c, w) + w / 2.0
  {
  }

  // ---------------------------------------------------------------- the loop

  /** The last few bits of a code, as the loop gathers them for one digit. */
  ghost function LastBits(lng: real, lat: real, n: nat, bits: nat): int
    requires bits <= n
  {
    if bits == 0 then 0 else 2 * LastBits(lng, lat, n - 1, bits - 1) + Code(lng, lat, n) - 2 * Code(lng, lat, n - 1)
  }

  lemma {:induction false} LastBitsFit(lng: real, lat: real, n: nat, bits: nat)
    requires bits <= n
    ensures 0 <= LastBits(lng, lat, n, bits) < Pow2(bits)
    ensures LastBits(lng, lat, n, bits) ==
      Code(lng, lat, n) - Times(Pow2(bits) as real, Code(lng, lat, n - bits) as real).Floor
  {
    hide Code, Times;
    var z := Code(lng, lat, n - bits) as real;
    if bits == 0 {
      Units(z);
    } else {
      CodeGrows(lng, lat, n - 1);
      LastBitsFit(lng, lat, n - 1, bits - 1);
      Doubled(z, Pow2(bits - 1) as real);
      Commutes(z, Pow2(bits - 1) as real);
      Commutes(z, Pow2(bits) as real);
      IntegerProduct(Pow2(bits - 1), Code(lng, lat, n - bits));
    }
  }

  lemma IntegerProduct(x: nat, y: nat)
    ensures Times(x as real, y as real) == (x * y) as real
  {
  }

  lemma FiveBitsMakeADigit(lng: real, lat: real, n: nat)
    requires n >= 5
    ensures 0 <= LastBits(lng, lat, n, 5) < 32
    ensures Code(lng, lat, n) == 32 * Code(lng, lat, n - 5) + LastBits(lng, lat, n, 5)
  {
    hide Code;
    LastBitsFit(lng, lat, n, 5);
    assert Pow2(5) == 32;
    IntegerProduct(32, Code(lng, lat, n - 5));
  }

  lemma NoDigitsYet(lng: real, lat: real)
    ensures Base32(Code(lng, lat, 0), 0) == "" && LastBits(lng, lat, 0, 0) == 0 && LngBits(0) == LatBits(0) == 0
    ensures LngTurn(0)
    ensures forall precision: nat :: Hash(lat, lng, precision) == Base32(Code(lng, lat, 5 * precision), precision)
  {
  }

  /** Bit n is a bit of the longitude. */
  predicate LngTurn(n: nat) { n % 2 == 0 }

  lemma NextBit(lng: real, lat: real, n: nat, bits: nat)
    requires bits <= n
    ensures var u, w := Fraction(lng, -180.0, 360.0), Fraction(lat, -90.0, 180.0);
      LastBits(lng, lat, n + 1, bits + 1) == 2 * LastBits(lng, lat, n, bits) +
        if LngTurn(n) then Cell(u, LngBits(n) + 1) - 2 * Cell(u, LngBits(n))
        else Cell(w, LatBits(n) + 1) - 2 * Cell(w, LatBits(n))
    ensures LngTurn(n + 1) == !LngTurn(n)
    ensures LngTurn(n) ==> LngBits(n + 1) == LngBits(n) + 1 && LatBits(n + 1) == LatBits(n)
    ensures !LngTurn(n) ==> LngBits(n + 1) == LngBits(n) && LatBits(n + 1) == LatBits(n) + 1
  {
    hide Cell, Fraction, Code;
    CodeGrows(lng, lat, n);
  }

  lemma NextDigit(lng: real, lat: real, digits: nat)
    ensures var n := 5 * digits + 5;
      && 0 <= LastBits(lng, lat, n, 5) < |B32|
      && Base32(Code(lng, lat, n), digits + 1) ==
           Base32(Code(lng, lat, 5 * digits), digits) + [B32[LastBits(lng, lat, n, 5)]]
      && LastBits(lng, lat, n, 0) == 0
  {
    hide Code, Base32;
    FiveBitsMakeADigit(lng, lat, 5 * digits + 5);
    OneMoreDigit(Code(lng, lat, 5 * digits), LastBits(lng, lat, 5 * digits + 5, 5), digits);
  }

  lemma OneMoreDigit(z: nat, digit: nat, digits: nat)
    requires digit < 32
    ensures Base32(32 * z + digit, digits + 1) == Base32(z, digits) + [B32[digit]]
  {
    assert (32 * z + digit) / 32 == z && (32 * z + digit) % 32 == digit;
  }

  method Encode(lat: real, lng: real, precision: nat) returns (out: string)
    ensures out == Hash(lat, lng, precision)
  {
    hide *;
    NoDigitsYet(lng, lat);
    var latLo, latHi, lngLo, lngHi := -90.0, 90.0, -180.0, 180.0;
    var bits, ch, even := 0, 0, true;
    out := "";
    ghost var n := 0;
    HoldsAtStart(lat, -90.0, 180.0);
    HoldsAtStart(lng, -180.0, 360.0);
    while |out| < precision
      invariant 0 <= bits < 5 && |out| <= precision && n == 5 * |out| + bits && even == LngTurn(n)
      invariant |out| == precision ==> bits == 0
      invariant 0 <= ch == LastBits(lng, lat, n, bits)
      invariant out == Base32(Code(lng, lat, 5 * |out|), |out|)
      invariant Holds(lngLo, lngHi, lng, -180.0, 360.0, LngBits(n))
      invariant Holds(latLo, latHi, lat, -90.0, 180.0, LatBits(n))
      decreases 5 * precision - n
    {
      NextBit(lng, lat, n, bits);
      if even {
        var mid := (lngLo + lngHi) / 2.0;
        Bisect(lngLo, lngHi, lng, -180.0, 360.0, LngBits(n));
        if lng >= mid {
          ch, lngLo := ch * 2 + 1, mid;
        } else {
          ch, lngHi := ch * 2, mid;
        }
      } else {
        var mid := (latLo + latHi) / 2.0;
        Bisect(latLo, latHi, lat, -90.0, 180.0, LatBits(n));
        if lat >= mid {
          ch, latLo := ch * 2 + 1, mid;
        } else {
          ch, latHi := ch * 2, mid;
        }
      }
      even, bits, n := !even, bits + 1, n + 1;
      if bits == 5 {
        NextDigit(lng, lat, |out|);
        out := out + [B32[ch]];
        bits, ch := 0, 0;
      }
    }
  }

  /** A longer code is the shorter one and one more bit of longitude or latitude, in turn. */
  lemma CodeGrows(lng: real, lat: real, n: nat)
    ensures var u, w := Fraction(lng, -180.0, 360.0), Fraction(lat, -90.0, 180.0);
      Code(lng, lat, n + 1) == 2 * Code(lng, lat, n) +
        if n % 2 == 0 then Cell(u, LngBits(n) + 1) - 2 * Cell(u, LngBits(n))
        else Cell(w, LatBits(n) + 1) - 2 * Cell(w, LatBits(n))
    ensures Code(lng, lat, n + 1) / 2 == Code(lng, lat, n)
  {
    hide Times, Cell, Fraction;
    var u, w := Fraction(lng, -180.0, 360.0), Fraction(lat, -90.0, 180.0);
    NextCell(u, LngBits(n));
    NextCell(w, LatBits(n));
  }

  // ---------------------------------------------------------------- prefixes and sharing

  lemma {:induction false} CodeShrinks(lng: real, lat: real, n: nat)
    ensures Code(lng, lat, n + 5) / 32 == Code(lng, lat, n)
  {
    hide Code;
    CodeGrows(lng, lat, n);
    CodeGrows(lng, lat, n + 1);
    CodeGrows(lng, lat, n + 2);
    CodeGrows(lng, lat, n + 3);
    CodeGrows(lng, lat, n + 4);
  }

  /** A shorter hash of a point is a prefix of its longer ones. */
  lemma {:induction false} ShorterHashIsAPrefix(lat: real, lng: real, short: nat, long: nat)
    requires short <= long
    ensures Hash(lat, lng, long)[..short] == Hash(lat, lng, short)
    decreases long
  {
    hide Code;
    if short < long {
      CodeShrinks(lng, lat, 5 * (long - 1));
      assert Hash(lat, lng, long) == Hash(lat, lng, long - 1) + [B32[Code(lng, lat, 5 * long) % 32]];
      ShorterHashIsAPrefix(lat, lng, short, long - 1);
    }
  }

  lemma {:induction false} InterleaveFits(x: nat, y: nat, n: nat)
    ensures Interleave(x, y, n) < Pow2(n)
  {
    if n > 0 {
      InterleaveFits(if n % 2 == 1 then x / 2 else x, if n % 2 == 1 then y else y / 2, n - 1);
    }
  }

  lemma {:induction false} InterleaveIsInjective(x: nat, y: nat, x': nat, y': nat, n: nat)
    requires x < Pow2(LngBits(n)) && x' < Pow2(LngBits(n)) && y < Pow2(LatBits(n)) && y' < Pow2(LatBits(n))
    requires Interleave(x, y, n) == Interleave(x', y', n)
    ensures x == x' && y == y'
  {
    if n > 0 {
      if n % 2 == 1 {
        assert LngBits(n) == LngBits(n - 1) + 1 && LatBits(n) == LatBits(n - 1);
        InterleaveIsInjective(x / 2, y, x' / 2, y', n - 1);
      } else {
        assert LatBits(n) == LatBits(n - 1) + 1 && LngBits(n) == LngBits(n - 1);
        InterleaveIsInjective(x, y / 2, x', y' / 2, n - 1);
      }
    }
  }

  /** The digits are the numerals and the letters from b on without i, l and o, in this order. */
  lemma DigitIs(i: nat)
    requires i < 32 == |B32|
    ensures B32[i] as int ==
      if i < 10 then '0' as int + i
      else if i < 17 then 'b' as int + i - 10
      else if i < 19 then 'j' as int + i - 17
      else if i < 21 then 'm' as int + i - 19
      else 'p' as int + i - 21
  {
  }

  /** The 32 digits are all different: each has its own place in ASCII order. */
  lemma DigitsDiffer(i: nat, j: nat)
    requires i < j < 32
    ensures B32[i] < B32[j]
  {
  }

  lemma {:induction false} Base32IsInjective(z: nat, z': nat, digits: nat)
    requires z < Pow2(5 * digits) && z' < Pow2(5 * digits) && Base32(z, digits) == Base32(z', digits)
    ensures z == z'
  {
    if digits > 0 {
      var s, s' := Base32(z, digits), Base32(z', digits);
      assert s[..digits - 1] == Base32(z / 32, digits - 1) && s'[..digits - 1] == Base32(z' / 32, digits - 1);
      assert s[digits - 1] == B32[z % 32] && s'[digits - 1] == B32[z' % 32];
      if z % 32 < z' % 32 { DigitsDiffer(z % 32, z' % 32); }
      if z' % 32 < z % 32 { DigitsDiffer(z' % 32, z % 32); }
      ThirtyTwo(5 * (digits - 1));
      Base32IsInjective(z / 32, z' / 32, digits - 1);
    }
  }

  lemma ThirtyTwo(k: nat)
    ensures Pow2(k + 5) == 32 * Pow2(k)
  {
    assert Pow2(k + 5) == 2 * Pow2(k + 4) && Pow2(k + 4) == 2 * Pow2(k + 3) && Pow2(k + 3) == 2 * Pow2(k + 2);
    assert Pow2(k + 2) == 2 * Pow2(k + 1) && Pow2(k + 1) == 2 * Pow2(k);
  }

  function HashOfCell(x: nat, y: nat, precision: nat): string {
    Base32(Interleave(x, y, 5 * precision), precision)
  }

  lemma CellsHaveTheirOwnHash(x: nat, y: nat, x': nat, y': nat, p: nat)
    requires x < Pow2(LngBits(5 * p)) && x' < Pow2(LngBits(5 * p))
    requires y < Pow2(LatBits(5 * p)) && y' < Pow2(LatBits(5 * p))
    ensures HashOfCell(x, y, p) == HashOfCell(x', y', p) <==> x == x' && y == y'
  {
    hide Interleave, Base32;
    InterleaveFits(x, y, 5 * p);
    InterleaveFits(x', y', 5 * p);
    if HashOfCell(x, y, p) == HashOfCell(x', y', p) {
      Base32IsInjective(Interleave(x, y, 5 * p), Interleave(x', y', 5 * p), p);
      InterleaveIsInjective(x, y, x', y', 5 * p);
    }
  }

  /** Two points have the same hash exactly when they lie in the same cell. */
  lemma SameHashExactlyInSameCell(lat: real, lng: real, lat': real, lng': real, p: nat)
    ensures Hash(lat, lng, p) == Hash(lat', lng', p) <==>
      && Cell(Fraction(lng, -180.0, 360.0), LngBits(5 * p)) == Cell(Fraction(lng', -180.0, 360.0), LngBits(5 * p))
      && Cell(Fraction(lat, -90.0, 180.0), LatBits(5 * p)) == Cell(Fraction(lat', -90.0, 180.0), LatBits(5 * p))
  {
    hide Cell, Fraction;
    var x := Cell(Fraction(lng, -180.0, 360.0), LngBits(5 * p));
    var x' := Cell(Fraction(lng', -180.0, 360.0), LngBits(5 * p));
    var y := Cell(Fraction(lat, -90.0, 180.0), LatBits(5 * p));
    var y' := Cell(Fraction(lat', -90.0, 180.0), LatBits(5 * p));
    CellsHaveTheirOwnHash(x, y, x', y', p);
  }

  // ---------------------------------------------------------------- the grid

  /** The side of a cell, in degrees. */
  function Side(span: real, k: nat): real {
    Over(span, Pow2(k) as real)
  }

  lemma Cancels(x: real, y: real, s: real)
    requires s > 0.0 && Times(x, s) == Times(y, s)
    ensures x == y
  {
  }

  lemma SideIsPositive(span: real, k: nat)
    requires span > 0.0
    ensures Side(span, k) > 0.0 && Times(Side(span, k), Pow2(k) as real) == span
  {
    Quotient(span, Pow2(k) as real);
  }

  /** Moving a point by j sides moves its index by exactly j. */
  lemma StepMovesTheIndex(v: real, low: real, span: real, k: nat, j: int)
    requires span > 0.0
    ensures Index(Fraction(v + Times(j as real, Side(span, k)), low, span), k) == Index(Fraction(v, low, span), k) + j
  {
    hide Times, Over, Side, Fraction;
    var side, p := Side(span, k), Pow2(k) as real;
    var moved := v + Times(j as real, side);
    SideIsPositive(span, k);
    ScaledDistance(v, low, span, p, side);
    ScaledDistance(moved, low, span, p, side);
    var x, x' := Times(Fraction(v, low, span), p), Times(Fraction(moved, low, span), p);
    Distributes(x, j as real, side);
    Cancels(x', x + j as real, side);
  }

  /** The cell of the grid point that is i sides north and j sides east of the centre. */
  function GridHash(x: int, y: int, i: int, j: int, p: nat): string {
    HashOfCell(Clamped(x + j, LngBits(5 * p)), Clamped(y + i, LatBits(5 * p)), p)
  }

  predicate InRange(x: int, y: int, r: int, p: nat) {
    0 <= x - r && x + r < Pow2(LngBits(5 * p)) && 0 <= y - r && y + r < Pow2(LatBits(5 * p))
  }

  /** Row by row, (a, b) comes before (i, j). */
  predicate Earlier(a: int, b: int, i: int, j: int, r: int) {
    -r <= a <= r && -r <= b <= r && (a < i || (a == i && b < j))
  }

  ghost predicate Collected(cells: set<string>, x: int, y: int, i: int, j: int, r: int, p: nat) {
    && (forall h :: h in cells ==> exists a, b :: Earlier(a, b, i, j, r) && h == GridHash(x, y, a, b, p))
    && (forall a, b :: Earlier(a, b, i, j, r) ==> GridHash(x, y, a, b, p) in cells)
  }

  /** The point at (i, j) is clamped into the cell of the point before it in its row or its column. */
  predicate Clamps(x: int, y: int, i: int, j: int, r: int, p: nat) {
    || (j > -r && (x + j >= Pow2(LngBits(5 * p)) || x + j - 1 < 0))
    || (i > -r && (y + i >= Pow2(LatBits(5 * p)) || y + i - 1 < 0))
  }

  ghost predicate SomeClamped(x: int, y: int, i: int, j: int, r: int, p: nat) {
    exists a, b :: Earlier(a, b, i, j, r) && Clamps(x, y, a, b, r, p)
  }

  lemma OutOfRangeClamps(x: int, y: int, r: int, p: nat)
    requires r > 0 && !InRange(x, y, r, p)
    ensures SomeClamped(x, y, r + 1, -r, r, p)
  {
    assert Earlier(r, r, r + 1, -r, r) && Earlier(-r + 1, -r + 1, r + 1, -r, r);
    assert Clamps(x, y, r, r, r, p) || Clamps(x, y, -r + 1, -r + 1, r, p);
  }

  lemma InRangeCellsDiffer(x: int, y: int, i: int, j: int, a: int, b: int, r: int, p: nat)
    requires InRange(x, y, r, p) && -r <= i <= r && -r <= j <= r && -r <= a <= r && -r <= b <= r
    requires a != i || b != j
    ensures GridHash(x, y, i, j, p) != GridHash(x, y, a, b, p)
  {
    hide HashOfCell, Pow2;
    CellsHaveTheirOwnHash(x + j, y + i, x + b, y + a, p);
  }

  lemma InRangeIsNew(x: int, y: int, i: int, j: int, r: int, p: nat, cells: set<string>)
    requires Collected(cells, x, y, i, j, r, p) && -r <= i <= r && -r <= j <= r && InRange(x, y, r, p)
    ensures GridHash(x, y, i, j, p) !in cells
  {
    hide GridHash, InRange;
    forall a, b | Earlier(a, b, i, j, r)
      ensures GridHash(x, y, i, j, p) != GridHash(x, y, a, b, p)
    {
      InRangeCellsDiffer(x, y, i, j, a, b, r, p);
    }
  }

  lemma ClampedIsItsNeighbour(x: int, y: int, i: int, j: int, r: int, p: nat)
    requires Clamps(x, y, i, j, r, p)
    ensures (j > -r && GridHash(x, y, i, j, p) == GridHash(x, y, i, j - 1, p))
         || (i > -r && GridHash(x, y, i, j, p) == GridHash(x, y, i - 1, j, p))
  {
    hide HashOfCell, Pow2;
  }

  lemma ClampedRepeats(x: int, y: int, i: int, j: int, r: int, p: nat, cells: set<string>)
    requires Collected(cells, x, y, i, j, r, p) && -r <= i <= r && -r <= j <= r && Clamps(x, y, i, j, r, p)
    ensures GridHash(x, y, i, j, p) in cells
  {
    hide GridHash, Clamps;
    ClampedIsItsNeighbour(x, y, i, j, r, p);
    assert j > -r ==> Earlier(i, j - 1, i, j, r);
    assert i > -r ==> Earlier(i - 1, j, i, j, r);
  }

  lemma ClampedUpToHere(x: int, y: int, i: int, j: int, r: int, p: nat)
    requires SomeClamped(x, y, i, j + 1, r, p)
    ensures SomeClamped(x, y, i, j, r, p) || Clamps(x, y, i, j, r, p)
  {
    hide Clamps;
    var a, b :| Earlier(a, b, i, j + 1, r) && Clamps(x, y, a, b, r, p);
    assert Earlier(a, b, i, j, r) || (a == i && b == j);
  }

  /** Whether the cell of the point at (i, j) is already there. */
  lemma RepeatsWhenClamped(x: int, y: int, i: int, j: int, r: int, p: nat, cells: set<string>)
    requires Collected(cells, x, y, i, j, r, p) && -r <= i <= r && -r <= j <= r
    ensures InRange(x, y, r, p) ==> GridHash(x, y, i, j, p) !in cells
    ensures Clamps(x, y, i, j, r, p) ==> GridHash(x, y, i, j, p) in cells
    ensures SomeClamped(x, y, i, j + 1, r, p) ==> SomeClamped(x, y, i, j, r, p) || Clamps(x, y, i, j, r, p)
  {
    hide *;
    if InRange(x, y, r, p) { InRangeIsNew(x, y, i, j, r, p, cells); }
    if Clamps(x, y, i, j, r, p) { ClampedRepeats(x, y, i, j, r, p, cells); }
    if SomeClamped(x, y, i, j + 1, r, p) { ClampedUpToHere(x, y, i, j, r, p); }
  }

  function LngIndex(lng: real, p: nat): int { Index(Fraction(lng, -180.0, 360.0), LngBits(5 * p)) }

  function LatIndex(lat: real, p: nat): int { Index(Fraction(lat, -90.0, 180.0), LatBits(5 * p)) }

  ghost function GridCells(lat: real, lng: real, p: nat, r: int): set<string> {
    set i, j | -r <= i <= r && -r <= j <= r :: GridHash(LngIndex(lng, p), LatIndex(lat, p), i, j, p)
  }

  /** The cells around the centre's cell, one step apart: (2r+1)^2 distinct ones exactly when every
      stepped point stays in range (a single cell always is one). The list is returned as a set. */
  method Grid(lat: real, lng: real, p: nat, radius: nat) returns (cells: set<string>)
    ensures cells == GridCells(lat, lng, p, radius)
    ensures |cells| <= (2 * radius + 1) * (2 * radius + 1) && (radius == 0 ==> |cells| == 1)
    ensures radius > 0 ==>
      (|cells| == (2 * radius + 1) * (2 * radius + 1) <==> InRange(LngIndex(lng, p), LatIndex(lat, p), radius, p))
  {
    hide *;
    CollectNone(LngIndex(lng, p), LatIndex(lat, p), radius, p);
    var r: int := radius;
    var lngSpan, latSpan := Side(360.0, LngBits(5 * p)), Side(180.0, LatBits(5 * p));
    ghost var x, y := LngIndex(lng, p), LatIndex(lat, p);
    var side := 2 * r + 1;
    cells := {};
    ghost var repeats := 0;
    for i := -r to r + 1
      invariant Collected(cells, x, y, i, -r, r, p)
      invariant |cells| + repeats == (i + r) * side && repeats >= 0
      invariant InRange(x, y, r, p) || r == 0 ==> repeats == 0
      invariant SomeClamped(x, y, i, -r, r, p) ==> repeats > 0
    {
      ghost var rows := (i + r) * side;
      for j := -r to r + 1
        invariant Collected(cells, x, y, i, j, r, p)
        invariant |cells| + repeats == rows + (j + r) && repeats >= 0
        invariant InRange(x, y, r, p) || r == 0 ==> repeats == 0
        invariant SomeClamped(x, y, i, j, r, p) ==> repeats > 0
      {
        var h := Encode(lat + Times(i as real, latSpan), lng + Times(j as real, lngSpan), p);
        EncodedIsGridHash(lat, lng, i, j, p);
        RepeatsWhenClamped(x, y, i, j, r, p, cells);
        CollectOne(cells, x, y, i, j, r, p);
        AddOne(cells, h);
        if h in cells {
          repeats := repeats + 1;
        }
        cells := cells + {h};
      }
      RowDone(cells, x, y, i, r, p);
      OneMoreRow(i + r, side);
    }
    if r > 0 && !InRange(x, y, r, p) {
      OutOfRangeClamps(x, y, r, p);
    }
    CollectedAll(cells, lat, lng, r, p);
  }

  /** Around a centre on the date line the grid is short of cells, in any precision. */
  lemma GridAtTheDateLineIsShort(lat: real, p: nat)
    ensures LngIndex(180.0, p) == Pow2(LngBits(5 * p)) && !InRange(LngIndex(180.0, p), LatIndex(lat, p), 1, p)
  {
    hide Pow2;
    assert Fraction(180.0, -180.0, 360.0) == 1.0;
    Units(Pow2(LngBits(5 * p)) as real);
  }

  lemma EncodedIsGridHash(lat: real, lng: real, i: int, j: int, p: nat)
    ensures Hash(lat + Times(i as real, Side(180.0, LatBits(5 * p))),
                 lng + Times(j as real, Side(360.0, LngBits(5 * p))), p)
         == GridHash(LngIndex(lng, p), LatIndex(lat, p), i, j, p)
  {
    hide Times, Fraction, Index, Side;
    StepMovesTheIndex(lat, -90.0, 180.0, LatBits(5 * p), i);
    StepMovesTheIndex(lng, -180.0, 360.0, LngBits(5 * p), j);
  }

  lemma CollectOne(cells: set<string>, x: int, y: int, i: int, j: int, r: int, p: nat)
    requires Collected(cells, x, y, i, j, r, p) && -r <= i <= r && -r <= j <= r
    ensures Collected(cells + {GridHash(x, y, i, j, p)}, x, y, i, j + 1, r, p)
  {
  }

  lemma CollectedAll(cells: set<string>, lat: real, lng: real, r: int, p: nat)
    requires Collected(cells, LngIndex(lng, p), LatIndex(lat, p), r + 1, -r, r, p)
    ensures cells == GridCells(lat, lng, p, r)
  {
  }

  lemma OneMoreRow(i: int, side: int)
    ensures (i + 1) * side == i * side + side
  {
  }

  lemma AddOne(cells: set<string>, h: string)
    ensures |cells + {h}| == |cells| + if h in cells then 0 else 1
  {
    if h in cells { assert cells + {h} == cells; }
  }

  lemma CollectNone(x: int, y: int, r: int, p: nat)
    ensures Collected({}, x, y, -r, -r, r, p) && !SomeClamped(x, y, -r, -r, r, p)
  {
  }

  lemma RowDone(cells: set<string>, x: int, y: int, i: int, r: int, p: nat)
    requires Collected(cells, x, y, i, r + 1, r, p)
    ensures Collected(cells, x, y, i + 1, -r, r, p)
    ensures SomeClamped(x, y, i + 1, -r, r, p) ==> SomeClamped(x, y, i, r + 1, r, p)
  {
  }
}
