/**
  UUIDv7 keys (section 5.7 of RFC 9562): 48 bits of milliseconds, the version, 12 random bits, the
  variant, 62 random bits. Filters on the key against filters on the time it was made from.
*/
module EventKeys {
  import opened BinaryPowers
  import opened Reals

  /** The bits that are set in either number. */
  function BitOr(a: nat, b: nat): nat {
    if a == 0 then b
    else if b == 0 then a
    else 2 * BitOr(a / 2, b / 2) + if a % 2 == 1 || b % 2 == 1 then 1 else 0
  }

  function Left(x: nat, k: nat): nat { x * Pow2(k) }

  lemma LeftDoubles(x: nat, k: nat)
    ensures Left(x, 0) == x && Left(x, k + 1) == 2 * Left(x, k)
  {
    DoublePow(x, k);
  }

  /** A field above k bits and a field of k bits do not overlap: joining them is adding them. */
  lemma {:induction false} FieldsAdd(high: nat, low: nat, k: nat)
    requires low < Pow2(k)
    ensures BitOr(Left(high, k), low) == Left(high, k) + low
  {
    if k == 0 {
      assert low == 0;
    } else {
      hide *;
      LeftDoubles(high, k - 1);
      HalfFits(low, k);
      FieldsAdd(high, low / 2, k - 1);
      LastBit(Left(high, k - 1), low);
    }
  }

  lemma HalfFits(low: nat, k: nat)
    requires k > 0 && low < Pow2(k)
    ensures low / 2 < Pow2(k - 1)
  {
  }

  lemma LastBit(half: nat, low: nat)
    ensures BitOr(2 * half, low) == 2 * BitOr(half, low / 2) + low % 2
  {
    assert (2 * half) / 2 == half && (2 * half) % 2 == 0;
  }

  const MS_RANGE := 0x1_0000_0000_0000       // 2^48
  const RANDOM_RANGE := 0x400_0000_0000_0000_0000  // 2^74
  const AFTER_MS := 0x1_0000_0000_0000_0000_0000   // 2^80: what follows the milliseconds

  lemma Powers()
    ensures Pow2(48) == MS_RANGE && Pow2(80) == AFTER_MS && Pow2(74) == RANDOM_RANGE
    ensures Pow2(62) == 0x4000_0000_0000_0000 && Pow2(64) == 0x1_0000_0000_0000_0000
    ensures Pow2(76) == 0x1000_0000_0000_0000_0000
    ensures Pow2(12) == 4096
  {
    SmallPowers();
    hide Pow2;
    PowAdds(12, 12);
    PowAdds(12, 24);
    PowAdds(12, 36);
    PowAdds(12, 2);
    PowAdds(48, 14);
    PowAdds(62, 2);
    PowAdds(62, 12);
    PowAdds(64, 12);
    PowAdds(76, 4);
  }

  lemma SmallPowers()
    ensures Pow2(2) == 4 && Pow2(4) == 16 && Pow2(12) == 4096
  {
  }

  // ---------------------------------------------------------------- making keys

  /** 48 bits of time, the version 7, the twelve high random bits, the variant 10 and the other 62. */
  function Uuid7At(ms: int, rand: nat): nat {
    var time: nat := ms % MS_RANGE;
    var high, low := rand / 0x4000_0000_0000_0000, rand % 0x4000_0000_0000_0000;
    BitOr(BitOr(BitOr(BitOr(Left(time, 80), Left(7, 76)), Left(high, 64)), Left(2, 62)), low)
  }

  /** The millisecond a key carries. */
  function Milliseconds(key: nat): nat {
    key / AFTER_MS
  }

  /** What follows the milliseconds in the smallest key of any of them. */
  const FLOOR := 7 * 0x1000_0000_0000_0000_0000 + 2 * 0x4000_0000_0000_0000

  lemma FieldOfKey(high: nat, low: nat, k: nat, p: nat)
    requires p == Pow2(k) && low < p
    ensures BitOr(high * p, low) == high * p + low
  {
    FieldsAdd(high, low, k);
  }

  /** The key is its milliseconds followed by the version, the variant and the random bits. */
  lemma KeyIsItsFields(ms: int, rand: nat)
    requires rand < RANDOM_RANGE
    ensures var high := rand / 0x4000_0000_0000_0000; var low := rand % 0x4000_0000_0000_0000;
      && high < 4096
      && Uuid7At(ms, rand) == (ms % MS_RANGE) * AFTER_MS + FLOOR + high * 0x1_0000_0000_0000_0000 + low
  {
    hide Pow2, BitOr;
    Powers();
    var m := ms % MS_RANGE;
    var high, low := rand / 0x4000_0000_0000_0000, rand % 0x4000_0000_0000_0000;
    FieldOfKey(m, 7 * 0x1000_0000_0000_0000_0000, 80, AFTER_MS);
    var a := m * 16 + 7;
    FieldOfKey(a, high * 0x1_0000_0000_0000_0000, 76, 0x1000_0000_0000_0000_0000);
    var b := a * 4096 + high;
    FieldOfKey(b, 2 * 0x4000_0000_0000_0000, 64, 0x1_0000_0000_0000_0000);
    var c := b * 4 + 2;
    FieldOfKey(c, low, 62, 0x4000_0000_0000_0000);
  }

  /** The random part never reaches the milliseconds. */
  lemma KeyStaysInItsMillisecond(ms: nat, rand: nat)
    requires ms < MS_RANGE && rand < RANDOM_RANGE
    ensures ms * AFTER_MS + FLOOR <= Uuid7At(ms, rand) < ms * AFTER_MS + AFTER_MS
  {
    hide Uuid7At;
    KeyIsItsFields(ms, rand);
  }

  lemma KeyCarriesItsMilliseconds(ms: int, rand: nat)
    requires rand < RANDOM_RANGE
    ensures Milliseconds(Uuid7At(ms, rand)) == ms % MS_RANGE
  {
    hide Uuid7At;
    KeyStaysInItsMillisecond(ms % MS_RANGE, rand);
    SameKeyAfterMasking(ms, rand);
  }

  lemma SameKeyAfterMasking(ms: int, rand: nat)
    ensures Uuid7At(ms % MS_RANGE, rand) == Uuid7At(ms, rand)
  {
    hide BitOr, Left;
  }

  // ---------------------------------------------------------------- the boundary

  const HEX := "0123456789abcdef"

  /** `f"{n:x}"` for n > 0, and the empty string for 0. */
  function Hex(n: nat): string {
    if n == 0 then "" else Hex(n / 16) + [HEX[n % 16]]
  }

  function Zeros(k: nat): (z: string)
    ensures |z| == k && forall i :: 0 <= i < k ==> z[i] == '0'
  {
    seq(k, _ => '0')
  }

  /** `f"{n:012x}"`. */
  function Padded(n: nat): (h: string)
    ensures |h| >= 12
  {
    if |Hex(n)| < 12 then Zeros(12 - |Hex(n)|) + Hex(n) else Hex(n)
  }

  /** The boundary of a moment, t in seconds since 1970 and at or after it. */
  function Boundary(t: real): string
    requires t >= 0.0
  {
    var h := Padded((t * 1000.0).Floor);
    h[..8] + "-" + h[8..12] + "-7000-8000-000000000000"
  }

  function Digit(c: char): nat {
    if '0' <= c <= '9' then c as int - '0' as int else if 'a' <= c <= 'f' then c as int - 'a' as int + 10 else 0
  }

  /** A UUID's text as its 128-bit number: the dashes do not count. */
  function Parsed(s: string): nat {
    if s == "" then 0
    else if s[|s| - 1] == '-' then Parsed(s[..|s| - 1])
    else 16 * Parsed(s[..|s| - 1]) + Digit(s[|s| - 1])
  }

  lemma {:induction false} ParsedAppend(s: string, c: char)
    ensures Parsed(s + [c]) == if c == '-' then Parsed(s) else 16 * Parsed(s) + Digit(c)
  {
    assert (s + [c])[..|s|] == s;
  }

  lemma {:induction false} ParsedHex(n: nat)
    ensures Parsed(Hex(n)) == n
  {
    if n > 0 {
      ParsedHex(n / 16);
      ParsedAppend(Hex(n / 16), HEX[n % 16]);
      DigitOfHex(n % 16);
    }
  }

  lemma DigitOfHex(d: nat)
    requires d < 16
    ensures Digit(HEX[d]) == d && HEX[d] != '-'
  {
  }

  lemma {:induction false} ParsedZeros(k: nat, s: string)
    ensures Parsed(Zeros(k) + s) == Parsed(s)
  {
    if s == "" {
      assert Zeros(k) + s == Zeros(k);
      if k > 0 {
        assert Zeros(k) == Zeros(k - 1) + "0";
        ParsedZeros(k - 1, "");
        assert Zeros(k - 1) + "" == Zeros(k - 1);
        ParsedAppend(Zeros(k - 1), '0');
      }
    } else {
      var front, c := s[..|s| - 1], s[|s| - 1];
      assert Zeros(k) + s == (Zeros(k) + front) + [c] && s == front + [c];
      ParsedAppend(Zeros(k) + front, c);
      ParsedAppend(front, c);
      ParsedZeros(k, front);
    }
  }

  /** Twelve hexadecimal digits are enough exactly for numbers below 2^48. */
  lemma {:induction false} HexLength(n: nat, k: nat)
    ensures |Hex(n)| <= k <==> n < Pow2(4 * k)
  {
    if k == 0 {
    } else {
      assert Pow2(4 * k) == 16 * Pow2(4 * (k - 1)) by {
        PowAdds(4 * (k - 1), 4);
        assert Pow2(4) == 16;
      }
      if n > 0 {
        HexLength(n / 16, k - 1);
      }
    }
  }

  /** The first twelve digits: the number itself below 2^48, its leading digits beyond. */
  lemma {:induction false} LeadingDigits(n: nat)
    ensures Parsed(Padded(n)[..12]) < MS_RANGE
    ensures n < MS_RANGE ==> Parsed(Padded(n)[..12]) == n
    decreases n
  {
    hide Pow2, Parsed;
    Powers();
    HexLength(n, 12);
    if |Hex(n)| <= 12 {
      hide Hex;
      ParsedHex(n);
      ParsedZeros(12 - |Hex(n)|, Hex(n));
      assert Padded(n)[..12] == Padded(n);
      if |Hex(n)| == 12 { assert Zeros(0) + Hex(n) == Hex(n); }
    } else {
      LeadingDigits(n / 16);
      assert Hex(n)[..12] == Hex(n / 16)[..12];
    }
  }

  lemma {:induction false} ParsedTail(s: string)
    ensures Parsed(s + "-7000-8000-000000000000") == Parsed(s) * AFTER_MS + FLOOR
  {
    hide Parsed;
    ParsedGroup(s, "-7000");
    ParsedGroup(s + "-7000", "-8000");
    var u := s + "-7000" + "-8000";
    ParsedGroup(u, "-0000");
    PlainGroup(u + "-0000", "0000");
    PlainGroup(u + "-0000" + "0000", "0000");
    assert s + "-7000-8000-000000000000" == u + "-0000" + "0000" + "0000";
  }

  lemma ParsedGroup(s: string, g: string)
    requires |g| == 5 && g[0] == '-' && forall i :: 1 <= i < 5 ==> g[i] != '-'
    ensures Parsed(s + g) == 65536 * Parsed(s) + 4096 * Digit(g[1]) + 256 * Digit(g[2]) + 16 * Digit(g[3]) + Digit(g[4])
  {
    hide Parsed;
    ParsedAppend(s, g[0]);
    PlainGroup(s + [g[0]], g[1..]);
    assert s + g == s + [g[0]] + g[1..];
  }

  lemma PlainGroup(s: string, g: string)
    requires |g| == 4 && forall i :: 0 <= i < 4 ==> g[i] != '-'
    ensures Parsed(s + g) == 65536 * Parsed(s) + 4096 * Digit(g[0]) + 256 * Digit(g[1]) + 16 * Digit(g[2]) + Digit(g[3])
  {
    hide Parsed;
    ParsedAppend(s, g[0]);
    ParsedAppend(s + [g[0]], g[1]);
    ParsedAppend(s + [g[0]] + [g[1]], g[2]);
    ParsedAppend(s + [g[0]] + [g[1]] + [g[2]], g[3]);
    assert s + g == s + [g[0]] + [g[1]] + [g[2]] + [g[3]];
  }

  /** The dash inside the first twelve digits does not count either. */
  lemma {:induction false} ParsedDash(a: string, b: string)
    ensures Parsed(a + "-" + b) == Parsed(a + b)
  {
    if b == "" {
      assert a + "-" + b == a + "-" && a + b == a;
      ParsedAppend(a, '-');
    } else {
      var front, c := b[..|b| - 1], b[|b| - 1];
      assert a + "-" + b == (a + "-" + front) + [c] && a + b == (a + front) + [c];
      ParsedAppend(a + "-" + front, c);
      ParsedAppend(a + front, c);
      ParsedDash(a, front);
    }
  }

  /** The boundary is the smallest key of its leading twelve digits. */
  lemma BoundaryIsASmallestKey(t: real)
    requires t >= 0.0
    ensures Parsed(Boundary(t)) == Parsed(Padded((t * 1000.0).Floor)[..12]) * AFTER_MS + FLOOR
  {
    var h := Padded((t * 1000.0).Floor);
    ParsedTail(h[..8] + "-" + h[8..12]);
    ParsedDash(h[..8], h[8..12]);
    assert h[..8] + h[8..12] == h[..12];
    assert Boundary(t) == h[..8] + "-" + h[8..12] + "-7000-8000-000000000000";
  }

  // ---------------------------------------------------------------- filters

  /** Filtering on the key is filtering on the time, for every key, exactly when the moment fits the
      48 bits a key has for it; in the year 10889 it stops fitting. */
  lemma KeyFilterIsTimeFilter(t: real)
    requires t >= 0.0
    ensures (forall ms: nat, rand: nat :: ms < MS_RANGE && rand < RANDOM_RANGE ==>
              (Uuid7At(ms, rand) >= Parsed(Boundary(t)) <==> ms >= (t * 1000.0).Floor))
      <==> (t * 1000.0).Floor < MS_RANGE
  {
    var moment := (t * 1000.0).Floor;
    BoundaryIsASmallestKey(t);
    LeadingDigits(moment);
    var shown := Parsed(Padded(moment)[..12]);
    forall ms: nat, rand: nat | ms < MS_RANGE && rand < RANDOM_RANGE
      ensures Uuid7At(ms, rand) >= Parsed(Boundary(t)) <==> ms >= shown
    {
      KeyFilter(ms, rand, shown);
    }
    if moment >= MS_RANGE {
      var last: nat := MS_RANGE - 1;
      assert last >= shown && !(last >= moment);
      assert Uuid7At(last, 0) >= Parsed(Boundary(t));
    }
  }

  /** At the first moment that does not fit, a key from the millisecond before it passes the filter. */
  lemma FilterPastTheLastMillisecond(rand: nat)
    requires rand < RANDOM_RANGE
    ensures (281474976710.656 * 1000.0).Floor == MS_RANGE
    ensures Uuid7At(MS_RANGE - 1, rand) >= Parsed(Boundary(281474976710.656))
  {
    hide Uuid7At, Parsed, Padded, Boundary;
    var t := 281474976710.656;
    assert (t * 1000.0).Floor == MS_RANGE;
    BoundaryIsASmallestKey(t);
    LeadingDigits(MS_RANGE);
    KeyFilter(MS_RANGE - 1, rand, Parsed(Padded(MS_RANGE)[..12]));
  }

  lemma KeyFilter(ms: nat, rand: nat, shown: nat)
    requires ms < MS_RANGE && rand < RANDOM_RANGE
    ensures Uuid7At(ms, rand) >= shown * AFTER_MS + FLOOR <==> ms >= shown
  {
    hide Uuid7At;
    KeyStaysInItsMillisecond(ms, rand);
  }

  /** The window of the moving average: from `since` up to the start of the current bucket, which is
      itself a whole number of milliseconds; a bucket still filling is never in it. */
  lemma WindowHoldsWholeBuckets(since: real, now: real, bucket: nat, ms: nat, rand: nat)
    requires 0.0 <= since <= now && bucket > 0 && (now * 1000.0).Floor < MS_RANGE
    requires ms < MS_RANGE && rand < RANDOM_RANGE
    ensures var current := (Over(now * 1000.0, bucket as real).Floor * bucket) as real / 1000.0;
      && current >= 0.0
      && (Parsed(Boundary(since)) <= Uuid7At(ms, rand) < Parsed(Boundary(current)) <==>
          (since * 1000.0).Floor <= ms && ms / bucket < (now * 1000.0).Floor / bucket)
  {
    var n := (now * 1000.0).Floor;
    var whole := Over(now * 1000.0, bucket as real).Floor;
    FloorOfQuotient(now * 1000.0, bucket);
    assert whole == n / bucket;
    var start := whole * bucket;
    assert 0 <= start <= n;
    var current := start as real / 1000.0;
    assert (current * 1000.0).Floor == start;
    KeyFilterIsTimeFilter(since);
    KeyFilterIsTimeFilter(current);
    assert Uuid7At(ms, rand) >= Parsed(Boundary(since)) <==> ms >= (since * 1000.0).Floor;
    assert Uuid7At(ms, rand) >= Parsed(Boundary(current)) <==> ms >= start;
    BeforeBucket(ms, n, bucket);
  }

  lemma FloorOfQuotient(x: real, d: nat)
    requires x >= 0.0 && d > 0
    ensures Over(x, d as real).Floor == x.Floor / d >= 0
  {
    hide Times, Over;
    var q := x.Floor / d;
    var y, r := Over(x, d as real), d as real;
    Quotient(x, r);
    IntegerProduct(q, d);
    IntegerProduct(q + 1, d);
    if y < q as real { KeepsOrder(y, q as real, r); }
    if y >= (q + 1) as real { KeepsOrder((q + 1) as real, y, r); }
  }

  lemma IntegerProduct(q: int, d: nat)
    ensures Times(q as real, d as real) == (q * d) as real
    ensures d > 0 ==> forall n: nat :: n / d == q ==> q * d <= n < (q + 1) * d
  {
  }

  lemma BeforeBucket(ms: nat, n: nat, bucket: nat)
    requires bucket > 0
    ensures ms < n / bucket * bucket <==> ms / bucket < n / bucket
  {
    var a, b := ms / bucket, n / bucket;
    if a < b { assert (a + 1) * bucket <= b * bucket; }
    if a >= b { assert a * bucket >= b * bucket; }
  }

  /** The newest reading is the largest key: extracting its time is the same as taking the largest of
      the extracted times. */
  method Newest(keys: seq<nat>) returns (top: nat)
    requires keys != []
    ensures top in keys && forall k :: k in keys ==> k <= top && Milliseconds(k) <= Milliseconds(top)
  {
    top := keys[0];
    for i := 1 to |keys|
      invariant top in keys && forall j :: 0 <= j < i ==> keys[j] <= top
    {
      if keys[i] > top {
        top := keys[i];
      }
    }
  }
}
