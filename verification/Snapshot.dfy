/**
  Absorbing a full snapshot as a diff: rows that are new or differ are written, live rows the snapshot
  lacks get a tombstone, everything else is left alone. One table is the map from its key to its row.
*/
module Snapshot {
  import opened Wrappers

  type Time = int

  datatype Row<V> = Row(values: V, updatedAt: Time, deletedAt: Option<Time>)

  type Table<K, V> = map<K, Row<V>>

  /** What the upsert writes: the snapshot's rows that are new, differ or were buried. */
  function Upserted<K, V(==)>(t: Table<K, V>, s: map<K, V>, now: Time): Table<K, V> {
    map k | k in s && !(k in t && t[k].values == s[k] && t[k].deletedAt == None) :: Row(s[k], now, None)
  }

  /** What the soft-delete writes: the live rows the snapshot lacks. */
  function Buried<K, V>(t: Table<K, V>, s: map<K, V>, now: Time): Table<K, V> {
    map k | k in t && t[k].deletedAt == None && k !in s :: t[k].(updatedAt := now, deletedAt := Some(now))
  }

  /** Both parts read the table as it was before the statement. */
  function Reconcile<K, V(==)>(t: Table<K, V>, s: map<K, V>, now: Time): Table<K, V> {
    t + Upserted(t, s, now) + Buried(t, s, now)
  }

  datatype Counts = Counts(inserted: nat, updated: nat, deleted: nat)

  function Report<K, V(==)>(t: Table<K, V>, s: map<K, V>, now: Time): Counts {
    var up := Upserted(t, s, now).Keys;
    Counts(|up - t.Keys|, |up * t.Keys|, |Buried(t, s, now).Keys|)
  }

  /** What a reader of the table sees. */
  function Live<K, V>(t: Table<K, V>): map<K, V> {
    map k | k in t && t[k].deletedAt == None :: t[k].values
  }

  predicate Agree<K, V(==)>(a: map<K, V>, b: map<K, V>, k: K) {
    (k in a) == (k in b) && (k in a ==> a[k] == b[k])
  }

  /** The keys whose rows differ between two states of a table: what change capture carries. */
  function Changed<K, V(==)>(before: Table<K, V>, after: Table<K, V>): set<K> {
    set k | k in before.Keys + after.Keys && !(k in before && k in after && before[k] == after[k])
  }

  /** Afterwards readers see the snapshot, revivals included, and no key has disappeared. */
  lemma ReadersSeeTheSnapshot<K, V>(t: Table<K, V>, s: map<K, V>, now: Time)
    ensures Live(Reconcile(t, s, now)) == s
    ensures Reconcile(t, s, now).Keys == t.Keys + s.Keys
  {
    assert Live(Reconcile(t, s, now)).Keys == s.Keys;
  }

  /** A row changes exactly when readers saw something else under its key; then it is stamped now. */
  lemma ChangesExactlyTheDifference<K, V>(t: Table<K, V>, s: map<K, V>, now: Time)
    ensures forall k :: k in Changed(t, Reconcile(t, s, now)) <==> k in t.Keys + s.Keys && !Agree(Live(t), s, k)
    ensures forall k :: k in Changed(t, Reconcile(t, s, now)) ==> Reconcile(t, s, now)[k].updatedAt == now
    ensures Changed(t, Reconcile(t, s, now)) == Upserted(t, s, now).Keys + Buried(t, s, now).Keys
  {
  }

  /** Row by row: a snapshot row readers saw differently or not at all is written and stamped, a live row
      the snapshot lacks keeps its values and gets a tombstone, any other row stays as it was. */
  lemma EachRowAfterwards<K, V>(t: Table<K, V>, s: map<K, V>, now: Time, k: K)
    requires k in t || k in s
    ensures k in Reconcile(t, s, now)
    ensures k in s ==>
      var shown := k in t && t[k].deletedAt == None && t[k].values == s[k];
      Reconcile(t, s, now)[k] == if shown then t[k] else Row(s[k], now, None)
    ensures k !in s ==>
      Reconcile(t, s, now)[k] == if t[k].deletedAt == None then Row(t[k].values, now, Some(now)) else t[k]
  {
  }

  /** No other way of making readers see the snapshot without dropping rows touches fewer of them. */
  lemma NoSmallerDiff<K, V>(t: Table<K, V>, s: map<K, V>, now: Time, other: Table<K, V>)
    requires Live(other) == s && t.Keys <= other.Keys
    ensures Changed(t, Reconcile(t, s, now)) <= Changed(t, other)
  {
  }

  lemma PartsAreDisjoint<K, V>(t: Table<K, V>, s: map<K, V>, now: Time)
    ensures Upserted(t, s, now).Keys !! Buried(t, s, now).Keys
    ensures Upserted(t, s, now).Keys - t.Keys == s.Keys - t.Keys
    ensures Buried(t, s, now).Keys == Live(t).Keys - s.Keys
  {
  }

  lemma CountInParts<K>(up: set<K>, keys: set<K>, gone: set<K>)
    requires up !! gone
    ensures |up - keys| + |up * keys| + |gone| == |up + gone|
  {
    assert up == (up - keys) + (up * keys);
  }

  /** The report counts each changed row once. */
  lemma ReportCountsTheChanges<K, V>(t: Table<K, V>, s: map<K, V>, now: Time)
    ensures var c := Report(t, s, now);
      c.inserted + c.updated + c.deleted == |Changed(t, Reconcile(t, s, now))|
    ensures Report(t, s, now).inserted == |s.Keys - t.Keys| && Report(t, s, now).deleted == |Live(t).Keys - s.Keys|
  {
    hide Upserted, Buried, Reconcile, Changed, Live, Agree;
    ChangedIsUpsertedOrBuried(t, s, now);
    PartsAreDisjoint(t, s, now);
    CountInParts(Upserted(t, s, now).Keys, t.Keys, Buried(t, s, now).Keys);
  }

  lemma ChangedIsUpsertedOrBuried<K, V>(t: Table<K, V>, s: map<K, V>, now: Time)
    ensures Changed(t, Reconcile(t, s, now)) == Upserted(t, s, now).Keys + Buried(t, s, now).Keys
  {
    hide *;
    ChangesExactlyTheDifference(t, s, now);
  }

  lemma NothingLeftToDo<K, V>(t: Table<K, V>, s: map<K, V>, now: Time)
    requires Live(t) == s
    ensures Upserted(t, s, now) == map[] && Buried(t, s, now) == map[]
  {
  }

  /** The same snapshot again changes nothing and reports nothing, whatever the time. */
  lemma AgainChangesNothing<K, V>(t: Table<K, V>, s: map<K, V>, now: Time, later: Time)
    ensures Reconcile(Reconcile(t, s, now), s, later) == Reconcile(t, s, now)
    ensures Report(Reconcile(t, s, now), s, later) == Counts(0, 0, 0)
  {
    var r := Reconcile(t, s, now);
    ReadersSeeTheSnapshot(t, s, now);
    hide Upserted, Buried, Live, Reconcile, Report;
    NothingLeftToDo(r, s, later);
    EmptyDiff(r, s, later);
  }

  lemma EmptyDiff<K, V>(t: Table<K, V>, s: map<K, V>, now: Time)
    requires Upserted(t, s, now) == map[] && Buried(t, s, now) == map[]
    ensures Reconcile(t, s, now) == t && Report(t, s, now) == Counts(0, 0, 0)
  {
    hide Upserted, Buried;
    assert t + map[] + map[] == t;
    var none: Table<K, V> := map[];
    assert none.Keys == {} && none.Keys - t.Keys == {} && none.Keys * t.Keys == {};
  }

  // ---------------------------------------------------------------- the fuel feed

  datatype Fuel = Gazole | SP95 | E85 | GPLc | E10 | SP98

  type StationId = nat

  // the values the update compares; the point is a function of the coordinates
  datatype Station = Station(lat: real, lng: real, texts: seq<Option<string>>, automate: Option<bool>)

  datatype Price = Price(price: real, at: Time)

  datatype Outage = Outage(startedAt: Option<Time>, kind: string)

  /** A staged row: a station with a price cell, a price date, an outage start and an outage kind for each fuel. */
  datatype Staged = Staged(id: StationId, station: Station,
                           price: map<Fuel, real>, priceAt: map<Fuel, Time>,
                           started: map<Fuel, Time>, kind: map<Fuel, string>)

  predicate UniqueIds(stage: seq<Staged>) {
    forall i, j :: 0 <= i < j < |stage| ==> stage[i].id != stage[j].id
  }

  /** What a column of six digits, three of them decimals, keeps of a price: halves go away from zero. */
  function Rounded(price: real): real {
    if price < 0.0 then -HalfUp(-price) else HalfUp(price)
  }

  function HalfUp(price: real): real {
    (1000.0 * price + 0.5).Floor as real / 1000.0
  }

  predicate Whole(x: real) {
    x.Floor as real == x
  }

  lemma IntegersAreWhole(n: int)
    ensures Whole(n as real) && Whole(-(n as real))
  {
    assert -(n as real) == (-n) as real;
  }

  predicate Fits(price: real) {
    -1000.0 < Rounded(price) < 1000.0
  }

  /** Rounding moves a price by at most half a thousandth, and a stored price not at all; so the same
      snapshot compares equal to what was stored of it. */
  lemma RoundedIsNear(price: real)
    ensures -0.0005 <= Rounded(price) - price <= 0.0005
    ensures Rounded(Rounded(price)) == Rounded(price)
    ensures Whole(1000.0 * Rounded(price))
  {
    var n := (1000.0 * (if price < 0.0 then -price else price) + 0.5).Floor;
    assert (n as real + 0.5).Floor == n && 1000.0 * HalfUp(if price < 0.0 then -price else price) == n as real;
    hide Whole;
    IntegersAreWhole(n);
    assert 1000.0 * Rounded(price) == if price < 0.0 then -(n as real) else n as real;
  }

  /** Every price has a date and fits its column; otherwise the load aborts. */
  predicate Loadable(stage: seq<Staged>) {
    forall i, f :: 0 <= i < |stage| && f in stage[i].price ==> f in stage[i].priceAt && Fits(stage[i].price[f])
  }

  function StationsOf(stage: seq<Staged>): map<StationId, Station>
    requires UniqueIds(stage)
  {
    map i | 0 <= i < |stage| :: stage[i].id := stage[i].station
  }

  function PricesOf(stage: seq<Staged>): map<(StationId, Fuel), Price>
    requires UniqueIds(stage) && Loadable(stage)
  {
    map i, f | 0 <= i < |stage| && f in stage[i].price ::
      (stage[i].id, f) := Price(Rounded(stage[i].price[f]), stage[i].priceAt[f])
  }

  function OutagesOf(stage: seq<Staged>): map<(StationId, Fuel), Outage>
    requires UniqueIds(stage)
  {
    map i, f | 0 <= i < |stage| && f in stage[i].kind && stage[i].kind[f] != "" :: (stage[i].id, f) :=
      Outage(if f in stage[i].started then Some(stage[i].started[f]) else None, stage[i].kind[f])
  }

  /** Every key of a table of prices or outages names a station. */
  ghost predicate Refer(keys: set<(StationId, Fuel)>, stations: set<StationId>) {
    forall k :: k in keys ==> k.0 in stations
  }

  lemma StagedRowsRefer(stage: seq<Staged>)
    requires UniqueIds(stage)
    ensures Loadable(stage) ==> Refer(PricesOf(stage).Keys, StationsOf(stage).Keys)
    ensures Refer(OutagesOf(stage).Keys, StationsOf(stage).Keys)
    ensures forall i :: 0 <= i < |stage| ==> stage[i].id in StationsOf(stage)
  {
  }

  ghost predicate CarriesStations(stage: seq<Staged>, live: map<StationId, Station>) {
    && (forall i :: 0 <= i < |stage| ==> stage[i].id in live && live[stage[i].id] == stage[i].station)
    && (forall id :: id in live ==> exists i :: 0 <= i < |stage| && stage[i].id == id)
  }

  /** A live price for every price cell, dated as staged, in whole thousandths and within half of one. */
  ghost predicate CarriesPrices(stage: seq<Staged>, live: map<(StationId, Fuel), Price>) {
    && (forall i, f :: 0 <= i < |stage| && f in stage[i].price ==>
          (stage[i].id, f) in live && Stores(live[(stage[i].id, f)], stage[i], f))
    && (forall k :: k in live ==> exists i :: 0 <= i < |stage| && stage[i].id == k.0 && k.1 in stage[i].price)
  }

  ghost predicate Stores(p: Price, staged: Staged, f: Fuel)
    requires f in staged.price
  {
    && f in staged.priceAt && p.at == staged.priceAt[f]
    && Whole(1000.0 * p.price)
    && -0.0005 <= p.price - staged.price[f] <= 0.0005
  }

  /** A live outage for every kind that is there and not blank, with that kind and its start if there is one. */
  ghost predicate CarriesOutages(stage: seq<Staged>, live: map<(StationId, Fuel), Outage>) {
    && (forall i, f :: 0 <= i < |stage| ==>
          ((stage[i].id, f) in live <==> f in stage[i].kind && stage[i].kind[f] != ""))
    && (forall i, f :: 0 <= i < |stage| && (stage[i].id, f) in live && f in stage[i].kind ==>
          var o := live[(stage[i].id, f)];
          && o.kind == stage[i].kind[f]
          && (o.startedAt == None <==> f !in stage[i].started)
          && (f in stage[i].started ==> o.startedAt == Some(stage[i].started[f])))
    && (forall k :: k in live ==> exists i :: 0 <= i < |stage| && stage[i].id == k.0)
  }

  lemma StationsAreCarried(stage: seq<Staged>)
    requires UniqueIds(stage)
    ensures CarriesStations(stage, StationsOf(stage))
  {
  }

  lemma OneRowPerId(stage: seq<Staged>, i: nat, j: nat)
    requires UniqueIds(stage) && i < |stage| && j < |stage| && stage[i].id == stage[j].id
    ensures i == j
  {
  }

  lemma PriceOf(stage: seq<Staged>, i: nat, f: Fuel)
    requires UniqueIds(stage) && Loadable(stage) && i < |stage| && f in stage[i].price
    ensures (stage[i].id, f) in PricesOf(stage)
    ensures PricesOf(stage)[(stage[i].id, f)] == Price(Rounded(stage[i].price[f]), stage[i].priceAt[f])
  {
    hide Rounded, Fits, Loadable, UniqueIds;
    forall j: nat | j < |stage| && stage[j].id == stage[i].id
      ensures j == i
    {
      OneRowPerId(stage, i, j);
    }
  }

  lemma PriceHasItsCell(stage: seq<Staged>, k: (StationId, Fuel))
    requires UniqueIds(stage) && Loadable(stage) && k in PricesOf(stage)
    ensures exists i :: 0 <= i < |stage| && stage[i].id == k.0 && k.1 in stage[i].price
  {
    hide Rounded, Fits, Loadable, UniqueIds;
  }

  lemma PricesAreCarried(stage: seq<Staged>)
    requires UniqueIds(stage) && Loadable(stage)
    ensures CarriesPrices(stage, PricesOf(stage))
  {
    hide Rounded, PricesOf, Whole, Fits, UniqueIds;
    forall k | k in PricesOf(stage)
      ensures exists i :: 0 <= i < |stage| && stage[i].id == k.0 && k.1 in stage[i].price
    {
      PriceHasItsCell(stage, k);
    }
    forall i, f | 0 <= i < |stage| && f in stage[i].price
      ensures (stage[i].id, f) in PricesOf(stage) && Stores(PricesOf(stage)[(stage[i].id, f)], stage[i], f)
    {
      PriceOf(stage, i, f);
      RoundedIsNear(stage[i].price[f]);
    }
  }

  lemma OutageOf(stage: seq<Staged>, i: nat, f: Fuel)
    requires UniqueIds(stage) && i < |stage|
    ensures (stage[i].id, f) in OutagesOf(stage) <==> f in stage[i].kind && stage[i].kind[f] != ""
    ensures (stage[i].id, f) in OutagesOf(stage) ==>
      OutagesOf(stage)[(stage[i].id, f)] ==
        Outage(if f in stage[i].started then Some(stage[i].started[f]) else None, stage[i].kind[f])
  {
  }

  lemma OutagesAreCarried(stage: seq<Staged>)
    requires UniqueIds(stage)
    ensures CarriesOutages(stage, OutagesOf(stage))
  {
    assert forall k :: k in OutagesOf(stage) ==> exists i :: 0 <= i < |stage| && stage[i].id == k.0;
    hide OutagesOf;
    forall i: nat, f | i < |stage|
      ensures (stage[i].id, f) in OutagesOf(stage) <==> f in stage[i].kind && stage[i].kind[f] != ""
      ensures (stage[i].id, f) in OutagesOf(stage) ==>
        OutagesOf(stage)[(stage[i].id, f)] ==
          Outage(if f in stage[i].started then Some(stage[i].started[f]) else None, stage[i].kind[f])
    {
      OutageOf(stage, i, f);
    }
  }

  /** A price that makes the load abort: it has no date, or rounds to a thousand or more. */
  ghost predicate Aborts(staged: Staged, f: Fuel) {
    f in staged.price && (f !in staged.priceAt || staged.price[f] >= 999.9995 || staged.price[f] <= -999.9995)
  }

  lemma LoadableExactlyWhen(stage: seq<Staged>)
    ensures Loadable(stage) <==> forall i, f :: 0 <= i < |stage| ==> !Aborts(stage[i], f)
  {
    hide Fits;
    if Loadable(stage) {
      forall i, f | 0 <= i < |stage|
        ensures !Aborts(stage[i], f)
      {
        if f in stage[i].price { FitsExactlyWhen(stage[i].price[f]); }
      }
    } else {
      var i, f :| 0 <= i < |stage| && f in stage[i].price && !(f in stage[i].priceAt && Fits(stage[i].price[f]));
      FitsExactlyWhen(stage[i].price[f]);
      assert Aborts(stage[i], f);
    }
  }

  lemma FitsExactlyWhen(price: real)
    ensures Fits(price) <==> -999.9995 < price < 999.9995
  {
  }

  class FuelFeed {
    var stations: Table<StationId, Station>
    var prices: Table<(StationId, Fuel), Price>
    var outages: Table<(StationId, Fuel), Outage>

    /** The foreign keys, and for live rows more: a live price or outage names a live station. */
    ghost predicate Valid()
      reads this
    {
      && Refer(prices.Keys, stations.Keys) && Refer(outages.Keys, stations.Keys)
      && Refer(Live(prices).Keys, Live(stations).Keys) && Refer(Live(outages).Keys, Live(stations).Keys)
    }

    /** Readers see exactly what the snapshot says. */
    ghost predicate Shows(stage: seq<Staged>)
      requires UniqueIds(stage) && Loadable(stage)
      reads this
    {
      Live(stations) == StationsOf(stage) && Live(prices) == PricesOf(stage) && Live(outages) == OutagesOf(stage)
    }

    /** What readers see, cell by cell of the snapshot. */
    ghost predicate Carries(stage: seq<Staged>)
      reads this
    {
      && CarriesStations(stage, Live(stations)) && CarriesPrices(stage, Live(prices))
      && CarriesOutages(stage, Live(outages))
    }

    constructor ()
      ensures Valid() && stations == map[] && prices == map[] && outages == map[]
    {
      stations, prices, outages := map[], map[], map[];
    }

    /** Every key of the snapshot has a row, live or not. */
    ghost predicate Holds(stage: seq<Staged>)
      requires UniqueIds(stage) && Loadable(stage)
      reads this
    {
      && StationsOf(stage).Keys <= stations.Keys && PricesOf(stage).Keys <= prices.Keys
      && OutagesOf(stage).Keys <= outages.Keys
    }

    /** One load: all three tables move together, or, when a price has no date or is too large, none does. */
    method Apply(stage: seq<Staged>, now: Time) returns (report: Option<(Counts, Counts, Counts)>)
      requires Valid() && UniqueIds(stage)
      modifies this
      ensures Valid()
      ensures report.Some? <==> Loadable(stage)
      ensures report == None <==> exists i, f :: 0 <= i < |stage| && Aborts(stage[i], f)
      ensures report == None ==> stations == old(stations) && prices == old(prices) && outages == old(outages)
      ensures Loadable(stage) ==>
        && stations == Reconcile(old(stations), StationsOf(stage), now)
        && prices == Reconcile(old(prices), PricesOf(stage), now)
        && outages == Reconcile(old(outages), OutagesOf(stage), now)
      ensures Loadable(stage) ==> Shows(stage) && Holds(stage) && Carries(stage)
      ensures old(stations).Keys <= stations.Keys && old(prices).Keys <= prices.Keys
      ensures old(outages).Keys <= outages.Keys
      ensures Loadable(stage) ==> report.value == (Report(old(stations), StationsOf(stage), now),
                                                Report(old(prices), PricesOf(stage), now),
                                                Report(old(outages), OutagesOf(stage), now))
    {
      hide Reconcile, Live, StationsOf, PricesOf, OutagesOf, Report, CarriesStations, CarriesPrices, CarriesOutages,
        Loadable, UniqueIds, Aborts;
      LoadableExactlyWhen(stage);
      if !Loadable(stage) {
        return None;
      }
      var st, pr, ou := StationsOf(stage), PricesOf(stage), OutagesOf(stage);
      StagedRowsRefer(stage);
      StationsAreCarried(stage);
      PricesAreCarried(stage);
      OutagesAreCarried(stage);
      ReadersSeeTheSnapshot(stations, st, now);
      ReadersSeeTheSnapshot(prices, pr, now);
      ReadersSeeTheSnapshot(outages, ou, now);
      report := Some((Report(stations, st, now), Report(prices, pr, now), Report(outages, ou, now)));
      stations, prices := Reconcile(stations, st, now), Reconcile(prices, pr, now);
      outages := Reconcile(outages, ou, now);
    }

    /** A sequence of daily loads, any of which may abort: readers end up with the last one that did not,
        and nothing was ever dropped. */
    method ApplyAll(days: seq<seq<Staged>>, times: seq<Time>)
      requires Valid() && |times| == |days|
      requires forall d :: 0 <= d < |days| ==> UniqueIds(days[d])
      modifies this
      ensures Valid()
      ensures forall d :: 0 <= d < |days| && LastLoaded(days, d) ==> Shows(days[d]) && Carries(days[d])
      ensures (forall d :: 0 <= d < |days| ==> !Loadable(days[d])) ==>
        stations == old(stations) && prices == old(prices) && outages == old(outages)
      ensures old(stations).Keys <= stations.Keys && old(prices).Keys <= prices.Keys
      ensures old(outages).Keys <= outages.Keys
      ensures forall d :: 0 <= d < |days| && Loadable(days[d]) ==> Holds(days[d])
    {
      hide Reconcile, StationsOf, PricesOf, OutagesOf, Report, UniqueIds, Loadable, Refer, Live, CarriesStations,
        CarriesPrices, CarriesOutages, Aborts;
      for n := 0 to |days|
        invariant Valid()
        invariant forall d :: 0 <= d < n && LastLoaded(days[..n], d) ==> Shows(days[d]) && Carries(days[d])
        invariant (forall d :: 0 <= d < n ==> !Loadable(days[d])) ==>
          stations == old(stations) && prices == old(prices) && outages == old(outages)
        invariant old(stations).Keys <= stations.Keys && old(prices).Keys <= prices.Keys
        invariant old(outages).Keys <= outages.Keys
        invariant forall d :: 0 <= d < n && Loadable(days[d]) ==> Holds(days[d])
      {
        LoadedSoFar(days, n);
        var report := Apply(days[n], times[n]);
      }
      assert days[..|days|] == days;
    }
  }

  /** Day d was loaded and every later day aborted. */
  ghost predicate LastLoaded(days: seq<seq<Staged>>, d: nat)
    requires d < |days|
  {
    Loadable(days[d]) && forall e :: d < e < |days| ==> !Loadable(days[e])
  }

  lemma LoadedSoFar(days: seq<seq<Staged>>, n: nat)
    requires n < |days|
    ensures forall d :: 0 <= d < n && LastLoaded(days[..n + 1], d) ==> LastLoaded(days[..n], d) && !Loadable(days[n])
    ensures LastLoaded(days[..n + 1], n) <==> Loadable(days[n])
  {
    hide Loadable;
    forall d | 0 <= d < n && LastLoaded(days[..n + 1], d)
      ensures LastLoaded(days[..n], d) && !Loadable(days[n])
    {
      assert days[..n + 1][n] == days[n];
      forall e | d < e < n ensures !Loadable(days[..n][e]) { assert days[..n + 1][e] == days[..n][e]; }
    }
  }

  // ---------------------------------------------------------------- unique keys

  predicate IsHex(c: char) { '0' <= c <= '9' || 'a' <= c <= 'f' || 'A' <= c <= 'F' }

  function LowerCase(c: char): char {
    if 'A' <= c <= 'F' then c - 'A' + 'a' else c
  }

  /** What a `uuid` column compares: the hexadecimal digits, whatever their case and what stands between them. */
  function Digits(key: string): string {
    if key == "" then ""
    else (if IsHex(key[0]) then [LowerCase(key[0])] else "") + Digits(key[1..])
  }

  ghost predicate OneSpellingEach<R>(rows: seq<Option<(string, R)>>) {
    forall i, j :: 0 <= i < |rows| && 0 <= j < |rows| && rows[i].Some? && rows[j].Some? ==>
      (Digits(rows[i].value.0) == Digits(rows[j].value.0) ==> rows[i].value.0 == rows[j].value.0)
  }

  ghost predicate UniqueKeys<R>(kept: seq<(string, R)>) {
    forall a, b :: 0 <= a < b < |kept| ==> Digits(kept[a].0) != Digits(kept[b].0)
  }

  ghost predicate IsFirst<R>(rows: seq<Option<(string, R)>>, i: int, r: (string, R)) {
    && 0 <= i < |rows| && rows[i] == Some(r)
    && forall j :: 0 <= j < i && rows[j].Some? ==> rows[j].value.0 != r.0
  }

  /** The charge points' loader keeps the first row of each key and drops rows it cannot read. It
      compares the keys as text: the staged keys are unique for the `uuid` column exactly when the export
      spells every key one way. */
  method KeepFirst<R(==)>(rows: seq<Option<(string, R)>>) returns (kept: seq<(string, R)>)
    ensures forall a, b :: 0 <= a < b < |kept| ==> kept[a].0 != kept[b].0
    ensures forall r :: r in kept <==> exists i :: IsFirst(rows, i, r)
    ensures UniqueKeys(kept) <==> OneSpellingEach(rows)
  {
    kept := [];
    var seen: set<string> := {};
    for n := 0 to |rows|
      invariant forall a, b :: 0 <= a < b < |kept| ==> kept[a].0 != kept[b].0
      invariant forall k :: k in seen <==> exists a :: 0 <= a < |kept| && kept[a].0 == k
      invariant forall k :: k in seen <==> exists i :: 0 <= i < n && rows[i].Some? && rows[i].value.0 == k
      invariant forall r :: r in kept <==> exists i :: i < n && IsFirst(rows, i, r)
    {
      ghost var before := kept;
      if rows[n].Some? && rows[n].value.0 !in seen {
        var r := rows[n].value;
        seen := seen + {r.0};
        kept := kept + [r];
        assert IsFirst(rows, n, r);
        assert kept[|before|].0 == r.0;
        assert forall a :: 0 <= a < |before| ==> kept[a] == before[a];
      }
    }
    UniqueExactlyWhenSpelledAlike(rows, kept);
  }

  lemma UniqueExactlyWhenSpelledAlike<R>(rows: seq<Option<(string, R)>>, kept: seq<(string, R)>)
    requires forall a, b :: 0 <= a < b < |kept| ==> kept[a].0 != kept[b].0
    requires forall r :: r in kept <==> exists i :: IsFirst(rows, i, r)
    ensures UniqueKeys(kept) <==> OneSpellingEach(rows)
  {
    hide Digits;
    if UniqueKeys(kept) {
      forall i, j | 0 <= i < |rows| && 0 <= j < |rows| && rows[i].Some? && rows[j].Some?
                    && Digits(rows[i].value.0) == Digits(rows[j].value.0)
        ensures rows[i].value.0 == rows[j].value.0
      {
        var a := KeptUnderItsKey(rows, kept, i);
        var b := KeptUnderItsKey(rows, kept, j);
        assert a == b;
      }
    }
    if OneSpellingEach(rows) {
      forall a, b | 0 <= a < b < |kept|
        ensures Digits(kept[a].0) != Digits(kept[b].0)
      {
        assert kept[a] in kept && kept[b] in kept;
        var i :| IsFirst(rows, i, kept[a]);
        var j :| IsFirst(rows, j, kept[b]);
      }
    }
  }

  lemma KeptUnderItsKey<R>(rows: seq<Option<(string, R)>>, kept: seq<(string, R)>, i: nat) returns (a: nat)
    requires i < |rows| && rows[i].Some?
    requires forall r :: r in kept <==> exists i :: IsFirst(rows, i, r)
    ensures a < |kept| && kept[a].0 == rows[i].value.0
  {
    var j := FirstUnderItsKey(rows, i);
    assert rows[j].value in kept;
    a :| 0 <= a < |kept| && kept[a] == rows[j].value;
  }

  lemma {:induction false} FirstUnderItsKey<R>(rows: seq<Option<(string, R)>>, i: nat) returns (j: nat)
    requires i < |rows| && rows[i].Some?
    ensures j <= i && rows[j].Some? && rows[j].value.0 == rows[i].value.0 && IsFirst(rows, j, rows[j].value)
    decreases i
  {
    j := i;
    if !IsFirst(rows, i, rows[i].value) {
      var k: nat :| k < i && rows[k].Some? && rows[k].value.0 == rows[i].value.0;
      j := FirstUnderItsKey(rows, k);
    }
  }

  /** One key in two spellings: both rows are kept, and the column takes them for duplicates. */
  lemma TwoSpellingsAreBothKept<R>(rest: string, one: R, other: R)
    ensures
      var rows := [Some(("a" + rest, one)), Some(("A" + rest, other))];
      && IsFirst(rows, 0, ("a" + rest, one)) && IsFirst(rows, 1, ("A" + rest, other))
      && Digits("a" + rest) == Digits("A" + rest)
  {
    assert ("a" + rest)[0] == 'a' && ("A" + rest)[0] == 'A';
    assert ("a" + rest)[1..] == rest && ("A" + rest)[1..] == rest;
  }
}
