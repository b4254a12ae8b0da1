/**
  Resetting the tenant memberships of the fixture principals. A principal whose last membership goes
  is revoked, so the canonical ones are inserted before any other is deleted.
*/
module Memberships {
  datatype Membership = Membership(principal: string, tenant: string)

  const SWEEPER := "zb_sweeper"

  predicate Belongs(rows: set<Membership>, principal: string) {
    exists m :: m in rows && m.principal == principal
  }

  /** The memberships of everyone else, the sweeper's included. */
  function Others(rows: set<Membership>, fixtures: map<string, string>): set<Membership> {
    set m | m in rows && m.principal !in fixtures
  }

  /** What the reset is for: each fixture principal in its one tenant, the sweeper in all of its own,
      everybody else as before. */
  function Canonical(rows: set<Membership>, fixtures: map<string, string>, sweeps: seq<string>): set<Membership> {
    Others(rows, fixtures) + (set p | p in fixtures :: Membership(p, fixtures[p])) + SweeperIn(sweeps)
  }

  class Tenants {
    var rows: set<Membership>
    ghost var past: seq<set<Membership>>  // every state the table has been in, the present one last

    ghost predicate Valid()
      reads this
    {
      past != [] && past[|past| - 1] == rows
    }

    constructor (rows: set<Membership>)
      ensures Valid() && this.rows == rows && past == [rows]
    {
      this.rows := rows;
      past := [rows];
    }

    /** A membership that is there already is left alone. */
    method Insert(m: Membership)
      requires Valid()
      modifies this
      ensures Valid() && rows == old(rows) + {m} && past == old(past) + [rows]
    {
      rows := rows + {m};
      past := past + [rows];
    }

    method Delete(m: Membership)
      requires Valid()
      modifies this
      ensures Valid() && rows == old(rows) - {m} && past == old(past) + [rows]
    {
      rows := rows - {m};
      past := past + [rows];
    }
  }

  /** First loop: the canonical memberships that are missing from `live` go in. */
  method InsertMissing(db: Tenants, fixtures: map<string, string>, order: seq<string>, dry: bool) returns (changed: nat)
    requires db.Valid() && Lists(order, fixtures)
    modifies db
    ensures db.Valid() && (dry ==> db.rows == old(db.rows) && db.past == old(db.past))
    ensures !dry ==> db.rows == old(db.rows) + Missing(old(db.rows), fixtures)
    ensures old(db.past) <= db.past && Kept(db.past, |old(db.past)|, old(db.rows))
    ensures changed == |Missing(old(db.rows), fixtures)|
  {
    hide Belongs, CanonicalOf, Missing, Kept;
    var live := db.rows;
    changed := 0;
    NoneYet(db.past, live, order, fixtures);
    ghost var added: set<Membership> := {};
    for i := 0 to |order|
      invariant db.Valid() && (dry ==> db.rows == live && db.past == old(db.past))
      invariant !dry ==> db.rows == live + added
      invariant old(db.past) <= db.past && Kept(db.past, |old(db.past)|, live)
      invariant changed == |added| && added == CanonicalOf(order[..i], fixtures) - live
    {
      var m := Membership(order[i], fixtures[order[i]]);
      NextCanonical(order, i, fixtures);
      if m !in live {
        if !dry {
          ghost var past := db.past;
          db.Insert(m);
          SupersetKeeps(db.rows, live);
          KeptOnce(past, |old(db.past)|, live, db.rows);
        }
        added := added + {m};
        changed := changed + 1;
      }
    }
    AllCanonical(order, fixtures);
  }

  lemma NoneYet(past: seq<set<Membership>>, live: set<Membership>, order: seq<string>, fixtures: map<string, string>)
    ensures Kept(past, |past|, live) && CanonicalOf(order[..0], fixtures) == {}
  {
  }

  lemma KeptOnce(past: seq<set<Membership>>, from: nat, live: set<Membership>, state: set<Membership>)
    requires Kept(past, from, live) && forall p :: Belongs(live, p) ==> Belongs(state, p)
    ensures Kept(past + [state], from, live)
  {
    hide Belongs;
  }

  ghost predicate Lists(order: seq<string>, fixtures: map<string, string>) {
    && (forall i :: 0 <= i < |order| ==> order[i] in fixtures)
    && (forall p :: p in fixtures ==> p in order)
    && (forall i, j :: 0 <= i < j < |order| ==> order[i] != order[j])
  }

  ghost function CanonicalOf(order: seq<string>, fixtures: map<string, string>): set<Membership> {
    set p | p in order && p in fixtures :: Membership(p, fixtures[p])
  }

  lemma NextCanonical(order: seq<string>, i: nat, fixtures: map<string, string>)
    requires i < |order| && Lists(order, fixtures)
    ensures var m := Membership(order[i], fixtures[order[i]]);
      && m !in CanonicalOf(order[..i], fixtures)
      && CanonicalOf(order[..i + 1], fixtures) == CanonicalOf(order[..i], fixtures) + {m}
  {
  }

  lemma AllCanonical(order: seq<string>, fixtures: map<string, string>)
    requires Lists(order, fixtures)
    ensures forall live :: CanonicalOf(order[..|order|], fixtures) - live == Missing(live, fixtures)
  {
  }

  /** Second loop: the extra memberships of fixture principals found in `live` go out. */
  method DeleteExtras(db: Tenants, fixtures: map<string, string>, live: set<Membership>, dry: bool)
    returns (changed: nat)
    requires db.Valid() && (!dry ==> db.rows == live + Missing(live, fixtures))
    modifies db
    ensures db.Valid() && (dry ==> db.rows == old(db.rows) && db.past == old(db.past))
    ensures !dry ==> db.rows == old(db.rows) - Extra(live, fixtures)
    ensures old(db.past) <= db.past && Kept(db.past, |old(db.past)|, live)
    ensures changed == |Extra(live, fixtures)|
  {
    hide *;
    changed := 0;
    var rest := live;
    ghost var seen: set<Membership>, before := {}, db.rows;
    NothingSeen(db.past, db.rows, live, fixtures);
    while rest != {}
      invariant db.Valid() && Split(seen, rest, live) && (dry ==> db.rows == before && db.past == old(db.past))
      invariant !dry ==> db.rows == before - Extra(seen, fixtures)
      invariant old(db.past) <= db.past && Kept(db.past, |old(db.past)|, live)
      invariant changed == |Extra(seen, fixtures)|
      decreases |rest|
    {
      var m :| m in rest;
      OneMoreSeen(seen, rest, live, m, fixtures);
      OneFewerRow(before, Extra(seen, fixtures), m);
      rest, seen := rest - {m}, seen + {m};
      if m.principal in fixtures && fixtures[m.principal] != m.tenant {
        if !dry {
          ghost var past := db.past;
          db.Delete(m);
          ExtraOfPart(seen, rest, live, fixtures);
          CanonicalKeeps(live, fixtures, Extra(seen, fixtures), db.rows);
          KeptOnce(past, |old(db.past)|, live, db.rows);
        }
        changed := changed + 1;
      }
    }
    AllSeen(seen, live);
  }

  ghost predicate Split(seen: set<Membership>, rest: set<Membership>, live: set<Membership>) {
    seen !! rest && seen + rest == live
  }

  lemma NothingSeen(past: seq<set<Membership>>, rows: set<Membership>, live: set<Membership>,
                    fixtures: map<string, string>)
    ensures Kept(past, |past|, live) && Split({}, live, live)
    ensures Extra({}, fixtures) == {} && rows - Extra({}, fixtures) == rows
  {
  }

  lemma AllSeen(seen: set<Membership>, live: set<Membership>)
    requires Split(seen, {}, live)
    ensures seen == live
  {
  }

  lemma OneMoreSeen(seen: set<Membership>, rest: set<Membership>, live: set<Membership>, m: Membership,
                    fixtures: map<string, string>)
    requires Split(seen, rest, live) && m in rest
    ensures Split(seen + {m}, rest - {m}, live)
    ensures m.principal in fixtures && fixtures[m.principal] != m.tenant ==>
      && Extra(seen + {m}, fixtures) == Extra(seen, fixtures) + {m}
      && |Extra(seen + {m}, fixtures)| == |Extra(seen, fixtures)| + 1
    ensures !(m.principal in fixtures && fixtures[m.principal] != m.tenant) ==>
      Extra(seen + {m}, fixtures) == Extra(seen, fixtures)
  {
  }

  lemma OneFewerRow(rows: set<Membership>, gone: set<Membership>, m: Membership)
    ensures rows - gone - {m} == rows - (gone + {m})
  {
  }

  lemma ExtraOfPart(seen: set<Membership>, rest: set<Membership>, live: set<Membership>, fixtures: map<string, string>)
    requires Split(seen, rest, live)
    ensures Extra(seen, fixtures) <= Extra(live, fixtures)
  {
  }

  /** Third loop: the sweeper is a member of every tenant it sweeps. */
  method InsertSweeper(db: Tenants, sweeps: seq<string>, dry: bool)
    requires db.Valid()
    modifies db
    ensures db.Valid() && (dry ==> db.rows == old(db.rows) && db.past == old(db.past))
    ensures !dry ==> db.rows == old(db.rows) + SweeperIn(sweeps)
    ensures old(db.past) <= db.past && Kept(db.past, |old(db.past)|, old(db.rows))
  {
    hide Belongs;
    for i := 0 to |sweeps|
      invariant db.Valid() && (dry ==> db.rows == old(db.rows) && db.past == old(db.past))
      invariant !dry ==> db.rows == old(db.rows) + SweeperIn(sweeps[..i])
      invariant old(db.past) <= db.past && Kept(db.past, |old(db.past)|, old(db.rows))
    {
      assert sweeps[..i + 1] == sweeps[..i] + [sweeps[i]];
      if !dry {
        db.Insert(Membership(SWEEPER, sweeps[i]));
        SupersetKeeps(db.rows, old(db.rows));
      }
    }
    assert sweeps[..|sweeps|] == sweeps;
  }

  function SweeperIn(sweeps: seq<string>): set<Membership> {
    set t | t in sweeps :: Membership(SWEEPER, t)
  }

  /** Step 5 of the reset. `order` lists the fixture principals, `changed` counts what is reported. */
  method Reset(db: Tenants, fixtures: map<string, string>, order: seq<string>, sweeps: seq<string>, dry: bool)
    returns (changed: nat)
    requires db.Valid() && SWEEPER !in fixtures && Lists(order, fixtures)
    modifies db
    ensures db.Valid() && (dry ==> db.rows == old(db.rows) && db.past == old(db.past))
    ensures !dry ==> db.rows == Canonical(old(db.rows), fixtures, sweeps)
    // that is: a fixture principal's own tenant, what the others had, and the sweeper's tenants
    ensures !dry ==> forall m :: m in db.rows <==>
      || (m.principal in fixtures && m.tenant == fixtures[m.principal])
      || (m.principal !in fixtures && m in old(db.rows))
      || (m.principal == "zb_sweeper" && m.tenant in sweeps)
    // in every state on the way, nobody who was a member of something has been left with nothing
    ensures old(db.past) <= db.past && Kept(db.past, |old(db.past)|, old(db.rows))
    // what is reported: the missing canonical memberships and the extra ones of fixture principals
    ensures changed == |Missing(old(db.rows), fixtures)| + |Extra(old(db.rows), fixtures)|
  {
    hide Belongs, Missing, Extra, Canonical;
    var live := db.rows;
    var inserted := InsertMissing(db, fixtures, order, dry);
    assert old(db.past) <= db.past && Kept(db.past, |old(db.past)|, live);
    label two:
    var deleted := DeleteExtras(db, fixtures, live, dry);
    KeptTogether(old(db.past), old@two(db.past), db.past, live);
    label three:
    if !dry {
      CanonicalKeeps(live, fixtures, Extra(live, fixtures), db.rows);
    }
    InsertSweeper(db, sweeps, dry);
    KeptOnward(old@three(db.past), db.past, old@three(db.rows), live);
    KeptTogether(old(db.past), old@three(db.past), db.past, live);
    CanonicalIs(live, fixtures, sweeps);
    CanonicalHolds(live, fixtures, sweeps);
    changed := inserted + deleted;
  }

  lemma KeptTogether(first: seq<set<Membership>>, second: seq<set<Membership>>, third: seq<set<Membership>>,
                     live: set<Membership>)
    requires first <= second <= third && Kept(second, |first|, live) && Kept(third, |second|, live)
    ensures first <= third && Kept(third, |first|, live)
  {
  }

  lemma KeptOnward(past: seq<set<Membership>>, later: seq<set<Membership>>, state: set<Membership>,
                   live: set<Membership>)
    requires Kept(later, |past|, state) && (later == past || forall p :: Belongs(live, p) ==> Belongs(state, p))
    ensures Kept(later, |past|, live)
  {
  }

  /** From state `from` on, whoever belonged to something in `live` still does. */
  ghost predicate Kept(past: seq<set<Membership>>, from: nat, live: set<Membership>) {
    forall i, p :: from <= i < |past| && Belongs(live, p) ==> Belongs(past[i], p)
  }

  function Missing(rows: set<Membership>, fixtures: map<string, string>): set<Membership> {
    (set p | p in fixtures :: Membership(p, fixtures[p])) - rows
  }

  function Extra(rows: set<Membership>, fixtures: map<string, string>): set<Membership> {
    set m | m in rows && m.principal in fixtures && fixtures[m.principal] != m.tenant
  }

  lemma SupersetKeeps(state: set<Membership>, live: set<Membership>)
    requires live <= state
    ensures forall p :: Belongs(live, p) ==> Belongs(state, p)
  {
  }

  /** Once the canonical memberships are in, taking extra ones out revokes nobody. */
  lemma CanonicalKeeps(live: set<Membership>, fixtures: map<string, string>, removed: set<Membership>,
                       state: set<Membership>)
    requires removed <= Extra(live, fixtures) && live + Missing(live, fixtures) - removed <= state
    ensures forall p :: Belongs(live, p) ==> Belongs(state, p)
  {
    forall p | Belongs(live, p)
      ensures Belongs(state, p)
    {
      var m :| m in live && m.principal == p;
      if m in removed {
        assert Membership(p, fixtures[p]) in live + Missing(live, fixtures) - removed;
      } else {
        assert m in state;
      }
    }
  }

  lemma CanonicalIs(live: set<Membership>, fixtures: map<string, string>, sweeps: seq<string>)
    ensures live + Missing(live, fixtures) - Extra(live, fixtures) + SweeperIn(sweeps)
         == Canonical(live, fixtures, sweeps)
  {
  }

  lemma CanonicalHolds(rows: set<Membership>, fixtures: map<string, string>, sweeps: seq<string>)
    ensures forall m :: m in Canonical(rows, fixtures, sweeps) <==>
      || (m.principal in fixtures && m.tenant == fixtures[m.principal])
      || (m.principal !in fixtures && m in rows)
      || (m.principal == "zb_sweeper" && m.tenant in sweeps)
  {
    forall m
      ensures m in SweeperIn(sweeps) <==> m.principal == SWEEPER && m.tenant in sweeps
    {
      assert m == Membership(m.principal, m.tenant);
    }
  }

  /** Afterwards each fixture principal belongs to exactly its own tenant. */
  lemma EachFixtureHasItsTenant(rows: set<Membership>, fixtures: map<string, string>, sweeps: seq<string>,
                                p: string, t: string)
    requires SWEEPER !in fixtures && p in fixtures
    ensures Membership(p, t) in Canonical(rows, fixtures, sweeps) <==> t == fixtures[p]
  {
  }

  /** A second run finds the table as it should be, reports nothing and changes nothing. */
  lemma SecondRunChangesNothing(rows: set<Membership>, fixtures: map<string, string>, sweeps: seq<string>)
    requires SWEEPER !in fixtures
    ensures var once := Canonical(rows, fixtures, sweeps);
      Canonical(once, fixtures, sweeps) == once && Missing(once, fixtures) == {} && Extra(once, fixtures) == {}
  {
  }
}
