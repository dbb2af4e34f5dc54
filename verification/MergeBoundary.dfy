/**
 Merged pairs at exactly 5 NM, where the radar and the controller draw the line differently. Whether
 every tick keeps such a pair is decided by the picture alone.
 */
module MergeBoundary {
  import opened Tracks
  import opened Grouping
  import opened Merges
  import opened MergeTracking
  import opened MergeTick
  import opened MergeProtocol

  // ---------------------------------------------------------------- every seed has its row

  lemma {:induction false} ListSet(ids: set<nat>) returns (s: seq<nat>)
    ensures Distinct(s) && Elements(s) == ids
    decreases |ids|
  {
    s := [];
    if ids != {} {
      var x :| x in ids;
      var rest := ListSet(ids - {x});
      assert forall i :: 0 <= i < |rest| ==> rest[i] in Elements(rest);
      s := [x] + rest;
      assert Elements(s) == Elements(rest) + {x};
    }
  }

  /** The contacts of a group, the seed first. */
  lemma ListGroup(w: World, db: Database, seed: nat) returns (cs: seq<Track>)
    requires WellKeyed(db) && seed in db
    ensures IsGroup(w, db, cs) && cs[0] == db[seed]
  {
    ReachSelf(w, db, db[seed]);
    assert View(db, db[seed]) == db;
    assert ReachSet(w, db, db[seed]) <= db.Keys;
    hide ReachSet;
    var others := ReachSet(w, db, db[seed]) - {seed};
    var rest := ListSet(others);
    assert forall i :: 0 <= i < |rest| ==> rest[i] in Elements(rest);
    var ids := [seed] + rest;
    cs := TracksOf(db, ids);
    assert Elements(ids) == Elements(rest) + {seed};
    TracksFromPicture(db, ids);
  }

  /** The row of a seed. */
  lemma RowFromSeed(w: World, db: Database, coalition: Coalition, seed: nat) returns (row: Row)
    requires WellKeyed(db) && seed in db && Eligible(w, db[seed], coalition) && HasFoe(w, db, seed)
    ensures GoodRow(w, db, coalition, row) && Elements(row.ids) == ReachSet(w, db, db[seed])
  {
    var cs := ListGroup(w, db, seed);
    MembersAreHostile(w, db, coalition, cs);
    FoesOfMembers(w, db, cs);
    assert Elements(ObjectIDs(cs)) == Ids(cs) == ReachSet(w, db, db[seed]);
    hide ReachSet, IsGroup, Eligible;
    var friends := ListSet(FoesOf(w, db, Ids(cs)));
    row := Row(ObjectIDs(cs), friends);
    assert IsGroup(w, db, cs) && NoDuplicates(cs);
    assert RowOf(w, db, coalition, cs, row);
    assert friends != [] by {
      assert friends == [] ==> Elements(friends) == {};
    }
  }

  ghost predicate GoodRows(w: World, db: Database, coalition: Coalition, rows: seq<Row>) {
    forall i :: 0 <= i < |rows| ==> GoodRow(w, db, coalition, rows[i])
  }

  ghost function Missed(w: World, db: Database, coalition: Coalition, rows: seq<Row>): set<nat> {
    set h | h in db && Eligible(w, db[h], coalition) && HasFoe(w, db, h) && !InSomeRow(rows, h)
  }

  /** Rows can be completed, each time from a seed that no earlier row holds. */
  lemma {:induction false} CompleteRows(w: World, db: Database, coalition: Coalition, rows: seq<Row>)
    returns (all: seq<Row>)
    requires WellKeyed(db) && GoodRows(w, db, coalition, rows)
    ensures MergeRows(w, db, coalition, all) && rows <= all
    decreases |Missed(w, db, coalition, rows)|
  {
    hide GoodRow, HasFoe, InSomeRow, Eligible;
    var missed := Missed(w, db, coalition, rows);
    if missed == {} {
      all := rows;
      forall h | h in db && Eligible(w, db[h], coalition) && HasFoe(w, db, h) ensures InSomeRow(rows, h) {
        assert h !in missed;
      }
    } else {
      var seed :| seed in missed;
      var row := RowFromSeed(w, db, coalition, seed);
      ReachSelf(w, db, db[seed]);
      assert seed in Elements(row.ids);
      MissedShrinks(w, db, coalition, rows, row, seed);
      all := CompleteRows(w, db, coalition, rows + [row]);
    }
  }

  lemma MissedShrinks(w: World, db: Database, coalition: Coalition, rows: seq<Row>, row: Row, seed: nat)
    requires seed in Missed(w, db, coalition, rows) && seed in row.ids
    ensures |Missed(w, db, coalition, rows + [row])| < |Missed(w, db, coalition, rows)|
  {
    var some, fewer := Missed(w, db, coalition, rows), Missed(w, db, coalition, rows + [row]);
    hide InSomeRow, HasFoe, Eligible;
    forall h | h in db ensures InSomeRow(rows + [row], h) <==> InSomeRow(rows, h) || h in row.ids {
      InSomeRowAppend(rows, row, h);
    }
    assert fewer <= some - {seed};
    SmallerSet(fewer, some - {seed});
  }

  lemma SmallerSet(a: set<nat>, b: set<nat>)
    requires a <= b
    ensures |a| <= |b|
  {
    assert b == a + (b - a);
  }

  // ---------------------------------------------------------------- the exact condition

  /** An eligible hostile whose group holds `h`. */
  ghost predicate Holds(w: World, db: Database, coalition: Coalition, seed: nat, h: nat) {
    seed in db && Eligible(w, db[seed], coalition) && h in ReachSet(w, db, db[seed])
  }

  /** A member of the group of `seed` is inside 5 NM of the contact. */
  ghost predicate ComesNear(w: World, db: Database, seed: nat, f: nat)
    requires seed in db
  {
    f in FoesOf(w, db, ReachSet(w, db, db[seed]))
  }

  /** Some group that holds the hostile comes near the contact, and so does every such group that comes
      near anything. */
  ghost predicate InCompany(w: World, db: Database, coalition: Coalition, p: Pair) {
    && (exists seed :: Holds(w, db, coalition, seed, p.0) && ComesNear(w, db, seed, p.1))
    && forall seed :: Holds(w, db, coalition, seed, p.0) && HasFoe(w, db, seed) ==> ComesNear(w, db, seed, p.1)
  }

  /** The seed of a row that holds `h`. */
  lemma SeedOfRow(w: World, db: Database, coalition: Coalition, row: Row, h: nat) returns (seed: nat)
    requires WellKeyed(db) && GoodRow(w, db, coalition, row) && h in row.ids
    ensures Holds(w, db, coalition, seed, h) && HasFoe(w, db, seed)
    ensures forall f :: f in row.friends <==> ComesNear(w, db, seed, f)
  {
    var cs: seq<Track> :| RowOf(w, db, coalition, cs, row);
    seed := cs[0].contact.id;
    assert Elements(row.ids) == Ids(cs) == ReachSet(w, db, db[seed]);
    assert h in Elements(row.ids);
    hide ReachSet, IsGroup, Eligible, FoesOf;
    assert forall f :: f in row.friends <==> f in Elements(row.friends);
    assert row.friends[0] in FoesOf(w, db, ReachSet(w, db, db[seed]));
  }

  lemma CompanyKeeps(w: World, db: Database, coalition: Coalition, rows: seq<Row>, p: Pair)
    requires MergeRows(w, db, coalition, rows) && InCompany(w, db, coalition, p)
    ensures InSomeRow(rows, p.0) && InEveryRow(rows, p)
  {
    hide GoodRow, Eligible;
    var seed :| Holds(w, db, coalition, seed, p.0) && ComesNear(w, db, seed, p.1);
    assert InSomeRow(rows, seed);
    var i :| 0 <= i < |rows| && seed in rows[i].ids;
    assert p.0 in rows[i].ids by {
      RowHoldsReach(w, db, coalition, rows[i], seed);
      assert p.0 in Elements(rows[i].ids);
    }
    forall k | 0 <= k < |rows| && p.0 in rows[k].ids ensures p.1 in rows[k].friends {
      var other := SeedOfRow(w, db, coalition, rows[k], p.0);
    }
  }

  lemma RowHoldsReach(w: World, db: Database, coalition: Coalition, row: Row, h: nat)
    requires WellKeyed(db) && GoodRow(w, db, coalition, row) && h in row.ids
    ensures h in db && ReachSet(w, db, db[h]) <= Elements(row.ids)
  {
    MemberReach(w, db, coalition, row, h);
  }

  /** Without company, some tick drops the pair. */
  lemma NoCompanyDrops(w: World, db: Database, coalition: Coalition, p: Pair) returns (rows: seq<Row>)
    requires WellKeyed(db) && !InCompany(w, db, coalition, p)
    ensures MergeRows(w, db, coalition, rows)
    ensures !(InSomeRow(rows, p.0) && InEveryRow(rows, p))
  {
    hide GoodRow, Eligible, MergeRows, HasFoe, ComesNear;
    if bad :| Holds(w, db, coalition, bad, p.0) && HasFoe(w, db, bad) && !ComesNear(w, db, bad, p.1) {
      var row := RowFromSeed(w, db, coalition, bad);
      assert p.0 in Elements(row.ids);
      rows := CompleteRows(w, db, coalition, [row]);
      assert rows[0] == row;
      RowMissesFriend(w, db, coalition, row, bad, p.1);
    } else {
      rows := CompleteRows(w, db, coalition, []);
      NoneComesNear(w, db, coalition, rows, p);
    }
  }

  lemma RowMissesFriend(w: World, db: Database, coalition: Coalition, row: Row, seed: nat, f: nat)
    requires GoodRow(w, db, coalition, row) && seed in db && Elements(row.ids) == ReachSet(w, db, db[seed])
    requires !ComesNear(w, db, seed, f)
    ensures f !in row.friends
  {
    hide RealRow, ReachSet, FoesOf;
    assert f in row.friends ==> f in Elements(row.friends);
  }

  lemma NoneComesNear(w: World, db: Database, coalition: Coalition, rows: seq<Row>, p: Pair)
    requires MergeRows(w, db, coalition, rows)
    requires forall seed :: !(Holds(w, db, coalition, seed, p.0) && ComesNear(w, db, seed, p.1))
    ensures !(InSomeRow(rows, p.0) && InEveryRow(rows, p))
  {
    hide GoodRow, ComesNear, Holds;
    if i :| 0 <= i < |rows| && p.0 in rows[i].ids {
      var seed := SeedOfRow(w, db, coalition, rows[i], p.0);
    }
  }

  /** The outcome of a tick with the given rows. */
  lemma TickOf(w: World, db: Database, coalition: Coalition, rows: seq<Row>, before: set<Pair>)
    returns (after: set<Pair>, reports: seq<Pair>)
    requires MergeRows(w, db, coalition, rows)
    ensures Tick(w, db, coalition, before, after, reports) && TickWith(w, db, rows, before, after, reports)
  {
    hide Survives, MergeRows;
    after := set h, f | h in db && f in db && Survives(w, db, rows, before, (h, f)) :: (h, f);
    forall p: Pair ensures p in after <==> Survives(w, db, rows, before, p) {
      assert p == (p.0, p.1);
      SurvivorsAreTracked(w, db, rows, before, p);
    }
    reports := ListPairs(after - before);
  }

  lemma SurvivorsAreTracked(w: World, db: Database, rows: seq<Row>, before: set<Pair>, p: Pair)
    ensures Survives(w, db, rows, before, p) ==> p.0 in db && p.1 in db
  {
  }

  lemma {:induction false} ListPairs(ps: set<Pair>) returns (s: seq<Pair>)
    ensures DistinctPairs(s) && forall p :: p in s <==> p in ps
    decreases |ps|
  {
    s := [];
    if ps != {} {
      var x :| x in ps;
      var rest := ListPairs(ps - {x});
      assert forall i :: 0 <= i < |rest| ==> rest[i] in rest;
      s := [x] + rest;
    }
  }

  /** A merged pair at exactly 5 NM is kept by every tick, whatever the order, exactly if it is in
      company. */
  lemma KeptAtFiveMiles(w: World, db: Database, coalition: Coalition, before: set<Pair>, p: Pair)
    requires WellKeyed(db) && Engaged(w, db, coalition, p) && Range(w, db, p) == 5.0 * 1852.0 && p in before
    ensures (forall after, reports :: Tick(w, db, coalition, before, after, reports) ==> p in after)
            <==> InCompany(w, db, coalition, p)
  {
    assert Stays(w, db[p.0], db[p.1], true);
    hide InCompany, MergeRows, Stays, Eligible;
    if InCompany(w, db, coalition, p) {
      forall after, reports | Tick(w, db, coalition, before, after, reports) ensures p in after {
        var rows: seq<Row> :| MergeRows(w, db, coalition, rows) && TickWith(w, db, rows, before, after, reports);
        CompanyKeeps(w, db, coalition, rows, p);
        assert Survives(w, db, rows, before, p);
      }
    } else {
      var rows := NoCompanyDrops(w, db, coalition, p);
      var after, reports := TickOf(w, db, coalition, rows, before);
      assert p in after <==> Survives(w, db, rows, before, p);
    }
  }
}
