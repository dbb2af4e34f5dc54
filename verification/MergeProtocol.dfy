/**
 The merge protocol over whole runs: ticks on frozen pictures, removals of contacts and resets.
 */
module MergeProtocol {
  import opened Tracks
  import opened Grouping
  import opened Merges
  import opened MergeTracking
  import opened MergeTick
  import opened Broadcasts

  // ---------------------------------------------------------------- what a tick does to one pair

  ghost predicate InEveryRow(rows: seq<Row>, p: Pair) {
    forall i :: 0 <= i < |rows| && p.0 in rows[i].ids ==> p.1 in rows[i].friends
  }

  /** A pair is merged after the tick: its hostile is in a reported group, the other contact is near
      every reported group of that hostile, and the hysteresis rule keeps it. */
  ghost predicate Survives(w: World, db: Database, rows: seq<Row>, before: set<Pair>, p: Pair) {
    && p.0 in db && p.1 in db
    && InSomeRow(rows, p.0)
    && InEveryRow(rows, p)
    && Stays(w, db[p.0], db[p.1], p in before)
  }

  ghost predicate TickWith(w: World, db: Database, rows: seq<Row>, before: set<Pair>, after: set<Pair>,
      reports: seq<Pair>) {
    && (forall p :: p in after <==> Survives(w, db, rows, before, p))
    && DistinctPairs(reports)
    && forall p :: p in reports <==> p in after && p !in before
  }

  /** A tick with some sound and complete grouping. */
  ghost predicate Tick(w: World, db: Database, coalition: Coalition, before: set<Pair>, after: set<Pair>,
      reports: seq<Pair>) {
    exists rows :: MergeRows(w, db, coalition, rows) && TickWith(w, db, rows, before, after, reports)
  }

  // ---------------------------------------------------------------- the tick method

  /** A contact near the hostile of a row is among the friends of the row. */
  lemma NearIsFriend(w: World, db: Database, coalition: Coalition, row: Row, h: nat, f: nat)
    requires w.Symmetric() && RowFor(w, db, coalition, row) && h in row.ids
    requires h in db && f in db && db[f].contact.coalition != db[h].contact.coalition
    requires Located(db[f]) && Located(db[h]) && w.distance(Position(db[f]), Position(db[h])) < EXIT
    ensures f in row.friends
  {
    hide RowFor;
    FoesAreFriends(w, db, coalition, row, h);
    assert w.distance(Position(db[h]), Position(db[f])) == w.distance(Position(db[f]), Position(db[h]));
    assert f in NearOne(w, db, db[h]);
  }

  lemma FriendIsFoe(w: World, db: Database, coalition: Coalition, row: Row, f: nat)
    requires RowFor(w, db, coalition, row) && f in row.friends
    ensures f in db && db[f].contact.coalition != coalition.Opposite()
  {
    assert f in Elements(row.friends);
    var h :| h in Elements(row.ids) && h in db && f in NearOne(w, db, db[h]);
    assert h in row.ids;
  }

  /** A pair after the groups in `done` have been handled. */
  ghost predicate Settled(w: World, db: Database, done: seq<Row>, before: set<Pair>, kept: set<Pair>, p: Pair) {
    if InSomeRow(done, p.0) then Survives(w, db, done, before, p) else p in kept
  }

  ghost predicate AllSettled(w: World, db: Database, done: seq<Row>, before: set<Pair>, kept: set<Pair>, o: Outcome) {
    && (forall p :: p in o.pairs <==> Settled(w, db, done, before, kept, p))
    && DistinctPairs(o.reports)
    && forall p :: p in o.reports <==> InSomeRow(done, p.0) && p in o.pairs && p !in before
  }

  lemma InSomeRowAppend(done: seq<Row>, row: Row, h: nat)
    ensures InSomeRow(done + [row], h) <==> InSomeRow(done, h) || h in row.ids
  {
    var more := done + [row];
    if i :| 0 <= i < |done| && h in done[i].ids {
      assert more[i] == done[i];
    }
    assert more[|done|] == row;
  }

  lemma InEveryRowAppend(done: seq<Row>, row: Row, p: Pair)
    ensures InEveryRow(done + [row], p) <==> InEveryRow(done, p) && (p.0 in row.ids ==> p.1 in row.friends)
  {
    var more := done + [row];
    assert more[|done|] == row;
    if InEveryRow(more, p) {
      forall i | 0 <= i < |done| && p.0 in done[i].ids ensures p.1 in done[i].friends {
        assert more[i] == done[i];
      }
    }
  }

  ghost predicate RowsFor(w: World, db: Database, coalition: Coalition, rows: seq<Row>) {
    forall i :: 0 <= i < |rows| ==> RowFor(w, db, coalition, rows[i])
  }

  /** A pair under 3 NM is near every group of its hostile. */
  lemma CloseIsInEveryRow(w: World, db: Database, coalition: Coalition, done: seq<Row>, p: Pair)
    requires w.Symmetric() && RowsFor(w, db, coalition, done)
    requires p.0 in db && p.1 in db && db[p.0].contact.coalition == coalition.Opposite()
    requires db[p.1].contact.coalition != coalition.Opposite()
    requires Located(db[p.1]) && Located(db[p.0]) && w.distance(Position(db[p.1]), Position(db[p.0])) < EXIT
    ensures InEveryRow(done, p)
  {
    hide RowFor;
    forall i | 0 <= i < |done| && p.0 in done[i].ids ensures p.1 in done[i].friends {
      NearIsFriend(w, db, coalition, done[i], p.0, p.1);
    }
  }

  lemma SettlePair(w: World, db: Database, coalition: Coalition, done: seq<Row>, row: Row,
      before: set<Pair>, kept: set<Pair>, mid: set<Pair>, p: Pair)
    requires w.Symmetric() && RowsFor(w, db, coalition, done) && RowFor(w, db, coalition, row)
    requires p in mid <==> Settled(w, db, done, before, kept, p)
    requires p.0 in row.ids ==> (p in kept <==> p in before)
    ensures (if p.0 in row.ids then PairAfter(w, db, p, Elements(row.friends), p in mid) else p in mid)
            <==> Settled(w, db, done + [row], before, kept, p)
  {
    InSomeRowAppend(done, row, p.0);
    InEveryRowAppend(done, row, p);
    if p.0 in row.ids && p.1 in row.friends {
      FriendIsFoe(w, db, coalition, row, p.1);
      assert p.0 in db && db[p.0].contact.coalition == coalition.Opposite();
      hide RowFor, InSomeRow, InEveryRow;
      var d := w.distance(Position(db[p.1]), Position(db[p.0]));
      if Located(db[p.1]) && Located(db[p.0]) && d < ENTRY {
        CloseIsInEveryRow(w, db, coalition, done, p);
      }
    }
  }

  lemma SettleRow(w: World, db: Database, coalition: Coalition, done: seq<Row>, row: Row, before: set<Pair>,
      kept: set<Pair>, mid: Outcome, after: Outcome)
    requires w.Symmetric() && RowsFor(w, db, coalition, done) && RowFor(w, db, coalition, row)
    requires AllSettled(w, db, done, before, kept, mid)
    requires forall p: Pair :: p.0 in row.ids ==> (p in kept <==> p in before)
    requires forall p :: p in after.pairs <==>
                           if p.0 in row.ids then PairAfter(w, db, p, Elements(row.friends), p in mid.pairs)
                           else p in mid.pairs
    requires ReportsAreNew(mid.pairs, after.pairs, Elements(row.ids), after.reports)
    ensures AllSettled(w, db, done + [row], before, kept, Outcome(after.pairs, mid.reports + after.reports))
  {
    hide RowFor, RowsFor, PairAfter, Survives, InSomeRow;
    forall p: Pair
      ensures p in after.pairs <==> Settled(w, db, done + [row], before, kept, p)
    {
      SettlePair(w, db, coalition, done, row, before, kept, mid.pairs, p);
    }
    var all := mid.reports + after.reports;
    forall p: Pair
      ensures p in all <==> InSomeRow(done + [row], p.0) && p in after.pairs && p !in before
      ensures !(p in mid.reports && p in after.reports)
    {
      InSomeRowAppend(done, row, p.0);
      NewlyReported(w, db, coalition, done, row, before, kept, mid, after, p);
    }
    assert DistinctPairs(all) by {
      assert forall i :: 0 <= i < |mid.reports| ==> mid.reports[i] in mid.reports;
      assert forall i :: 0 <= i < |after.reports| ==> after.reports[i] in after.reports;
    }
  }

  /** A pair that was tracked when the tick began is never reported, and a reported pair stays. */
  lemma NewlyReported(w: World, db: Database, coalition: Coalition, done: seq<Row>, row: Row,
      before: set<Pair>, kept: set<Pair>, mid: Outcome, after: Outcome, p: Pair)
    requires w.Symmetric() && RowsFor(w, db, coalition, done) && RowFor(w, db, coalition, row)
    requires p in mid.pairs <==> Settled(w, db, done, before, kept, p)
    requires p.0 in row.ids ==> (p in kept <==> p in before)
    requires p in after.pairs <==>
             if p.0 in row.ids then PairAfter(w, db, p, Elements(row.friends), p in mid.pairs) else p in mid.pairs
    ensures p.0 in row.ids && p !in mid.pairs && p in after.pairs ==> p !in before
    ensures p in mid.pairs && p !in before && InSomeRow(done, p.0) ==> p in after.pairs
  {
    if p.0 in row.ids && p.1 in row.friends {
      FriendIsFoe(w, db, coalition, row, p.1);
      assert p.0 in db && db[p.0].contact.coalition == coalition.Opposite();
      if Located(db[p.1]) && Located(db[p.0]) && w.distance(Position(db[p.1]), Position(db[p.0])) < ENTRY {
        hide RowFor, InSomeRow, InEveryRow;
        CloseIsInEveryRow(w, db, coalition, done, p);
      }
    }
    if p.0 in row.ids && p in mid.pairs && p !in before && InSomeRow(done, p.0) {
      var i :| 0 <= i < |done| && p.0 in done[i].ids;
      assert p.1 in done[i].friends;
      FriendIsFoe(w, db, coalition, done[i], p.1);
      NearIsFriend(w, db, coalition, row, p.0, p.1);
    }
  }

  /** The friend list of a row as trackfiles. */
  function TracksOf(db: Database, ids: seq<nat>): (r: seq<Track>)
    requires forall id :: id in ids ==> id in db
    ensures |r| == |ids| && forall i :: 0 <= i < |ids| ==> ids[i] in db && r[i] == db[ids[i]]
  {
    seq(|ids|, i requires 0 <= i < |ids| => assert ids[i] in ids; db[ids[i]])
  }

  lemma TracksFromPicture(db: Database, ids: seq<nat>)
    requires WellKeyed(db) && Distinct(ids) && forall id :: id in ids ==> id in db
    ensures FromPicture(db, TracksOf(db, ids)) && Ids(TracksOf(db, ids)) == Elements(ids)
  {
    var tracks := TracksOf(db, ids);
    forall id | id in ids ensures id in Ids(tracks) {
      var i :| 0 <= i < |ids| && ids[i] == id;
      assert tracks[i].contact.id == id;
    }
  }

  /** Handling one row, as seen from the whole tick. */
  lemma GroupStepSettles(w: World, db: Database, coalition: Coalition, done: seq<Row>, row: Row,
      before: set<Pair>, kept: set<Pair>, mid: Outcome, friendlies: seq<Track>, after: Outcome)
    requires w.Symmetric() && WellKeyed(db) && RowsFor(w, db, coalition, done) && RowFor(w, db, coalition, row)
    requires AllSettled(w, db, done, before, kept, mid)
    requires forall p: Pair :: p.0 in row.ids ==> (p in kept <==> p in before)
    requires FromPicture(db, friendlies) && Ids(friendlies) == Elements(row.friends)
    requires after == GroupStep(w, db, Outcome(mid.pairs, []), row.ids, friendlies, |row.ids|)
    ensures AllSettled(w, db, done + [row], before, kept, Outcome(after.pairs, mid.reports + after.reports))
  {
    assert Distinct(row.ids) && forall h :: h in row.ids ==> h in db;
    hide RowFor, RowsFor, AllSettled, PairAfter, GroupStep;
    assert row.ids[..|row.ids|] == row.ids;
    forall p: Pair
      ensures p in after.pairs <==>
              if p.0 in row.ids then PairAfter(w, db, p, Elements(row.friends), p in mid.pairs) else p in mid.pairs
    {
      GroupStepPairs(w, db, Outcome(mid.pairs, []), row.ids, friendlies, |row.ids|, p);
    }
    GroupStepReports(w, db, mid.pairs, row.ids, friendlies, |row.ids|);
    SettleRow(w, db, coalition, done, row, before, kept, mid, after);
  }

  method HostileIDs(rows: seq<Row>) returns (ids: seq<nat>)
    ensures forall h :: h in ids <==> InSomeRow(rows, h)
  {
    hide InSomeRow;
    ids := [];
    assert forall h :: !InSomeRow([], h) by { NoRows(); }
    for i := 0 to |rows|
      invariant forall h :: h in ids <==> InSomeRow(rows[..i], h)
    {
      assert rows[..i + 1] == rows[..i] + [rows[i]];
      forall h ensures h in ids + rows[i].ids <==> InSomeRow(rows[..i + 1], h) {
        InSomeRowAppend(rows[..i], rows[i], h);
      }
      ids := ids + rows[i].ids;
    }
    assert rows[..|rows|] == rows;
  }

  lemma NoRows()
    ensures forall h :: !InSomeRow([], h)
  {
  }

  method BroadcastMerges(w: World, db: Database, coalition: Coalition, tracker: MergeTracker, audience: Audience)
    returns (calls: seq<seq<string>>, ghost reports: seq<Pair>, ghost parts: seq<seq<Pair>>)
    requires w.Symmetric() && WellKeyed(db) && tracker.Valid()
    modifies tracker
    ensures tracker.Valid()
    ensures Tick(w, db, coalition, old(Pairs(tracker.merged)), Pairs(tracker.merged), reports)
    ensures CallsFor(audience, db, reports, calls)
    ensures Flat(parts) == reports && CallPerPart(audience, db, parts, calls)
    ensures OneGroupEach(w, db, coalition, parts)
  {
    hide CallsFor, CallPerPart, OneGroupEach, Flat, Pairs, RowFor, GroupStep, MergeRows, AllSettled,
         InSomeRow, RowsOf, Tick, RowsFor;
    var groups, rows, contents := FindMerges(w, db, coalition);
    ghost var before := Pairs(tracker.merged);
    var hostileIDs := HostileIDs(rows);
    tracker.Keep(hostileIDs);
    ghost var kept := Pairs(tracker.merged);
    calls, reports, parts := [], [], [];
    NoCalls(audience, db);
    NoParts(w, db, coalition, audience);
    ghost var done: seq<Row> := [];
    var order := Iterate(map i: nat | i < |rows| :: rows[i]);
    StartSettled(w, db, before, kept);
    for k := 0 to |order|
      invariant tracker.Valid()
      invariant SameRows(rows, order, k, done)
      invariant AllSettled(w, db, done, before, kept, Outcome(Pairs(tracker.merged), reports))
      invariant CallsFor(audience, db, reports, calls)
      invariant Flat(parts) == reports && CallPerPart(audience, db, parts, calls)
      invariant OneGroupEach(w, db, coalition, parts)
    {
      assert order[k] in order;
      var row := rows[order[k]];
      ghost var mid := Outcome(Pairs(tracker.merged), reports);
      RowFacts(w, db, coalition, rows, order, k, done);
      var friendlies := TracksOf(db, row.friends);
      TracksFromPicture(db, row.friends);
      var newMergedFriendlies, more := UpdateMergesForGroup(w, db, tracker, row.ids, friendlies);
      KeptInRow(rows, order[k], hostileIDs, before, kept);
      GroupStepSettles(w, db, coalition, done, row, before, kept, mid, friendlies,
        Outcome(Pairs(tracker.merged), more));
      var callsigns := CreateMergedCall(audience, newMergedFriendlies);
      MergedFromPicture(db, friendlies, more, newMergedFriendlies);
      CallsGrow(audience, db, reports, calls, more, newMergedFriendlies, callsigns);
      OneMorePart(audience, db, parts, calls, more, newMergedFriendlies, callsigns);
      ReportsOfRow(w, db, coalition, rows, order[k], mid.pairs, friendlies, more);
      OneMoreGroup(w, db, coalition, parts, row, more);
      if callsigns != [] {
        calls := calls + [callsigns];
      }
      done, reports, parts := done + [row], reports + more, parts + [more];
    }
    TickIsDone(w, db, coalition, rows, order, done, before, kept, Outcome(Pairs(tracker.merged), reports));
  }

  /** The reports of one reported group. */
  ghost predicate OfOneGroup(w: World, db: Database, coalition: Coalition, part: seq<Pair>) {
    exists row :: GoodRow(w, db, coalition, row) && forall p :: p in part ==> p.0 in row.ids
  }

  ghost predicate OneGroupEach(w: World, db: Database, coalition: Coalition, parts: seq<seq<Pair>>) {
    forall i :: 0 <= i < |parts| ==> OfOneGroup(w, db, coalition, parts[i])
  }

  lemma NoParts(w: World, db: Database, coalition: Coalition, a: Audience)
    ensures Flat([]) == [] && CallPerPart(a, db, [], []) && OneGroupEach(w, db, coalition, [])
  {
  }

  lemma OneMoreGroup(w: World, db: Database, coalition: Coalition, parts: seq<seq<Pair>>, row: Row, more: seq<Pair>)
    requires OneGroupEach(w, db, coalition, parts)
    requires GoodRow(w, db, coalition, row) && forall p :: p in more ==> p.0 in row.ids
    ensures OneGroupEach(w, db, coalition, parts + [more])
  {
    hide GoodRow;
    assert OfOneGroup(w, db, coalition, more);
    hide OfOneGroup;
  }

  /** The reports of a row are of its hostiles. */
  lemma ReportsOfRow(w: World, db: Database, coalition: Coalition, rows: seq<Row>, i: nat, pairs: set<Pair>,
      friendlies: seq<Track>, more: seq<Pair>)
    requires MergeRows(w, db, coalition, rows) && i < |rows| && FromPicture(db, friendlies)
    requires more == GroupStep(w, db, Outcome(pairs, []), rows[i].ids, friendlies, |rows[i].ids|).reports
    ensures GoodRow(w, db, coalition, rows[i]) && forall p :: p in more ==> p.0 in rows[i].ids
  {
    var ids := rows[i].ids;
    assert GoodRow(w, db, coalition, rows[i]);
    assert Distinct(ids) && forall h :: h in ids ==> h in db;
    hide GroupStep, GoodRow, MergeRows;
    GroupStepReports(w, db, pairs, ids, friendlies, |ids|);
    assert ids[..|ids|] == ids;
    forall p | p in more ensures p.0 in ids {
      assert p.0 in Elements(ids);
    }
  }

  lemma MergedFromPicture(db: Database, friendlies: seq<Track>, reports: seq<Pair>, merged: seq<Track>)
    requires FromPicture(db, friendlies) && SameFriends(reports, merged, friendlies)
    ensures |reports| == |merged|
    ensures forall i :: 0 <= i < |reports| ==> reports[i].1 in db && db[reports[i].1] == merged[i]
  {
    forall i | 0 <= i < |reports| ensures reports[i].1 in db && db[reports[i].1] == merged[i] {
      assert merged[i] in friendlies;
    }
  }

  lemma StartSettled(w: World, db: Database, before: set<Pair>, kept: set<Pair>)
    ensures AllSettled(w, db, [], before, kept, Outcome(kept, []))
  {
  }

  /** The rows handled after `k` groups. */
  ghost predicate SameRows(rows: seq<Row>, order: seq<nat>, k: nat, done: seq<Row>) {
    && k <= |order| && |done| == k
    && forall i :: 0 <= i < k ==> order[i] < |rows| && done[i] == rows[order[i]]
  }

  lemma RowFacts(w: World, db: Database, coalition: Coalition, rows: seq<Row>, order: seq<nat>, k: nat,
      done: seq<Row>)
    requires MergeRows(w, db, coalition, rows) && SameRows(rows, order, k, done) && k < |order| && order[k] < |rows|
    ensures RowFor(w, db, coalition, rows[order[k]]) && RowsFor(w, db, coalition, done)
    ensures Distinct(rows[order[k]].friends)
    ensures forall f :: f in rows[order[k]].friends ==> f in db
  {
    forall f | f in rows[order[k]].friends ensures f in db {
      FriendIsFoe(w, db, coalition, rows[order[k]], f);
    }
  }

  lemma KeptInRow(rows: seq<Row>, i: nat, hostileIDs: seq<nat>, before: set<Pair>, kept: set<Pair>)
    requires i < |rows| && forall h :: h in hostileIDs <==> InSomeRow(rows, h)
    requires kept == set p | p in before && p.0 in hostileIDs
    ensures forall p: Pair :: p.0 in rows[i].ids ==> (p in kept <==> p in before)
  {
    forall p: Pair | p.0 in rows[i].ids ensures p in kept <==> p in before {
      assert InSomeRow(rows, p.0);
    }
  }

  lemma SameRowsHold(rows: seq<Row>, order: seq<nat>, done: seq<Row>, h: nat)
    requires SameRows(rows, order, |order|, done) && forall i :: i in order <==> 0 <= i < |rows|
    ensures InSomeRow(rows, h) <==> InSomeRow(done, h)
  {
    if i :| 0 <= i < |rows| && h in rows[i].ids {
      assert i in order;
      var k :| 0 <= k < |order| && order[k] == i;
      assert done[k] == rows[i];
    }
    if k :| 0 <= k < |done| && h in done[k].ids {
      assert done[k] == rows[order[k]];
    }
  }

  lemma DoneIsMergeRows(w: World, db: Database, coalition: Coalition, rows: seq<Row>, order: seq<nat>, done: seq<Row>)
    requires MergeRows(w, db, coalition, rows) && SameRows(rows, order, |order|, done)
    requires forall i :: i in order <==> 0 <= i < |rows|
    ensures MergeRows(w, db, coalition, done)
  {
    hide GoodRow, InSomeRow, HasFoe, Eligible;
    forall k | 0 <= k < |done| ensures GoodRow(w, db, coalition, done[k]) {
      assert done[k] == rows[order[k]];
    }
    forall h | h in db && Eligible(w, db[h], coalition) && HasFoe(w, db, h) ensures InSomeRow(done, h) {
      SameRowsHold(rows, order, done, h);
    }
  }

  lemma TickIsDone(w: World, db: Database, coalition: Coalition, rows: seq<Row>, order: seq<nat>,
      done: seq<Row>, before: set<Pair>, kept: set<Pair>, o: Outcome)
    requires MergeRows(w, db, coalition, rows) && SameRows(rows, order, |order|, done)
    requires forall i :: i in order <==> 0 <= i < |rows|
    requires forall p :: p in kept ==> InSomeRow(rows, p.0)
    requires AllSettled(w, db, done, before, kept, o)
    ensures Tick(w, db, coalition, before, o.pairs, o.reports)
  {
    hide MergeRows, InSomeRow, Survives, SameRows;
    DoneIsMergeRows(w, db, coalition, rows, order, done);
    forall p: Pair
      ensures p in o.pairs <==> Survives(w, db, done, before, p)
      ensures p in o.pairs ==> InSomeRow(done, p.0)
    {
      SameRowsHold(rows, order, done, p.0);
      SurvivesIsSettled(w, db, done, before, kept, p);
    }
    assert TickWith(w, db, done, before, o.pairs, o.reports);
  }

  lemma SurvivesIsSettled(w: World, db: Database, done: seq<Row>, before: set<Pair>, kept: set<Pair>, p: Pair)
    requires p in kept ==> InSomeRow(done, p.0)
    ensures Settled(w, db, done, before, kept, p) <==> Survives(w, db, done, before, p)
    ensures Settled(w, db, done, before, kept, p) ==> InSomeRow(done, p.0)
  {
  }

  // ---------------------------------------------------------------- the automaton

  ghost function Range(w: World, db: Database, p: Pair): real
    requires p.0 in db && p.1 in db
  {
    w.distance(Position(db[p.1]), Position(db[p.0]))
  }

  /** Red and blue oppose each other, and neutrals only themselves. */
  ghost predicate Opposed(a: Coalition, b: Coalition) {
    (a == Red && b == Blue) || (a == Blue && b == Red) || (a == Neutrals && b == Neutrals)
  }

  /** A located opposing contact that is not known to be a helicopter, and a located contact of another
      coalition. */
  ghost predicate Engaged(w: World, db: Database, coalition: Coalition, p: Pair) {
    && p.0 in db && p.1 in db && Located(db[p.0]) && Located(db[p.1])
    && Opposed(coalition, db[p.0].contact.coalition)
    && db[p.1].contact.coalition != db[p.0].contact.coalition
    && var data := w.encyclopedia(db[p.0].contact.acmiName);
       data.Some? && RotaryWingTag in data.value.tags ==> FixedWingTag in data.value.tags
  }

  lemma EngagedIsEligible(w: World, db: Database, coalition: Coalition, p: Pair)
    ensures Engaged(w, db, coalition, p) <==>
            && p.0 in db && p.1 in db && Eligible(w, db[p.0], coalition)
            && Located(db[p.1]) && db[p.1].contact.coalition != db[p.0].contact.coalition
  {
  }

  /** A tick implements the hysteresis automaton on every engaged pair that is not at exactly 5 NM,
      for every grouping and every order. */
  lemma HysteresisAutomaton(w: World, db: Database, coalition: Coalition, before: set<Pair>,
      after: set<Pair>, reports: seq<Pair>, p: Pair)
    requires w.Symmetric() && Tick(w, db, coalition, before, after, reports)
    requires Engaged(w, db, coalition, p) && Range(w, db, p) != 5.0 * 1852.0
    ensures p in after <==> Range(w, db, p) < 3.0 * 1852.0 || (p in before && Range(w, db, p) < 5.0 * 1852.0)
    ensures p in reports <==> p !in before && Range(w, db, p) < 3.0 * 1852.0
  {
    EngagedIsEligible(w, db, coalition, p);
    var rows: seq<Row> :| MergeRows(w, db, coalition, rows) && TickWith(w, db, rows, before, after, reports);
    if Range(w, db, p) < EXIT {
      assert RowsFor(w, db, coalition, rows);
      assert p.1 in NearOne(w, db, db[p.0]) by {
        assert w.distance(Position(db[p.0]), Position(db[p.1])) == Range(w, db, p);
      }
      NearHasFoe(w, db, p.0, p.1);
      assert InSomeRow(rows, p.0);
      CloseIsInEveryRow(w, db, coalition, rows, p);
    }
  }

  /** At exactly 5 NM a merged pair stays merged exactly if its hostile is in some reported group and
      every such group has a member inside 5 NM of the other contact. */
  lemma ExactlyFiveMiles(w: World, db: Database, coalition: Coalition, rows: seq<Row>, before: set<Pair>,
      after: set<Pair>, reports: seq<Pair>, p: Pair)
    requires MergeRows(w, db, coalition, rows) && TickWith(w, db, rows, before, after, reports)
    requires Engaged(w, db, coalition, p) && Range(w, db, p) == 5.0 * 1852.0
    ensures p in after <==>
            && p in before && InSomeRow(rows, p.0)
            && forall i :: 0 <= i < |rows| && p.0 in rows[i].ids ==> HasMemberNear(w, db, rows[i], p.1)
    ensures p !in reports
  {
    EngagedIsEligible(w, db, coalition, p);
    forall i | 0 <= i < |rows| ensures p.1 in rows[i].friends <==> HasMemberNear(w, db, rows[i], p.1) {
      MemberNear(w, db, coalition, rows[i], p.1);
    }
  }

  ghost predicate HasMemberNear(w: World, db: Database, row: Row, f: nat) {
    f in db && exists h :: h in row.ids && h in db && NearFoe(w, db[h], db[f])
  }

  lemma MemberNear(w: World, db: Database, coalition: Coalition, row: Row, f: nat)
    requires RowFor(w, db, coalition, row)
    ensures f in row.friends <==> HasMemberNear(w, db, row, f)
  {
    hide NearFoe;
    assert f in row.friends <==> f in FoesOf(w, db, Elements(row.ids)) by {
      assert f in row.friends <==> f in Elements(row.friends);
    }
    if f in FoesOf(w, db, Elements(row.ids)) {
      var h :| h in Elements(row.ids) && h in db && f in NearOne(w, db, db[h]);
      assert h in row.ids && NearFoe(w, db[h], db[f]);
    }
    if HasMemberNear(w, db, row, f) {
      var h :| h in row.ids && h in db && NearFoe(w, db[h], db[f]);
      assert h in Elements(row.ids) && f in NearOne(w, db, db[h]);
    }
  }

  /** Only engaged-looking pairs survive a tick: opposing hostile, other coalition, both located, at
      most 5 NM apart, and under 3 NM if newly merged. */
  lemma TrackedPairsAreClose(w: World, db: Database, coalition: Coalition, before: set<Pair>,
      after: set<Pair>, reports: seq<Pair>, p: Pair)
    requires Tick(w, db, coalition, before, after, reports) && p in after
    ensures p.0 in db && p.1 in db && Located(db[p.0]) && Located(db[p.1])
    ensures db[p.0].contact.coalition == coalition.Opposite() && db[p.1].contact.coalition != coalition.Opposite()
    ensures Range(w, db, p) <= 5.0 * 1852.0
    ensures p in reports ==> Range(w, db, p) < 3.0 * 1852.0
  {
    var rows: seq<Row> :| MergeRows(w, db, coalition, rows) && TickWith(w, db, rows, before, after, reports);
    assert Survives(w, db, rows, before, p);
    var i :| 0 <= i < |rows| && p.0 in rows[i].ids;
    assert RowFor(w, db, coalition, rows[i]);
    FriendIsFoe(w, db, coalition, rows[i], p.1);
  }

  // ---------------------------------------------------------------- whole runs

  datatype Step = Ticked(db: Database, reports: seq<Pair>) | Removed(id: nat) | WasReset

  ghost predicate Next(w: World, coalition: Coalition, before: set<Pair>, step: Step, after: set<Pair>) {
    match step
    case Ticked(db, reports) => Tick(w, db, coalition, before, after, reports)
    case Removed(id) => after == WithoutID(before, id)
    case WasReset => after == {}
  }

  ghost predicate IsRun(w: World, coalition: Coalition, states: seq<set<Pair>>, steps: seq<Step>) {
    && |states| == |steps| + 1
    && forall i, j :: 0 <= i < |steps| && j == i + 1 ==> Next(w, coalition, states[i], steps[i], states[j])
  }

  ghost predicate Reports(step: Step, p: Pair) {
    step.Ticked? && p in step.reports
  }

  /** A tick at 5 NM or more or without an engagement, a removal that touches the pair, or a reset. */
  ghost predicate Breaks(w: World, coalition: Coalition, step: Step, p: Pair) {
    match step
    case Ticked(db, _) => !(Engaged(w, db, coalition, p) && Range(w, db, p) < 5.0 * 1852.0)
    case Removed(id) => id == p.0 || id == p.1
    case WasReset => true
  }

  /** A merged pair stays merged until something breaks it. */
  lemma {:induction false} MergedUntilBroken(w: World, coalition: Coalition, states: seq<set<Pair>>,
      steps: seq<Step>, p: Pair, i: nat, j: nat)
    requires w.Symmetric() && IsRun(w, coalition, states, steps) && i <= j < |states|
    requires p in states[i] && forall k :: i <= k < j ==> !Breaks(w, coalition, steps[k], p)
    ensures p in states[j]
  {
    hide Tick, Eligible;
    if i < j {
      MergedUntilBroken(w, coalition, states, steps, p, i, j - 1);
      var step := steps[j - 1];
      assert !Breaks(w, coalition, step, p);
      assert Next(w, coalition, states[j - 1], step, states[j]);
      if step.Ticked? {
        HysteresisAutomaton(w, step.db, coalition, states[j - 1], states[j], step.reports, p);
      }
    }
  }

  /** Between two reports of one pair something broke the merge. */
  lemma ReportsAreSeparated(w: World, coalition: Coalition, states: seq<set<Pair>>, steps: seq<Step>,
      p: Pair, i: nat, j: nat)
    requires w.Symmetric() && IsRun(w, coalition, states, steps)
    requires i < j < |steps| && Reports(steps[i], p) && Reports(steps[j], p)
    ensures exists k :: i < k < j && Breaks(w, coalition, steps[k], p)
  {
    assert Next(w, coalition, states[i], steps[i], states[i + 1]);
    assert Next(w, coalition, states[j], steps[j], states[j + 1]);
    assert p in states[i + 1] && p !in states[j];
    if forall k :: i + 1 <= k < j ==> !Breaks(w, coalition, steps[k], p) {
      MergedUntilBroken(w, coalition, states, steps, p, i + 1, j);
    }
  }

  /** A report comes at most once per tick, and only under 3 NM. */
  lemma ReportsAreEntries(w: World, coalition: Coalition, states: seq<set<Pair>>, steps: seq<Step>, i: nat)
    requires IsRun(w, coalition, states, steps) && i < |steps| && steps[i].Ticked?
    ensures DistinctPairs(steps[i].reports)
    ensures forall p :: p in steps[i].reports ==>
                          && p.0 in steps[i].db && p.1 in steps[i].db
                          && Range(w, steps[i].db, p) < 3.0 * 1852.0
                          && p !in states[i] && p in states[i + 1]
  {
    assert Next(w, coalition, states[i], steps[i], states[i + 1]);
    forall p | p in steps[i].reports
      ensures && p.0 in steps[i].db && p.1 in steps[i].db && Range(w, steps[i].db, p) < 3.0 * 1852.0
              && p !in states[i] && p in states[i + 1]
    {
      TrackedPairsAreClose(w, steps[i].db, coalition, states[i], states[i + 1], steps[i].reports, p);
    }
  }
}
