/**
 What must happen between two reports of one pair. Helicopters are not looked for in a merge search,
 but an aircraft without a wing tag can take them into its group. If no type in the encyclopedia
 leads to that, two reports of a pair are always separated by a parting of the two contacts.
 */
module MergeSeparation {
  import opened Tracks
  import opened Grouping
  import opened Merges
  import opened MergeTracking
  import opened MergeTick
  import opened MergeProtocol
  import opened MergeBoundary
  import opened MergeExamples

  type Encyclopedia = string -> Option<Aircraft>

  /** A tick at 5 NM or more, or with one of the two untracked or unlocated; a removal of one of them; or
      a reset. */
  ghost predicate Parts(w: World, step: Step, p: Pair) {
    match step
    case Ticked(db, _) =>
      !(p.0 in db && p.1 in db && Located(db[p.0]) && Located(db[p.1]) && Range(w, db, p) < 5.0 * 1852.0)
    case Removed(id) => id == p.0 || id == p.1
    case WasReset => true
  }

  /** The contact keeps its labels. */
  ghost predicate SameLabels(steps: seq<Step>, id: nat) {
    forall i, j :: 0 <= i < |steps| && 0 <= j < |steps| && steps[i].Ticked? && steps[j].Ticked?
                   && id in steps[i].db && id in steps[j].db ==>
                     steps[i].db[id].contact == steps[j].db[id].contact
  }

  // ---------------------------------------------------------------- helicopters in groups

  predicate Helicopter(data: Option<Aircraft>) {
    data.Some? && AircraftCategory(data.value) == RotaryWing
  }

  predicate Wingless(data: Option<Aircraft>) {
    data.Some? && AircraftCategory(data.value) == AnyAircraft
  }

  /** An aircraft of the first type accepts one of the second, wings aside. */
  predicate Accepts(e: Encyclopedia, from: string, to: string) {
    RoleOf(e(from)).Some? ==> e(to).Some? && RoleOf(e(from)).value in e(to).value.tags
  }

  /** Types along which an aircraft without a wing tag takes in a helicopter. */
  ghost predicate Draws(e: Encyclopedia, names: seq<string>) {
    && |names| > 0 && Wingless(e(names[0])) && Helicopter(e(names[|names| - 1]))
    && forall i, j :: 0 <= i < j < |names| && j == i + 1 ==> Accepts(e, names[i], names[j])
  }

  /** Every known aircraft has a wing tag. */
  ghost predicate WingTagged(e: Encyclopedia) {
    forall name :: !Wingless(e(name))
  }

  ghost function TypesOf(db: Database, ids: seq<nat>): (names: seq<string>)
    requires forall i :: 0 <= i < |ids| ==> ids[i] in db
    ensures |names| == |ids| && forall i :: 0 <= i < |ids| ==> names[i] == db[ids[i]].contact.acmiName
  {
    seq(|ids|, i requires 0 <= i < |ids| => db[ids[i]].contact.acmiName)
  }

  /** A reported group with a helicopter comes from a chain of types. */
  lemma HelicopterIsDrawn(w: World, db: Database, coalition: Coalition, row: Row, h: nat) returns (names: seq<string>)
    requires WellKeyed(db) && RealRow(w, db, coalition, row) && h in row.ids && h in db
    requires Helicopter(w.encyclopedia(db[h].contact.acmiName))
    ensures Draws(w.encyclopedia, names)
  {
    var cs: seq<Track> :| RowOf(w, db, coalition, cs, row);
    assert View(db, cs[0]) == db;
    assert h in Ids(cs);
    var i :| 0 <= i < |cs| && cs[i].contact.id == h;
    assert cs[i] == db[h];
    SeedIsWingless(w, db, coalition, cs, i);
    var ids: seq<nat> :| Path(w, db, cs[0], ids) && ids[|ids| - 1] == h;
    hide *;
    names := PathDraws(w, db, cs[0], ids);
  }

  lemma PathDraws(w: World, db: Database, seed: Track, ids: seq<nat>) returns (names: seq<string>)
    requires seed.contact.id in db && db[seed.contact.id] == seed && Path(w, db, seed, ids)
    requires Wingless(w.encyclopedia(seed.contact.acmiName))
    requires ids[|ids| - 1] in db && Helicopter(w.encyclopedia(db[ids[|ids| - 1]].contact.acmiName))
    ensures Draws(w.encyclopedia, names)
  {
    hide Wingless, Helicopter, IsValidTrack;
    assert View(db, seed) == db;
    names := TypesOf(db, ids);
    forall x, y | 0 <= x < y < |names| && y == x + 1 ensures Accepts(w.encyclopedia, names[x], names[y]) {
      assert Links(w, SeedCategory(w, seed), db[ids[x]], db[ids[y]]);
    }
  }

  lemma SeedIsWingless(w: World, db: Database, coalition: Coalition, cs: seq<Track>, i: nat)
    requires WellKeyed(db) && IsGroup(w, db, cs) && Eligible(w, cs[0], coalition)
    requires i < |cs| && Helicopter(w.encyclopedia(cs[i].contact.acmiName))
    ensures Wingless(w.encyclopedia(cs[0].contact.acmiName))
  {
    hide IsGroup;
    if i > 0 {
      MembersAreAlike(w, db, cs, i);
    }
  }

  // ---------------------------------------------------------------- partings

  ghost predicate NoDraws(e: Encyclopedia) {
    forall names :: !Draws(e, names)
  }

  lemma WingTaggedHasNoDraws(e: Encyclopedia)
    requires WingTagged(e)
    ensures NoDraws(e)
  {
  }

  /** A tracked pair is engaged, unless a helicopter was drawn in. */
  lemma TrackedIsEngaged(w: World, db: Database, coalition: Coalition, before: set<Pair>, after: set<Pair>,
      reports: seq<Pair>, p: Pair)
    requires Tick(w, db, coalition, before, after, reports) && p in after
    requires NoDraws(w.encyclopedia) || (p.0 in db && !Helicopter(w.encyclopedia(db[p.0].contact.acmiName)))
    ensures Engaged(w, db, coalition, p)
  {
    TrackedPairsAreClose(w, db, coalition, before, after, reports, p);
    var rows: seq<Row> :| MergeRows(w, db, coalition, rows) && TickWith(w, db, rows, before, after, reports);
    assert Survives(w, db, rows, before, p);
    var i :| 0 <= i < |rows| && p.0 in rows[i].ids;
    assert GoodRow(w, db, coalition, rows[i]);
    if Helicopter(w.encyclopedia(db[p.0].contact.acmiName)) {
      var names := HelicopterIsDrawn(w, db, coalition, rows[i], p.0);
      assert false;
    }
  }

  /** Contacts that keep their labels stay engaged until they part. */
  lemma EngagedUntilParted(w: World, coalition: Coalition, a: Database, b: Database, p: Pair)
    requires Engaged(w, a, coalition, p) && p.0 in b && p.1 in b
    requires a[p.0].contact == b[p.0].contact && a[p.1].contact == b[p.1].contact
    requires Located(b[p.0]) && Located(b[p.1])
    ensures Engaged(w, b, coalition, p)
  {
  }

  /** Between two reports of a pair the two contacts parted, if they keep their labels and the hostile is
      not a known helicopter, or if the encyclopedia draws no helicopter into a group. */
  lemma ReportsArePartings(w: World, coalition: Coalition, states: seq<set<Pair>>, steps: seq<Step>, p: Pair,
      i: nat, j: nat)
    requires w.Symmetric() && IsRun(w, coalition, states, steps)
    requires i < j < |steps| && Reports(steps[i], p) && Reports(steps[j], p)
    requires SameLabels(steps, p.0) && SameLabels(steps, p.1)
    requires NoDraws(w.encyclopedia)
             || (p.0 in steps[i].db && !Helicopter(w.encyclopedia(steps[i].db[p.0].contact.acmiName)))
    ensures exists k :: i < k < j && Parts(w, steps[k], p)
  {
    hide Tick, Engaged, NoDraws;
    ReportsAreSeparated(w, coalition, states, steps, p, i, j);
    var k :| i < k < j && Breaks(w, coalition, steps[k], p);
    if !Parts(w, steps[k], p) {
      var db := steps[i].db;
      assert Next(w, coalition, states[i], steps[i], states[i + 1]);
      ReportedIsTracked(w, db, coalition, states[i], states[i + 1], steps[i].reports, p);
      TrackedIsEngaged(w, db, coalition, states[i], states[i + 1], steps[i].reports, p);
      EngagedIsTracked(w, db, coalition, p);
      EngagedUntilParted(w, coalition, db, steps[k].db, p);
      assert false;
    }
  }

  lemma ReportedIsTracked(w: World, db: Database, coalition: Coalition, before: set<Pair>, after: set<Pair>,
      reports: seq<Pair>, p: Pair)
    requires Tick(w, db, coalition, before, after, reports) && p in reports
    ensures p in after
  {
  }

  lemma EngagedIsTracked(w: World, db: Database, coalition: Coalition, p: Pair)
    requires Engaged(w, db, coalition, p)
    ensures p.0 in db && p.1 in db
  {
  }

  // ---------------------------------------------------------------- removals

  /** No ID is on both sides. */
  ghost predicate TwoSided(ps: set<Pair>) {
    forall p, q :: p in ps && q in ps ==> p.0 != q.1
  }

  /** No ID is ever on both sides of the tracker, without any condition on labels. */
  lemma {:induction false} RunsAreTwoSided(w: World, coalition: Coalition, states: seq<set<Pair>>,
      steps: seq<Step>, i: nat)
    requires IsRun(w, coalition, states, steps) && states[0] == {} && i < |states|
    ensures TwoSided(states[i])
  {
    hide Tick;
    if i > 0 {
      RunsAreTwoSided(w, coalition, states, steps, i - 1);
      var step := steps[i - 1];
      assert Next(w, coalition, states[i - 1], step, states[i]);
      if step.Ticked? {
        forall p, q | p in states[i] && q in states[i] ensures p.0 != q.1 {
          TrackedPairsAreClose(w, step.db, coalition, states[i - 1], states[i], step.reports, p);
          TrackedPairsAreClose(w, step.db, coalition, states[i - 1], states[i], step.reports, q);
        }
      }
    }
  }

  /** Over every run from the empty tracker, a removal forgets the ID. */
  lemma RemovalForgets(w: World, coalition: Coalition, states: seq<set<Pair>>, steps: seq<Step>, i: nat, id: nat)
    requires IsRun(w, coalition, states, steps) && states[0] == {} && i < |steps| && steps[i] == Removed(id)
    ensures !Mentions(states[i + 1], id)
  {
    hide Tick;
    RunsAreTwoSided(w, coalition, states, steps, i);
    assert Next(w, coalition, states[i], steps[i], states[i + 1]);
    RemoveForgets(states[i], id);
  }

  // ---------------------------------------------------------------- the converse

  /** The helicopter at the end of the chain is at A; the others are elsewhere. */
  function Spot(names: seq<string>, i: nat): Point {
    if i + 1 == |names| then A else Point(10.0 + i as real, 0.0)
  }

  /** One contact for each type of the chain, and a friendly after them. */
  function Chain(names: seq<string>): Database {
    map id: nat | id <= |names| ::
      if id < |names| then Moving(id, Red, names[id], Spot(names, id)) else Moving(id, Blue, "", B)
  }

  /** Only the helicopter and the friendly. */
  function Last(names: seq<string>): Database
    requires |names| > 0
  {
    map id: nat | |names| - 1 <= id <= |names| :: Chain(names)[id]
  }

  const GAP := 2.0 * NAUTICAL_MILE

  lemma ChainLink(sqrt: real -> real, e: Encyclopedia, names: seq<string>, i: nat)
    requires Draws(e, names) && i + 1 < |names|
    ensures var w, db := ExampleWorld(e, sqrt, GAP), Chain(names);
            Links(w, SeedCategory(w, db[0]), db[i], db[i + 1])
  {
    var w, db := ExampleWorld(e, sqrt, GAP), Chain(names);
    MovingIsValid(e, sqrt, GAP, db[i + 1]);
    hide IsValidTrack;
    assert Accepts(e, names[i], names[i + 1]);
    assert w.distance(Position(db[i + 1]), Position(db[i])) < SPREAD;
  }

  lemma {:induction false} ChainIsReached(sqrt: real -> real, e: Encyclopedia, names: seq<string>, i: nat)
    requires Draws(e, names) && i < |names|
    ensures i in ReachSet(ExampleWorld(e, sqrt, GAP), Chain(names), Chain(names)[0])
  {
    var w, db := ExampleWorld(e, sqrt, GAP), Chain(names);
    assert View(db, db[0]) == db;
    hide ReachSet;
    if i == 0 {
      ReachSelf(w, db, db[0]);
    } else {
      ChainIsReached(sqrt, e, names, i - 1);
      ChainLink(sqrt, e, names, i - 1);
      hide Links;
      ReachStep(w, db, db[0], i - 1, i);
    }
  }

  /** A picture whose contacts up to `k` are hostile and reached from the first; the last of them is merged
      with the friendly `k`, and no other is close enough for that. */
  ghost predicate Drawing(w: World, db: Database, k: nat) {
    && k > 0 && WellKeyed(db) && (forall id :: id in db <==> 0 <= id <= k)
    && (forall h :: 0 <= h < k ==> db[h].contact.coalition == Red && h in ReachSet(w, db, db[0]))
    && db[k].contact.coalition == Blue
    && Eligible(w, db[0], Blue) && NearFoe(w, db[k - 1], db[k])
    && forall h :: 0 <= h < k ==> (Stays(w, db[h], db[k], false) <==> h == k - 1)
  }

  lemma ChainIsDrawing(sqrt: real -> real, e: Encyclopedia, names: seq<string>)
    requires Draws(e, names)
    ensures Drawing(ExampleWorld(e, sqrt, GAP), Chain(names), |names|)
  {
    var w, db, k := ExampleWorld(e, sqrt, GAP), Chain(names), |names|;
    assert forall h :: 0 <= h < k ==> (Stays(w, db[h], db[k], false) <==> h == k - 1);
    assert NearFoe(w, db[k - 1], db[k]) && Eligible(w, db[0], Blue);
    hide Stays, NearFoe, Eligible, ReachSet, ExampleWorld;
    forall i: nat | i < k ensures i in ReachSet(w, db, db[0]) {
      ChainIsReached(sqrt, e, names, i);
    }
  }

  lemma DrawingHasFoe(w: World, db: Database, k: nat)
    requires Drawing(w, db, k)
    ensures HasFoe(w, db, 0)
  {
    hide ReachSet, NearFoe, Eligible, Stays;
    assert k in NearOne(w, db, db[k - 1]);
    assert k in FoesOf(w, db, ReachSet(w, db, db[0]));
  }

  lemma DrawingSeeds(w: World, db: Database, k: nat)
    requires Drawing(w, db, k)
    ensures WellKeyed(db) && 0 in db && Eligible(w, db[0], Blue)
    ensures forall h :: h in db && Eligible(w, db[h], Blue) ==> 0 <= h < k
  {
    hide ReachSet, NearFoe, Stays;
  }

  /** One row holds all the hostiles. */
  lemma DrawingRow(w: World, db: Database, k: nat) returns (row: Row)
    requires Drawing(w, db, k)
    ensures MergeRows(w, db, Blue, [row])
    ensures forall h :: h in row.ids <==> 0 <= h < k
    ensures forall f :: f in row.friends <==> f == k
  {
    hide *;
    DrawingHasFoe(w, db, k);
    DrawingSeeds(w, db, k);
    row := RowFromSeed(w, db, Blue, 0);
    RowOfDrawing(w, db, k, row);
    OneRow(w, db, Blue, row);
  }

  lemma RowOfDrawing(w: World, db: Database, k: nat, row: Row)
    requires Drawing(w, db, k) && GoodRow(w, db, Blue, row) && Elements(row.ids) == ReachSet(w, db, db[0])
    ensures forall h :: h in row.ids <==> 0 <= h < k
    ensures forall f :: f in row.friends <==> f == k
  {
    hide ReachSet, NearFoe, Stays, Eligible, RealRow;
    forall f | f in row.friends ensures f == k {
      FriendIsFoe(w, db, Blue, row, f);
    }
    assert row.friends[0] in row.friends;
    forall h | h in row.ids ensures 0 <= h < k {
      assert h in db && db[h].contact.coalition == Red;
    }
    forall h | 0 <= h < k ensures h in row.ids {
      assert h in Elements(row.ids);
    }
  }

  lemma DrawingStays(w: World, db: Database, k: nat)
    requires Drawing(w, db, k)
    ensures k > 0 && k in db
    ensures forall h :: 0 <= h < k ==> h in db && (Stays(w, db[h], db[k], false) <==> h == k - 1)
  {
    hide ReachSet, NearFoe, Eligible, Stays;
  }

  lemma DrawingTick(w: World, db: Database, k: nat)
    requires Drawing(w, db, k)
    ensures k > 0 && Tick(w, db, Blue, {}, {(k - 1, k)}, [(k - 1, k)])
  {
    hide Drawing, Stays, MergeRows, Survives;
    DrawingStays(w, db, k);
    var p: Pair := (k - 1, k);
    var row := DrawingRow(w, db, k);
    forall q: Pair ensures q in {p} <==> Survives(w, db, [row], {}, q) {
      OneRowSurvives(w, db, row, {}, q);
      assert q == (q.0, q.1);
    }
    assert TickWith(w, db, [row], {}, {p}, [p]);
  }

  lemma LastTick(sqrt: real -> real, e: Encyclopedia, names: seq<string>)
    requires Draws(e, names)
    ensures var p := (|names| - 1, |names|);
            Tick(ExampleWorld(e, sqrt, GAP), Last(names), Blue, {p}, {}, [])
  {
    var w, db := ExampleWorld(e, sqrt, GAP), Last(names);
    var rows: seq<Row> := [];
    var p: Pair := (|names| - 1, |names|);
    forall h | h in db ensures !Eligible(w, db[h], Blue) {
      assert h == p.0 || h == p.1;
    }
    assert MergeRows(w, db, Blue, rows);
    assert TickWith(w, db, rows, {p}, {}, []);
  }

  lemma LastIsClose(sqrt: real -> real, e: Encyclopedia, names: seq<string>)
    requires names != []
    ensures var w, p := ExampleWorld(e, sqrt, GAP), (|names| - 1, |names|);
            w.Symmetric() && !Parts(w, Ticked(Last(names), []), p)
  {
  }

  /** Two reports of a pair of contacts that keep their labels. */
  ghost predicate ReportedTwice(w: World, coalition: Coalition, states: seq<set<Pair>>, steps: seq<Step>, p: Pair,
      i: nat, j: nat) {
    && w.Symmetric() && IsRun(w, coalition, states, steps)
    && i < j < |steps| && Reports(steps[i], p) && Reports(steps[j], p)
    && SameLabels(steps, p.0) && SameLabels(steps, p.1)
  }

  ghost predicate PartedBetween(w: World, steps: seq<Step>, p: Pair, i: nat, j: nat)
    requires i <= j <= |steps|
  {
    exists k :: i < k < j && Parts(w, steps[k], p)
  }

  /** The helicopter is reported, dropped when the others leave, and reported when they are back. */
  lemma DrawnIsReportedTwice(sqrt: real -> real, e: Encyclopedia, names: seq<string>)
    returns (w: World, states: seq<set<Pair>>, steps: seq<Step>, p: Pair)
    requires Draws(e, names)
    ensures w.encyclopedia == e && w.sqrt == sqrt
    ensures ReportedTwice(w, Blue, states, steps, p, 0, 2) && !PartedBetween(w, steps, p, 0, 2)
  {
    w, p := ExampleWorld(e, sqrt, GAP), (|names| - 1, |names|);
    var joined, alone := Chain(names), Last(names);
    states, steps := [{}, {p}, {}, {p}], [Ticked(joined, [p]), Ticked(alone, []), Ticked(joined, [p])];
    ChainIsDrawing(sqrt, e, names);
    DrawingTick(w, joined, |names|);
    LastTick(sqrt, e, names);
    LastIsClose(sqrt, e, names);
    hide Tick, Parts, ReportedTwice, PartedBetween, Drawing;
    OutAndBackReports(w, joined, alone, p);
  }

  lemma OutAndBackReports(w: World, joined: Database, alone: Database, p: Pair)
    requires w.Symmetric() && Tick(w, joined, Blue, {}, {p}, [p]) && Tick(w, alone, Blue, {p}, {}, [])
    requires !Parts(w, Ticked(alone, []), p)
    requires p.0 in joined && p.0 in alone && joined[p.0] == alone[p.0]
    requires p.1 in joined && p.1 in alone && joined[p.1] == alone[p.1]
    ensures var states, steps := [{}, {p}, {}, {p}], [Ticked(joined, [p]), Ticked(alone, []), Ticked(joined, [p])];
            ReportedTwice(w, Blue, states, steps, p, 0, 2) && !PartedBetween(w, steps, p, 0, 2)
  {
    hide Tick;
    OutAndBack(w, joined, alone, p);
    ReturnKeepsLabels(joined, alone, p.0, p);
    ReturnKeepsLabels(joined, alone, p.1, p);
    hide IsRun, SameLabels;
    var steps := [Ticked(joined, [p]), Ticked(alone, []), Ticked(joined, [p])];
    assert forall k :: 0 < k < 2 ==> steps[k] == steps[1];
  }

  lemma OutAndBack(w: World, joined: Database, alone: Database, p: Pair)
    requires Tick(w, joined, Blue, {}, {p}, [p]) && Tick(w, alone, Blue, {p}, {}, [])
    ensures IsRun(w, Blue, [{}, {p}, {}, {p}], [Ticked(joined, [p]), Ticked(alone, []), Ticked(joined, [p])])
  {
    hide Tick;
    var states, steps := [{}, {p}, {}, {p}], [Ticked(joined, [p]), Ticked(alone, []), Ticked(joined, [p])];
    forall i, j | 0 <= i < |steps| && j == i + 1 ensures Next(w, Blue, states[i], steps[i], states[j]) {
      assert i == 0 || i == 1 || i == 2;
    }
  }

  lemma ReturnKeepsLabels(joined: Database, alone: Database, id: nat, p: Pair)
    requires id in joined && id in alone && joined[id] == alone[id]
    ensures SameLabels([Ticked(joined, [p]), Ticked(alone, []), Ticked(joined, [p])], id)
  {
    var steps := [Ticked(joined, [p]), Ticked(alone, []), Ticked(joined, [p])];
    forall i | 0 <= i < |steps| ensures id in steps[i].db && steps[i].db[id] == joined[id] {
      assert i == 0 || i == 1 || i == 2;
    }
  }

  /** Every run separates the reports of a pair by a parting, whatever the distances. */
  ghost predicate AlwaysParted(sqrt: real -> real, e: Encyclopedia) {
    forall w: World, coalition, states, steps, p, i, j ::
      w.encyclopedia == e && w.sqrt == sqrt && ReportedTwice(w, coalition, states, steps, p, i, j) ==>
        PartedBetween(w, steps, p, i, j)
  }

  /** Reports are always separated by a parting exactly if no type without a wing tag leads to a
      helicopter. */
  lemma AlwaysPartedIffNoDraws(sqrt: real -> real, e: Encyclopedia)
    ensures AlwaysParted(sqrt, e) <==> NoDraws(e)
  {
    hide IsRun, Draws, Parts, SameLabels;
    if NoDraws(e) {
      forall w: World, coalition, states, steps, p, i, j
        | w.encyclopedia == e && w.sqrt == sqrt && ReportedTwice(w, coalition, states, steps, p, i, j)
        ensures PartedBetween(w, steps, p, i, j)
      {
        ReportsArePartings(w, coalition, states, steps, p, i, j);
      }
    } else {
      var names :| Draws(e, names);
      var w, states, steps, p := DrawnIsReportedTwice(sqrt, e, names);
    }
  }

  /** So with a wing tag on every known aircraft, as shipped, reports are always separated by a parting. */
  lemma WingTaggedIsParted(sqrt: real -> real, e: Encyclopedia)
    requires WingTagged(e)
    ensures AlwaysParted(sqrt, e)
  {
    hide AlwaysParted;
    WingTaggedHasNoDraws(e);
    AlwaysPartedIffNoDraws(sqrt, e);
  }
}
