/**
 Pictures at the limits of the merge rule.
 */
module MergeExamples {
  import opened Tracks
  import opened Grouping
  import opened Merges
  import opened MergeTracking
  import opened MergeTick
  import opened MergeProtocol

  const A := Point(1.0, 0.0)
  const B := Point(2.0, 0.0)
  const ELSEWHERE := Point(9.0, 0.0)

  /** Points A and B are `gap` apart; all other distinct points are 4 NM apart. */
  function ExampleDistance(gap: real): (Point, Point) -> real {
    (x: Point, y: Point) =>
      if x == y then 0.0
      else if (x == A && y == B) || (x == B && y == A) then gap
      else 4.0 * NAUTICAL_MILE
  }

  function ExampleWorld(encyclopedia: string -> Option<Aircraft>, sqrt: real -> real, gap: real): World {
    World(ExampleDistance(gap), sqrt, encyclopedia)
  }

  /** A contact that has just moved 4 NM in a second. */
  function Moving(id: nat, coalition: Coalition, name: string, at: Point): Track {
    Track(Labels(id, "", coalition, name), [Frame(1_000_000_000, at, 0.0, 0.0), Frame(0, ELSEWHERE, 0.0, 0.0)])
  }

  lemma MovingIsValid(encyclopedia: string -> Option<Aircraft>, sqrt: real -> real, gap: real, t: Track)
    requires |t.frames| == 2 && t.frames[0].time == 1_000_000_000 && t.frames[1].time == 0
    requires t.frames[1].point == ELSEWHERE && t.frames[0].point != ELSEWHERE && Located(t)
    ensures IsValidTrack(ExampleWorld(encyclopedia, sqrt, gap), t)
  {
    var w := ExampleWorld(encyclopedia, sqrt, gap);
    assert GroundSpeed(w, t.frames) == 4.0 * NAUTICAL_MILE / 1.001;
    assert Speed(w, t.frames) >= GroundSpeed(w, t.frames);
  }

  /** Every type is unknown. */
  function NoAircraft(): string -> Option<Aircraft> {
    (name: string) => None
  }

  /** A hostile at A, a friendly at B, and perhaps a wingman of the hostile elsewhere. */
  function Two(): Database {
    map[1 := Moving(1, Red, "", A), 2 := Moving(2, Blue, "", B)]
  }

  function Three(): Database {
    Two()[3 := Moving(3, Red, "", Point(3.0, 0.0))]
  }

  /** A row that holds every eligible hostile is a complete report. */
  lemma OneRow(w: World, db: Database, coalition: Coalition, row: Row)
    requires WellKeyed(db) && GoodRow(w, db, coalition, row)
    requires forall h :: h in db && Eligible(w, db[h], coalition) ==> h in row.ids
    ensures MergeRows(w, db, coalition, [row])
  {
    hide GoodRow, Eligible, HasFoe;
    var rows := [row];
    assert rows[0] == row;
  }

  lemma OneRowSurvives(w: World, db: Database, row: Row, before: set<Pair>, p: Pair)
    ensures Survives(w, db, [row], before, p) <==>
            && p.0 in db && p.1 in db && p.0 in row.ids && p.1 in row.friends
            && Stays(w, db[p.0], db[p.1], p in before)
  {
    hide Stays;
    var rows := [row];
    assert rows[0] == row;
  }

  /** Two linked contacts that are alone on their side form a group. */
  lemma PairIsGroup(w: World, db: Database, a: nat, b: nat)
    requires WellKeyed(db) && a in db && b in db && a != b
    requires Links(w, SeedCategory(w, db[a]), db[a], db[b])
    requires forall id :: id in db && id != a && id != b ==> db[id].contact.coalition != db[a].contact.coalition
    ensures IsGroup(w, db, [db[a], db[b]])
  {
    var cs := [db[a], db[b]];
    assert View(db, db[a]) == db;
    ReachSelf(w, db, db[a]);
    ReachStep(w, db, db[a], a, b);
    ClosedHoldsReach(w, db, db[a], {a, b});
    hide ReachSet;
    assert Ids(cs) == {a, b} by {
      assert cs[0].contact.id == a && cs[1].contact.id == b;
    }
  }

  lemma ThreeIsReal(w: World, db: Database, seed: nat, other: nat)
    requires WellKeyed(db) && db.Keys == {1, 2, 3} && {seed, other} == {1, 3}
    requires db[1].contact.coalition == db[3].contact.coalition == Red && db[2].contact.coalition == Blue
    requires Links(w, SeedCategory(w, db[seed]), db[seed], db[other]) && Eligible(w, db[seed], Blue)
    ensures RealRow(w, db, Blue, Row([1, 3], [2]))
  {
    hide Eligible, Links;
    var cs := [db[seed], db[other]];
    PairIsGroup(w, db, seed, other);
    hide IsGroup;
    assert cs[0].contact.id in {1, 3} && cs[1].contact.id in {1, 3} && cs[0].contact.id != cs[1].contact.id;
    ObjectIDsOfTwo(cs);
    assert RowOf(w, db, Blue, cs, Row([1, 3], [2]));
  }

  /** The one row of the three-contact picture. */
  lemma ThreeRows(w: World, db: Database)
    requires WellKeyed(db) && db.Keys == {1, 2, 3} && RealRow(w, db, Blue, Row([1, 3], [2]))
    requires db[1].contact.coalition == db[3].contact.coalition == Red && db[2].contact.coalition == Blue
    requires NearOne(w, db, db[1]) + NearOne(w, db, db[3]) == {2}
    ensures MergeRows(w, db, Blue, [Row([1, 3], [2])])
  {
    var row := Row([1, 3], [2]);
    assert !Eligible(w, db[2], Blue);
    ThreeIsSound(w, db, row);
    hide RowFor, NearOne, Eligible, RealRow;
    OneRow(w, db, Blue, row);
  }

  lemma ThreeIsSound(w: World, db: Database, row: Row)
    requires row == Row([1, 3], [2]) && 1 in db && 3 in db
    requires db[1].contact.coalition == db[3].contact.coalition == Red
    requires NearOne(w, db, db[1]) + NearOne(w, db, db[3]) == {2}
    ensures RowFor(w, db, Blue, row)
  {
    hide NearOne;
    assert Elements(row.ids) == {1, 3} && Elements(row.friends) == {2};
    assert FoesOf(w, db, {1, 3}) == NearOne(w, db, db[1]) + NearOne(w, db, db[3]);
  }

  lemma ObjectIDsOfTwo(cs: seq<Track>)
    requires |cs| == 2 && cs[0].contact.id in {1, 3} && cs[1].contact.id in {1, 3}
             && cs[0].contact.id != cs[1].contact.id
    ensures ObjectIDs(cs) == [1, 3]
  {
    assert Ids(cs) == {1, 3} by {
      assert cs[0].contact.id in Ids(cs) && cs[1].contact.id in Ids(cs);
    }
    SortedUnique(ObjectIDs(cs), [1, 3]);
  }

  /** What a tick does in the three-contact picture: the third contact is too far for an entry. */
  lemma ThreeTick(w: World, db: Database, before: set<Pair>)
    requires MergeRows(w, db, Blue, [Row([1, 3], [2])]) && before <= {(1, 2)}
    requires 1 in db && 2 in db && 3 in db
    requires Stays(w, db[1], db[2], (1, 2) in before) && !Stays(w, db[3], db[2], false)
    ensures Tick(w, db, Blue, before, {(1, 2)}, if (1, 2) in before then [] else [(1, 2)])
  {
    hide Stays, MergeRows, Survives;
    var row, p: Pair := Row([1, 3], [2]), (1, 2);
    var reports := if p in before then [] else [p];
    forall q: Pair ensures q in {p} <==> Survives(w, db, [row], before, q) {
      OneRowSurvives(w, db, row, before, q);
      assert q.0 == 3 && q.1 == 2 ==> q == (3, 2);
      assert q.0 == 1 && q.1 == 2 ==> q == p;
    }
    assert TickWith(w, db, [row], before, {p}, reports);
  }

  // ---------------------------------------------------------------- exactly 5 NM

  lemma AloneHasNoFriend(w: World, db: Database, row: Row)
    requires RowFor(w, db, Blue, row)
    requires db.Keys == {1, 2} && db[1].contact.coalition == Red && w.distance(Position(db[1]), Position(db[2])) >= EXIT
    ensures 2 !in row.friends
  {
    forall h | h in row.ids ensures h in db && 2 !in NearOne(w, db, db[h]) {
      assert h == 1 || h == 2;
    }
    assert 2 !in FoesOf(w, db, Elements(row.ids));
    assert 2 in row.friends ==> 2 in Elements(row.friends);
  }

  lemma AloneIsDropped(w: World, db: Database, after: set<Pair>, reports: seq<Pair>)
    requires Tick(w, db, Blue, {(1, 2)}, after, reports)
    requires db.Keys == {1, 2} && db[1].contact.coalition == Red && w.distance(Position(db[1]), Position(db[2])) >= EXIT
    ensures (1, 2) !in after
  {
    hide RowFor, RealRow;
    var rows: seq<Row> :| MergeRows(w, db, Blue, rows) && TickWith(w, db, rows, {(1, 2)}, after, reports);
    var p: Pair := (1, 2);
    forall i | 0 <= i < |rows| ensures 2 !in rows[i].friends {
      AloneHasNoFriend(w, db, rows[i]);
    }
    assert !Survives(w, db, rows, {p}, p);
  }

  /** At exactly 5 NM the outcome depends on company: a merged pair alone is dropped by every tick,
      and the same pair is kept when a wingman of the hostile is inside 5 NM. */
  lemma FiveMilesDependsOnCompany(sqrt: real -> real)
    ensures var w, alone, joined, p := ExampleWorld(NoAircraft(), sqrt, EXIT), Two(), Three(), (1, 2);
            && w.Symmetric() && Engaged(w, alone, Blue, p) && Engaged(w, joined, Blue, p)
            && Range(w, alone, p) == Range(w, joined, p) == EXIT
            && (forall after, reports :: Tick(w, alone, Blue, {p}, after, reports) ==> p !in after)
            && Tick(w, joined, Blue, {p}, {p}, [])
  {
    var w, alone, joined, p: Pair := ExampleWorld(NoAircraft(), sqrt, EXIT), Two(), Three(), (1, 2);
    hide MergeRows, Tick;
    assert w.distance(A, B) == EXIT;
    FiveMilesApart(sqrt);
    JoinedTick(sqrt);
    hide Engaged;
    forall after, reports | Tick(w, alone, Blue, {p}, after, reports) ensures p !in after {
      AloneIsDropped(w, alone, after, reports);
    }
  }

  lemma FiveMilesApart(sqrt: real -> real)
    ensures var w, p := ExampleWorld(NoAircraft(), sqrt, EXIT), (1, 2);
            && w.Symmetric() && Engaged(w, Two(), Blue, p) && Engaged(w, Three(), Blue, p)
            && Range(w, Two(), p) == Range(w, Three(), p) == EXIT
  {
  }

  lemma JoinedTick(sqrt: real -> real)
    ensures Tick(ExampleWorld(NoAircraft(), sqrt, EXIT), Three(), Blue, {(1, 2)}, {(1, 2)}, [])
  {
    hide MergeRows, Tick;
    JoinedRows(sqrt);
    ThreeTick(ExampleWorld(NoAircraft(), sqrt, EXIT), Three(), {(1, 2)});
  }

  lemma JoinedRows(sqrt: real -> real)
    ensures MergeRows(ExampleWorld(NoAircraft(), sqrt, EXIT), Three(), Blue, [Row([1, 3], [2])])
  {
    var w, db := ExampleWorld(NoAircraft(), sqrt, EXIT), Three();
    hide MergeRows;
    MovingIsValid(NoAircraft(), sqrt, EXIT, db[3]);
    hide IsValidTrack;
    assert NearOne(w, db, db[1]) == {} && NearOne(w, db, db[3]) == {2};
    assert Links(w, SeedCategory(w, db[1]), db[1], db[3]);
    ThreeIsReal(w, db, 1, 3);
    hide RealRow;
    ThreeRows(w, db);
  }
}
