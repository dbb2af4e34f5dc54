/**
 Which hostile groups are merged with which contacts of other coalitions, as the radar reports it.
 */
module Merges {
  import opened Tracks
  import opened Grouping
  import opened MergeTracking

  const ENTRY := 3.0 * NAUTICAL_MILE
  const EXIT := 5.0 * NAUTICAL_MILE

  /** The hostiles a merge search starts from: opposing, located, not a known helicopter. */
  predicate Eligible(w: World, t: Track, coalition: Coalition) {
    && t.contact.coalition == coalition.Opposite()
    && Located(t)
    && var data := w.encyclopedia(t.contact.acmiName);
       !(data.Some? && AircraftCategory(data.value) == RotaryWing)
  }

  /** Within the exit distance of a contact of another coalition. */
  predicate NearFoe(w: World, t: Track, other: Track) {
    && t.contact.coalition != other.contact.coalition
    && Located(t) && Located(other)
    && w.distance(Position(t), Position(other)) < EXIT
  }

  /** The contacts near one aircraft, and near any of a list. */
  ghost function NearOne(w: World, db: Database, t: Track): set<nat> {
    set f | f in db && NearFoe(w, t, db[f])
  }

  ghost function NearAny(w: World, db: Database, cs: seq<Track>): set<nat> {
    set f, i | 0 <= i < |cs| && f in NearOne(w, db, cs[i]) :: f
  }

  ghost function Elements(s: seq<nat>): set<nat> {
    set x | x in s
  }

  method MergesForContact(w: World, db: Database, trackfile: Track) returns (mergedWith: seq<nat>)
    ensures Elements(mergedWith) == NearOne(w, db, trackfile)
  {
    mergedWith := [];
    if !Located(trackfile) {
      return;
    }
    var order := Iterate(db);
    for k := 0 to |order|
      invariant forall id :: id in mergedWith <==> id in order[..k] && id in NearOne(w, db, trackfile)
    {
      assert order[k] in order;
      assert order[..k + 1] == order[..k] + [order[k]];
      var other := db[order[k]];
      if trackfile.contact.coalition == other.contact.coalition || !Located(other) {
        continue;
      }
      if w.distance(Position(trackfile), Position(other)) < EXIT {
        mergedWith := mergedWith + [order[k]];
      }
    }
    assert order[..|order|] == order;
  }

  /** Everything near some member of the group. */
  method FoesOfGroup(w: World, db: Database, cs: seq<Track>) returns (mergedWith: set<nat>)
    ensures mergedWith == NearAny(w, db, cs)
  {
    hide NearOne;
    mergedWith := {};
    for k := 0 to |cs|
      invariant mergedWith == NearAny(w, db, cs[..k])
    {
      var near := MergesForContact(w, db, cs[k]);
      assert (set id | id in near) == Elements(near);
      NearAnyAppend(w, db, cs[..k], cs[k]);
      assert cs[..k + 1] == cs[..k] + [cs[k]];
      mergedWith := mergedWith + set id | id in near;
    }
    assert cs[..|cs|] == cs;
  }

  lemma NearAnyAppend(w: World, db: Database, cs: seq<Track>, t: Track)
    ensures NearAny(w, db, cs + [t]) == NearAny(w, db, cs) + NearOne(w, db, t)
  {
    hide NearOne;
    var ds := cs + [t];
    forall f | f in NearAny(w, db, cs) ensures f in NearAny(w, db, ds) {
      var i :| 0 <= i < |cs| && f in NearOne(w, db, cs[i]);
      assert ds[i] == cs[i];
    }
    forall f | f in NearOne(w, db, t) ensures f in NearAny(w, db, ds) {
      assert ds[|cs|] == t;
    }
  }

  // ---------------------------------------------------------------- rows

  /** A hostile group and the contacts near it. */
  datatype Row = Row(ids: seq<nat>, friends: seq<nat>)

  ghost function FoesOf(w: World, db: Database, ids: set<nat>): set<nat> {
    set f, h | h in ids && h in db && f in NearOne(w, db, db[h]) :: f
  }

  ghost predicate AllHostile(db: Database, coalition: Coalition, ids: seq<nat>) {
    forall h :: h in ids ==> h in db && db[h].contact.coalition == coalition.Opposite()
  }

  ghost predicate RowFor(w: World, db: Database, coalition: Coalition, row: Row) {
    && StrictlyAscending(row.ids)
    && AllHostile(db, coalition, row.ids)
    && Distinct(row.friends)
    && Elements(row.friends) == FoesOf(w, db, Elements(row.ids))
  }

  /** Some contact is near the group that the hostile would seed. */
  ghost predicate HasFoe(w: World, db: Database, h: nat) {
    h in db && FoesOf(w, db, ReachSet(w, db, db[h])) != {}
  }

  lemma NearHasFoe(w: World, db: Database, h: nat, f: nat)
    requires WellKeyed(db) && h in db && f in NearOne(w, db, db[h])
    ensures HasFoe(w, db, h)
  {
    hide NearOne, ReachSet;
    ReachSelf(w, db, db[h]);
    assert f in FoesOf(w, db, ReachSet(w, db, db[h]));
  }

  ghost predicate InSomeRow(rows: seq<Row>, h: nat) {
    exists i :: 0 <= i < |rows| && h in rows[i].ids
  }

  /** The row of a group that is the closure of an eligible seed. */
  ghost predicate RowOf(w: World, db: Database, coalition: Coalition, cs: seq<Track>, row: Row) {
    && row.ids == ObjectIDs(cs)
    && IsGroup(w, db, cs)
    && cs[0].contact.id in db && db[cs[0].contact.id] == cs[0]
    && Eligible(w, cs[0], coalition)
  }

  ghost predicate RealRow(w: World, db: Database, coalition: Coalition, row: Row) {
    exists cs :: RowOf(w, db, coalition, cs, row)
  }

  ghost predicate GoodRow(w: World, db: Database, coalition: Coalition, row: Row) {
    RowFor(w, db, coalition, row) && RealRow(w, db, coalition, row) && row.friends != []
  }

  /** Rows of real groups that miss no eligible hostile whose group is near a foe. Groups may overlap
      and come in any order. */
  ghost predicate MergeRows(w: World, db: Database, coalition: Coalition, rows: seq<Row>) {
    && WellKeyed(db)
    && (forall i :: 0 <= i < |rows| ==> GoodRow(w, db, coalition, rows[i]))
    && forall h :: h in db && Eligible(w, db[h], coalition) && HasFoe(w, db, h) ==> InSomeRow(rows, h)
  }

  lemma FoesOfMembers(w: World, db: Database, cs: seq<Track>)
    requires DrawnFrom(db, cs) && cs[0].contact.id in db && db[cs[0].contact.id] == cs[0]
    ensures NearAny(w, db, cs) == FoesOf(w, db, Elements(ObjectIDs(cs)))
  {
    hide NearOne;
    assert View(db, cs[0]) == db;
    var ids := Elements(ObjectIDs(cs));
    forall f | f in NearAny(w, db, cs) ensures f in FoesOf(w, db, ids) {
      var i :| 0 <= i < |cs| && f in NearOne(w, db, cs[i]);
      assert cs[i].contact.id in Ids(cs);
      assert db[cs[i].contact.id] == cs[i];
    }
    forall f | f in FoesOf(w, db, ids) ensures f in NearAny(w, db, cs) {
      var h :| h in ids && h in db && f in NearOne(w, db, db[h]);
      assert h in Ids(cs);
      var i :| 0 <= i < |cs| && cs[i].contact.id == h;
      assert db[h] == cs[i];
    }
  }

  lemma MembersAreHostile(w: World, db: Database, coalition: Coalition, cs: seq<Track>)
    requires WellKeyed(db) && IsGroup(w, db, cs)
    requires cs[0].contact.id in db && db[cs[0].contact.id] == cs[0] && Eligible(w, cs[0], coalition)
    ensures AllHostile(db, coalition, ObjectIDs(cs))
  {
    hide ReachSet;
    GroupCoalition(w, db, cs);
    assert View(db, cs[0]) == db;
    forall h | h in ObjectIDs(cs) ensures h in db && db[h].contact.coalition == coalition.Opposite() {
      assert h in Ids(cs);
    }
  }

  // ---------------------------------------------------------------- the search

  ghost predicate RowsOf(w: World, db: Database, coalition: Coalition, contents: seq<seq<Track>>, rows: seq<Row>) {
    && |contents| == |rows|
    && forall i :: 0 <= i < |rows| ==> RowOf(w, db, coalition, contents[i], rows[i])
  }

  /** The links that the walk from an eligible member may use are open to the walk from the seed. */
  lemma MemberFilter(w: World, db: Database, cs: seq<Track>, i: nat, coalition: Coalition, from: Track, to: Track)
    requires WellKeyed(db) && IsGroup(w, db, cs) && Eligible(w, cs[0], coalition)
    requires i < |cs| && Links(w, SeedCategory(w, cs[i]), from, to)
    ensures Links(w, SeedCategory(w, cs[0]), from, to)
  {
    hide IsGroup, IsValidTrack;
    if i > 0 {
      MembersAreAlike(w, db, cs, i);
    }
  }

  /** The group is closed for the walk from any of its members. */
  lemma ClosedForMember(w: World, db: Database, cs: seq<Track>, i: nat, coalition: Coalition)
    requires WellKeyed(db) && IsGroup(w, db, cs) && Eligible(w, cs[0], coalition) && i < |cs|
    requires cs[0].contact.id in db && db[cs[0].contact.id] == cs[0]
    ensures db[cs[i].contact.id := cs[i]] == db && LinkClosed(w, db, cs[i], Ids(cs))
  {
    var ids := Ids(cs);
    assert View(db, cs[0]) == db == View(db, cs[i]);
    hide ReachSet, Links, Eligible, View;
    forall a, b | a in ids && a in db && b in db && Links(w, SeedCategory(w, cs[i]), db[a], db[b]) ensures b in ids {
      MemberFilter(w, db, cs, i, coalition, db[a], db[b]);
      ReachStep(w, db, cs[0], a, b);
    }
  }

  lemma MemberAt(cs: seq<Track>, row: Row, h: nat) returns (i: nat)
    requires row.ids == ObjectIDs(cs) && h in row.ids
    ensures i < |cs| && cs[i].contact.id == h && h in Ids(cs) && Ids(cs) == Elements(row.ids)
  {
    i :| 0 <= i < |cs| && cs[i].contact.id == h;
  }

  /** What a member of a group reaches is in the group. */
  lemma MemberReach(w: World, db: Database, coalition: Coalition, row: Row, h: nat)
    requires WellKeyed(db) && RealRow(w, db, coalition, row) && h in row.ids
    ensures h in db && ReachSet(w, db, db[h]) <= Elements(row.ids)
  {
    var cs: seq<Track> :| RowOf(w, db, coalition, cs, row);
    hide ReachSet, IsGroup, Eligible, LinkClosed, Ids, Elements, Links;
    var i := MemberAt(cs, row, h);
    ClosedForMember(w, db, cs, i, coalition);
    assert db[h] == cs[i];
    ClosedHoldsReach(w, db, db[h], Ids(cs));
  }

  lemma FoesOfSubset(w: World, db: Database, a: set<nat>, b: set<nat>)
    requires a <= b
    ensures FoesOf(w, db, a) <= FoesOf(w, db, b)
  {
    hide NearOne;
  }

  /** After `k` contacts: sound rows, and every visited contact whose group is near a foe is in one. */
  ghost predicate Searched(w: World, db: Database, coalition: Coalition, order: seq<nat>, k: nat,
      rows: seq<Row>, visited: set<nat>)
    requires k <= |order|
  {
    && (forall i :: 0 <= i < |rows| ==> GoodRow(w, db, coalition, rows[i]))
    && (forall h :: h in visited && HasFoe(w, db, h) ==> InSomeRow(rows, h))
    && forall i :: 0 <= i < k && order[i] in db && Eligible(w, db[order[i]], coalition) ==> order[i] in visited
  }

  lemma SkipContact(w: World, db: Database, coalition: Coalition, order: seq<nat>, k: nat, rows: seq<Row>,
      visited: set<nat>)
    requires k < |order| && order[k] in db && Searched(w, db, coalition, order, k, rows, visited)
    ensures order[k] in visited || !Eligible(w, db[order[k]], coalition) ==>
              Searched(w, db, coalition, order, k + 1, rows, visited)
  {
    hide GoodRow, HasFoe, Eligible;
  }

  lemma FoesAreFriends(w: World, db: Database, coalition: Coalition, row: Row, h: nat)
    requires RowFor(w, db, coalition, row) && h in row.ids
    ensures h in db && NearOne(w, db, db[h]) <= Elements(row.friends)
  {
    hide NearOne;
    assert h in Elements(row.ids);
  }

  lemma DropRow(w: World, db: Database, coalition: Coalition, order: seq<nat>, k: nat, rows: seq<Row>,
      visited: set<nat>, row: Row)
    requires WellKeyed(db) && k < |order| && Searched(w, db, coalition, order, k, rows, visited)
    requires RowFor(w, db, coalition, row) && RealRow(w, db, coalition, row) && order[k] in row.ids && row.friends == []
    ensures Searched(w, db, coalition, order, k + 1, rows, visited + Elements(row.ids))
  {
    hide RealRow, GoodRow, ReachSet, FoesOf, Eligible;
    assert Elements(row.friends) == {};
    forall h | h in row.ids ensures !HasFoe(w, db, h) {
      MemberReach(w, db, coalition, row, h);
      FoesOfSubset(w, db, ReachSet(w, db, db[h]), Elements(row.ids));
    }
    hide HasFoe;
  }

  lemma AddRow(w: World, db: Database, coalition: Coalition, order: seq<nat>, k: nat, rows: seq<Row>,
      visited: set<nat>, row: Row)
    requires k < |order| && Searched(w, db, coalition, order, k, rows, visited)
    requires GoodRow(w, db, coalition, row) && order[k] in row.ids
    ensures Searched(w, db, coalition, order, k + 1, rows + [row], visited + Elements(row.ids))
  {
    hide GoodRow, HasFoe, Eligible;
    var more := rows + [row];
    forall h | h in visited + Elements(row.ids) && HasFoe(w, db, h) ensures InSomeRow(more, h) {
      if h in row.ids {
        assert more[|rows|] == row;
      } else {
        var i :| 0 <= i < |rows| && h in rows[i].ids;
        assert more[i] == rows[i];
      }
    }
  }

  /** The group around an eligible hostile, with the contacts near it in any order. */
  method GroupWithFoes(w: World, db: Database, coalition: Coalition, contact: Track) returns (group: Group, row: Row)
    requires WellKeyed(db) && contact.contact.id in db && db[contact.contact.id] == contact
    requires Eligible(w, contact, coalition)
    ensures fresh(group) && RowOf(w, db, coalition, group.contacts, row)
    ensures RowFor(w, db, coalition, row) && contact.contact.id in row.ids
  {
    var found := FindGroupForAircraft(w, db, Some(contact));
    if found == null {
      assert false;
    } else {
      group := found;
      var mergedWith := FoesOfGroup(w, db, group.contacts);
      var friends := Iterate(map id | id in mergedWith :: db[id]);
      assert Elements(friends) == mergedWith;
      MembersAreHostile(w, db, coalition, group.contacts);
      FoesOfMembers(w, db, group.contacts);
      row := Row(ObjectIDs(group.contacts), friends);
      ReachSelf(w, db, contact);
    }
  }

  lemma RowsOfAppend(w: World, db: Database, coalition: Coalition, contents: seq<seq<Track>>,
      rows: seq<Row>, cs: seq<Track>, row: Row)
    requires RowsOf(w, db, coalition, contents, rows) && RowOf(w, db, coalition, cs, row)
    ensures RowsOf(w, db, coalition, contents + [cs], rows + [row])
  {
    hide RowOf;
  }

  /** Reported as threats in a furball. */
  ghost predicate Marked(groups: seq<Group>)
    reads groups
  {
    forall i :: 0 <= i < |groups| ==> groups[i].isThreat && groups[i].declaration == Furball
  }

  /** The hostile groups with some contact near them, each with those contacts. */
  method FindMerges(w: World, db: Database, coalition: Coalition)
    returns (groups: seq<Group>, rows: seq<Row>, ghost contents: seq<seq<Track>>)
    requires WellKeyed(db)
    ensures MergeRows(w, db, coalition, rows)
    ensures Hold(groups, contents) && RowsOf(w, db, coalition, contents, rows)
    ensures Marked(groups)
  {
    hide RowFor, HasFoe, InSomeRow, Eligible, RowOf;
    groups, rows, contents := [], [], [];
    var visited: set<nat> := {};
    var order := Iterate(db);
    for k := 0 to |order|
      invariant Hold(groups, contents) && Marked(groups)
      invariant RowsOf(w, db, coalition, contents, rows)
      invariant Searched(w, db, coalition, order, k, rows, visited)
    {
      assert order[k] in order;
      var contact := db[order[k]];
      SkipContact(w, db, coalition, order, k, rows, visited);
      if contact.contact.id in visited || !Eligible(w, contact, coalition) {
        continue;
      }
      ghost var before := visited;
      var group, row := GroupWithFoes(w, db, coalition, contact);
      assert Hold(groups, contents) && Marked(groups);
      assert group !in groups;
      visited := visited + set id | id in row.ids;
      assert visited == before + Elements(row.ids);
      assert RealRow(w, db, coalition, row);
      if row.friends == [] {
        DropRow(w, db, coalition, order, k, rows, before, row);
      } else {
        AddRow(w, db, coalition, order, k, rows, before, row);
        RowsOfAppend(w, db, coalition, contents, rows, group.contacts, row);
        HoldAppend(groups, contents, group);
        group.isThreat := true;
        group.declaration := Furball;
        groups, rows, contents := groups + [group], rows + [row], contents + [group.contacts];
      }
    }
    AllSearched(w, db, coalition, order, rows, visited);
  }

  lemma AllSearched(w: World, db: Database, coalition: Coalition, order: seq<nat>, rows: seq<Row>, visited: set<nat>)
    requires WellKeyed(db) && Lists(order, db.Keys) && Searched(w, db, coalition, order, |order|, rows, visited)
    ensures MergeRows(w, db, coalition, rows)
  {
    hide GoodRow, HasFoe, Eligible;
    forall h | h in db && Eligible(w, db[h], coalition) && HasFoe(w, db, h) ensures InSomeRow(rows, h) {
      assert h in order;
    }
  }
}
