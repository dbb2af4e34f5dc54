/**
 Contact grouping. A group grows from a seed by a recursive walk over the contact database.
 Whether a neighbour joins depends on the aircraft being expanded (coalition, tag, position) and
 on the category of the seed, so the link relation is directed.
 */
module Grouping {
  import opened Tracks

  datatype Category = AnyAircraft | FixedWing | RotaryWing

  datatype Declaration = Unable | Hostile | Furball

  type Database = map<nat, Track>

  const SPREAD := 5.0 * NAUTICAL_MILE

  ghost predicate WellKeyed(db: Database) {
    forall id :: id in db ==> db[id].contact.id == id
  }

  // ---------------------------------------------------------------- encyclopedia lookups

  function AircraftCategory(a: Aircraft): Category {
    if FixedWingTag in a.tags then FixedWing
    else if RotaryWingTag in a.tags then RotaryWing
    else AnyAircraft
  }

  /** The category of a group with the given seed: unknown aircraft are taken to be fixed-wing. */
  function SeedCategory(w: World, seed: Track): Category {
    match w.encyclopedia(seed.contact.acmiName)
    case None => FixedWing
    case Some(a) => AircraftCategory(a)
  }

  /** The tag that an aircraft of this type asks of its neighbours, if any. */
  function RoleOf(data: Option<Aircraft>): Option<Tag> {
    match data
    case None => None
    case Some(a) =>
      if Fighter in a.tags then Some(Fighter)
      else if Attack in a.tags then Some(Attack)
      else if Unarmed in a.tags then Some(Unarmed)
      else None
  }

  function RequiredTag(w: World, t: Track): Option<Tag> {
    RoleOf(w.encyclopedia(t.contact.acmiName))
  }

  predicate HasTag(w: World, t: Track, tag: Tag) {
    var data := w.encyclopedia(t.contact.acmiName);
    data.Some? && tag in data.value.tags
  }

  predicate IsMatch(w: World, t: Track, coalition: Coalition, filter: Category) {
    && t.contact.coalition == coalition
    && IsValidTrack(w, t)
    && var data := w.encyclopedia(t.contact.acmiName);
       data.None? || AircraftCategory(data.value) == filter || filter == AnyAircraft
  }

  // ---------------------------------------------------------------- the link relation

  predicate Links(w: World, filter: Category, from: Track, to: Track) {
    && IsMatch(w, to, from.contact.coalition, filter)
    && (RequiredTag(w, from).Some? ==> HasTag(w, to, RequiredTag(w, from).value))
    && w.distance(Position(to), Position(from)) < SPREAD
  }

  /** The database as the walk from `seed` sees it: the seed stands for its own ID. */
  ghost function View(db: Database, seed: Track): Database {
    db[seed.contact.id := seed]
  }

  ghost predicate Path(w: World, db: Database, seed: Track, p: seq<nat>) {
    var view := View(db, seed);
    && |p| > 0 && p[0] == seed.contact.id
    && (forall i :: 0 <= i < |p| ==> p[i] in view)
    && forall i, j :: 0 <= i < j < |p| && j == i + 1 ==> Links(w, SeedCategory(w, seed), view[p[i]], view[p[j]])
  }

  ghost predicate Reachable(w: World, db: Database, seed: Track, id: nat) {
    exists p :: Path(w, db, seed, p) && p[|p| - 1] == id
  }

  /** What a group grown from a located seed should be. */
  ghost function ReachSet(w: World, db: Database, seed: Track): set<nat> {
    set id | id in View(db, seed) && Reachable(w, db, seed, id)
  }

  lemma ReachSelf(w: World, db: Database, seed: Track)
    ensures seed.contact.id in ReachSet(w, db, seed)
  {
    assert Path(w, db, seed, [seed.contact.id]);
  }

  lemma ReachStep(w: World, db: Database, seed: Track, a: nat, b: nat)
    requires a in ReachSet(w, db, seed) && b in View(db, seed)
    requires Links(w, SeedCategory(w, seed), View(db, seed)[a], View(db, seed)[b])
    ensures b in ReachSet(w, db, seed)
  {
    var p :| Path(w, db, seed, p) && p[|p| - 1] == a;
    var q := p + [b];
    assert Path(w, db, seed, q);
    assert q[|q| - 1] == b;
  }

  ghost predicate LinkClosed(w: World, db: Database, seed: Track, s: set<nat>) {
    var view := View(db, seed);
    forall a, b | a in s && a in view && b in view :: Links(w, SeedCategory(w, seed), view[a], view[b]) ==> b in s
  }

  /** Any set that holds the seed and is closed under links holds everything reachable. */
  lemma {:induction false} ClosedHoldsPath(w: World, db: Database, seed: Track, s: set<nat>, p: seq<nat>)
    requires seed.contact.id in s && Path(w, db, seed, p)
    requires LinkClosed(w, db, seed, s)
    ensures p[|p| - 1] in s
  {
    if |p| > 1 {
      var q := p[..|p| - 1];
      assert Path(w, db, seed, q);
      ClosedHoldsPath(w, db, seed, s, q);
      assert q[|q| - 1] == p[|p| - 2];
    }
  }

  lemma ClosedHoldsReach(w: World, db: Database, seed: Track, s: set<nat>)
    requires seed.contact.id in s
    requires LinkClosed(w, db, seed, s)
    ensures ReachSet(w, db, seed) <= s
  {
    forall id | id in ReachSet(w, db, seed) ensures id in s {
      var p :| Path(w, db, seed, p) && p[|p| - 1] == id;
      ClosedHoldsPath(w, db, seed, s, p);
    }
  }

  /** Whatever is reachable, other than the seed, is linked from something reachable. */
  lemma LastLink(w: World, db: Database, seed: Track, id: nat) returns (from: nat)
    requires id in ReachSet(w, db, seed) && id != seed.contact.id
    ensures from in ReachSet(w, db, seed)
    ensures Links(w, SeedCategory(w, seed), View(db, seed)[from], View(db, seed)[id])
  {
    var p :| Path(w, db, seed, p) && p[|p| - 1] == id;
    from := p[|p| - 2];
    hide Links;
    var q := p[..|p| - 1];
    assert Path(w, db, seed, q) && q[|q| - 1] == from;
  }

  // ---------------------------------------------------------------- groups

  ghost function Ids(cs: seq<Track>): set<nat> {
    set i | 0 <= i < |cs| :: cs[i].contact.id
  }

  lemma IdsAppend(cs: seq<Track>, t: Track)
    ensures Ids(cs + [t]) == Ids(cs) + {t.contact.id}
  {
    var ds := cs + [t];
    assert ds[|cs|] == t;
    forall id | id in Ids(cs) ensures id in Ids(ds) {
      var i :| 0 <= i < |cs| && cs[i].contact.id == id;
      assert ds[i] == cs[i];
    }
  }

  ghost predicate NoDuplicates(cs: seq<Track>) {
    forall i, j :: 0 <= i < j < |cs| ==> cs[i].contact.id != cs[j].contact.id
  }

  /** Contacts drawn from the view of the first of them. */
  ghost predicate DrawnFrom(db: Database, cs: seq<Track>) {
    && |cs| > 0
    && NoDuplicates(cs)
    && forall i :: 0 <= i < |cs| ==> cs[i].contact.id in View(db, cs[0]) && View(db, cs[0])[cs[i].contact.id] == cs[i]
  }

  /** Exactly the closure of the seed, which stays the first contact. */
  ghost predicate IsGroup(w: World, db: Database, cs: seq<Track>) {
    DrawnFrom(db, cs) && Ids(cs) == ReachSet(w, db, cs[0])
  }

  ghost predicate StrictlyAscending(s: seq<nat>) {
    forall i, j :: 0 <= i < j < |s| ==> s[i] < s[j]
  }

  function Insert(id: nat, ids: seq<nat>): (r: seq<nat>)
    ensures |r| == |ids| + 1
    ensures forall x :: x in r <==> x == id || x in ids
  {
    if |ids| == 0 then [id]
    else if id <= ids[0] then [id] + ids
    else
      assert ids == [ids[0]] + ids[1..];
      [ids[0]] + Insert(id, ids[1..])
  }

  lemma {:induction false} InsertAscending(id: nat, ids: seq<nat>)
    requires StrictlyAscending(ids) && id !in ids
    ensures StrictlyAscending(Insert(id, ids))
  {
    if |ids| > 0 && id > ids[0] {
      var tail := Insert(id, ids[1..]);
      InsertAscending(id, ids[1..]);
      forall k | 0 <= k < |tail| ensures ids[0] < tail[k] {
        assert tail[k] in tail;
      }
    }
  }

  lemma LastIsNew(cs: seq<Track>)
    requires |cs| > 0 && NoDuplicates(cs)
    ensures NoDuplicates(cs[..|cs| - 1]) && cs[|cs| - 1].contact.id !in Ids(cs[..|cs| - 1])
  {
    var front := cs[..|cs| - 1];
    forall i | 0 <= i < |front| ensures front[i].contact.id != cs[|cs| - 1].contact.id {
      assert front[i] == cs[i];
    }
  }

  /** The IDs of the contacts in ascending order. */
  function ObjectIDs(cs: seq<Track>): (r: seq<nat>)
    ensures |r| == |cs|
    ensures forall id :: id in r <==> id in Ids(cs)
    ensures NoDuplicates(cs) ==> StrictlyAscending(r)
  {
    if |cs| == 0 then []
    else
      var n := |cs| - 1;
      var rest := ObjectIDs(cs[..n]);
      assert cs == cs[..n] + [cs[n]];
      IdsAppend(cs[..n], cs[n]);
      assert NoDuplicates(cs) ==> StrictlyAscending(Insert(cs[n].contact.id, rest)) by {
        if NoDuplicates(cs) {
          LastIsNew(cs);
          InsertAscending(cs[n].contact.id, rest);
        }
      }
      Insert(cs[n].contact.id, rest)
  }

  /** The sorted IDs of a duplicate-free list are determined by its set of IDs. */
  lemma {:induction false} SortedUnique(r: seq<nat>, s: seq<nat>)
    requires StrictlyAscending(r) && StrictlyAscending(s)
    requires forall x :: x in r <==> x in s
    ensures r == s
  {
    assert s != [] ==> s[0] in r;
    if r != [] {
      assert r[0] in s;
      assert s[0] in r;
      assert r[0] == s[0];
      forall x ensures x in r[1..] <==> x in s[1..] {
        if x in r[1..] { assert x in s && x != s[0]; }
        if x in s[1..] { assert x in r && x != r[0]; }
      }
      SortedUnique(r[1..], s[1..]);
    }
  }

  class Group {
    var contacts: seq<Track>
    var declaration: Declaration
    var isThreat: bool
    var mergedWith: nat

    constructor (seed: Track)
      ensures contacts == [seed] && declaration == Unable && !isThreat && mergedWith == 0
    {
      contacts := [seed];
      declaration := Unable;
      isThreat := false;
      mergedWith := 0;
    }
  }

  /** The contacts of each group. */
  ghost predicate Hold(groups: seq<Group>, contents: seq<seq<Track>>)
    reads groups
  {
    |groups| == |contents| && forall i :: 0 <= i < |groups| ==> groups[i].contacts == contents[i]
  }

  lemma HoldAppend(groups: seq<Group>, contents: seq<seq<Track>>, group: Group)
    requires Hold(groups, contents)
    ensures Hold(groups + [group], contents + [group.contacts])
  {
  }

  /** The centre of the group: midpoints taken contact by contact. */
  ghost function Centre(midpoint: (Point, Point) -> Point, cs: seq<Track>, k: nat): Point
    requires 0 < k <= |cs|
  {
    if k == 1 then Position(cs[0]) else midpoint(Centre(midpoint, cs, k - 1), Position(cs[k - 1]))
  }

  method GroupPoint(midpoint: (Point, Point) -> Point, cs: seq<Track>) returns (center: Point)
    requires cs != []
    ensures center == Centre(midpoint, cs, |cs|)
  {
    center := Position(cs[0]);
    for k := 1 to |cs|
      invariant center == Centre(midpoint, cs, k)
    {
      center := midpoint(center, Position(cs[k]));
    }
  }

  // ---------------------------------------------------------------- iteration order

  /** An iteration order: every ID once. */
  ghost predicate Lists(order: seq<nat>, ids: set<nat>) {
    && (forall i, j :: 0 <= i < j < |order| ==> order[i] != order[j])
    && forall id :: id in order <==> id in ids
  }

  /** Iteration over a map: any order, each key once. */
  method Iterate<V>(m: map<nat, V>) returns (order: seq<nat>)
    ensures Lists(order, m.Keys)
  {
    order := [];
    var rest := m.Keys;
    while rest != {}
      invariant rest <= m.Keys
      invariant Lists(order, m.Keys - rest)
    {
      var id :| id in rest;
      order := order + [id];
      rest := rest - {id};
    }
  }

  // ---------------------------------------------------------------- the recursive walk

  /** Every contact of the database that `t` links to is in the group. */
  ghost predicate Expanded(w: World, db: Database, cs: seq<Track>, t: Track)
    requires |cs| > 0
  {
    forall id :: id in db && Links(w, SeedCategory(w, cs[0]), t, db[id]) ==> id in Ids(cs)
  }

  ghost predicate Growing(w: World, db: Database, cs: seq<Track>) {
    DrawnFrom(db, cs) && Ids(cs) <= ReachSet(w, db, cs[0])
  }

  /** Every contact from index `n` on has been expanded. */
  ghost predicate ExpandedFrom(w: World, db: Database, cs: seq<Track>, n: nat) {
    |cs| > 0 && forall i :: n <= i < |cs| ==> Expanded(w, db, cs, cs[i])
  }

  /** The first `k` of `others` are in the group if `t` links to them. */
  ghost predicate ExpandedUpTo(w: World, db: Database, cs: seq<Track>, t: Track, others: seq<nat>, k: nat)
    requires k <= |others|
  {
    |cs| > 0 && forall i :: 0 <= i < k && others[i] in db && Links(w, SeedCategory(w, cs[0]), t, db[others[i]]) ==>
                              others[i] in Ids(cs)
  }

  method AddNearbyAircraftToGroup(w: World, db: Database, current: Track, group: Group)
    requires WellKeyed(db)
    requires Growing(w, db, group.contacts)
    requires current in group.contacts
    modifies group`contacts
    ensures Growing(w, db, group.contacts)
    ensures old(group.contacts) <= group.contacts
    ensures Expanded(w, db, group.contacts, current)
    ensures ExpandedFrom(w, db, group.contacts, |old(group.contacts)|)
    decreases db.Keys - Ids(group.contacts)
  {
    var others := Iterate(db);
    for k := 0 to |others|
      invariant Growing(w, db, group.contacts)
      invariant old(group.contacts) <= group.contacts
      invariant ExpandedUpTo(w, db, group.contacts, current, others, k)
      invariant ExpandedFrom(w, db, group.contacts, |old(group.contacts)|)
    {
      assert others[k] in others;
      var other := db[others[k]];
      SkipCovers(w, db, group.contacts, current, others, k);
      if other.contact.id in ObjectIDs(group.contacts) {
        continue;
      }
      if !IsMatch(w, other, current.contact.coalition, SeedCategory(w, group.contacts[0])) {
        continue;
      }
      if RequiredTag(w, current).Some? && !HasTag(w, other, RequiredTag(w, current).value) {
        continue;
      }
      if !(w.distance(Position(other), Position(current)) < SPREAD) {
        continue;
      }
      ghost var before := group.contacts;
      PrefixIds(old(group.contacts), before);
      Joins(w, db, before, current, other);
      group.contacts := group.contacts + [other];
      AddNearbyAircraftToGroup(w, db, other, group);
      GrowKeeps(w, db, |old(group.contacts)|, before, other, group.contacts);
      GrowCovers(w, db, before, group.contacts, current, others, k);
    }
    AllCovered(w, db, group.contacts, current, others);
  }

  lemma AllCovered(w: World, db: Database, cs: seq<Track>, t: Track, others: seq<nat>)
    requires Lists(others, db.Keys) && ExpandedUpTo(w, db, cs, t, others, |others|)
    ensures Expanded(w, db, cs, t)
  {
    forall id | id in db && Links(w, SeedCategory(w, cs[0]), t, db[id]) ensures id in Ids(cs) {
      assert id in others;
    }
  }

  lemma Joins(w: World, db: Database, cs: seq<Track>, current: Track, other: Track)
    requires WellKeyed(db) && Growing(w, db, cs) && current in cs
    requires other.contact.id in db && db[other.contact.id] == other && other.contact.id !in Ids(cs)
    requires Links(w, SeedCategory(w, cs[0]), current, other)
    ensures Growing(w, db, cs + [other])
    ensures Ids(cs + [other]) == Ids(cs) + {other.contact.id}
  {
    IdsAppend(cs, other);
    var i :| 0 <= i < |cs| && cs[i] == current;
    assert cs[0].contact.id in Ids(cs);
    assert View(db, cs[0])[other.contact.id] == other;
    ReachStep(w, db, cs[0], current.contact.id, other.contact.id);
    var ds := cs + [other];
    forall a, b | 0 <= a < b < |ds| ensures ds[a].contact.id != ds[b].contact.id {
      if b == |cs| { assert cs[a].contact.id in Ids(cs); }
    }
  }

  lemma PrefixIds(cs: seq<Track>, ds: seq<Track>)
    requires cs <= ds
    ensures Ids(cs) <= Ids(ds)
  {
    forall id | id in Ids(cs) ensures id in Ids(ds) {
      var i :| 0 <= i < |cs| && cs[i].contact.id == id;
      assert ds[i] == cs[i];
    }
  }

  /** What was expanded before a recursive call stays expanded after it. */
  lemma GrowKeeps(w: World, db: Database, n: nat, before: seq<Track>, other: Track, after: seq<Track>)
    requires n <= |before| && before + [other] <= after
    requires ExpandedFrom(w, db, before, n)
    requires Expanded(w, db, after, other)
    requires ExpandedFrom(w, db, after, |before| + 1)
    ensures ExpandedFrom(w, db, after, n)
  {
    var joined := before + [other];
    assert before <= after by {
      assert before == joined[..|before|] == after[..|joined|][..|before|];
    }
    PrefixIds(before, after);
    forall i | n <= i < |after| ensures Expanded(w, db, after, after[i]) {
      if i < |before| {
        assert after[i] == before[i] && after[0] == before[0];
        assert Expanded(w, db, before, before[i]);
      } else if i == |before| {
        assert after[i] == joined[i] == other;
      }
    }
  }

  lemma SkipCovers(w: World, db: Database, cs: seq<Track>, t: Track, others: seq<nat>, k: nat)
    requires k < |others| && others[k] in db && ExpandedUpTo(w, db, cs, t, others, k)
    ensures !Links(w, SeedCategory(w, cs[0]), t, db[others[k]]) || others[k] in Ids(cs) ==>
              ExpandedUpTo(w, db, cs, t, others, k + 1)
  {
  }

  lemma GrowCovers(w: World, db: Database, before: seq<Track>, after: seq<Track>, t: Track, others: seq<nat>, k: nat)
    requires WellKeyed(db) && k < |others| && others[k] in db && before + [db[others[k]]] <= after
    requires ExpandedUpTo(w, db, before, t, others, k)
    ensures ExpandedUpTo(w, db, after, t, others, k + 1)
  {
    var joined := before + [db[others[k]]];
    assert before == joined[..|before|] == after[..|joined|][..|before|];
    PrefixIds(before, after);
    PrefixIds(joined, after);
    IdsAppend(before, db[others[k]]);
    assert after[0] == before[0];
  }

  /** A group around a located aircraft is exactly the set of contacts reachable from it. An
      unlocated aircraft stays alone, and no aircraft gives no group. */
  method FindGroupForAircraft(w: World, db: Database, trackfile: Option<Track>) returns (group: Group?)
    requires WellKeyed(db)
    ensures trackfile.None? <==> group == null
    ensures group != null ==> fresh(group) && group.contacts != [] && group.contacts[0] == trackfile.value
    ensures group != null && Located(trackfile.value) ==> IsGroup(w, db, group.contacts)
    ensures group != null && !Located(trackfile.value) ==> group.contacts == [trackfile.value]
  {
    if trackfile.None? {
      return null;
    }
    var seed := trackfile.value;
    var g := new Group(seed);
    if Located(seed) {
      ReachSelf(w, db, seed);
      AddNearbyAircraftToGroup(w, db, seed, g);
      WalkIsClosure(w, db, g.contacts);
    }
    group := g;
  }

  lemma WalkIsClosure(w: World, db: Database, cs: seq<Track>)
    requires WellKeyed(db) && Growing(w, db, cs)
    requires ExpandedFrom(w, db, cs, 0)
    ensures IsGroup(w, db, cs)
  {
    var seed := cs[0];
    assert seed.contact.id in Ids(cs);
    var view := View(db, seed);
    forall a, b | a in Ids(cs) && a in view && b in view && Links(w, SeedCategory(w, seed), view[a], view[b])
      ensures b in Ids(cs)
    {
      var i :| 0 <= i < |cs| && cs[i].contact.id == a;
      assert view[a] == cs[i];
      assert Expanded(w, db, cs, cs[i]);
    }
    ClosedHoldsReach(w, db, seed, Ids(cs));
  }

  /** Every other member of a group is a valid track of the seed's coalition and, if known, of its
      category; it is within 5 NM of a member and has the tag that this member asks for. */
  lemma MembersAreAlike(w: World, db: Database, cs: seq<Track>, i: nat)
    requires WellKeyed(db) && IsGroup(w, db, cs) && 0 < i < |cs|
    ensures cs[i].contact.coalition == cs[0].contact.coalition && IsValidTrack(w, cs[i])
    ensures SeedCategory(w, cs[0]) != AnyAircraft && w.encyclopedia(cs[i].contact.acmiName).Some? ==>
              SeedCategory(w, cs[i]) == SeedCategory(w, cs[0])
    ensures exists j :: 0 <= j < |cs| && w.distance(Position(cs[i]), Position(cs[j])) < SPREAD
                        && (RequiredTag(w, cs[j]).Some? ==> HasTag(w, cs[i], RequiredTag(w, cs[j]).value))
  {
    var view, seed := View(db, cs[0]), cs[0];
    var same := set id | id in view && view[id].contact.coalition == seed.contact.coalition;
    ClosedHoldsReach(w, db, seed, same);
    hide ReachSet;
    assert cs[i].contact.id in Ids(cs);
    assert cs[0].contact.id != cs[i].contact.id;
    var from := LastLink(w, db, seed, cs[i].contact.id);
    assert from in Ids(cs);
    var j :| 0 <= j < |cs| && cs[j].contact.id == from;
    assert view[from] == cs[j] && view[cs[i].contact.id] == cs[i];
  }

  /** Members of a group share the coalition of its seed. */
  lemma GroupCoalition(w: World, db: Database, cs: seq<Track>)
    requires WellKeyed(db) && IsGroup(w, db, cs)
    ensures forall i :: 0 <= i < |cs| ==> cs[i].contact.coalition == cs[0].contact.coalition
  {
    var view := View(db, cs[0]);
    var same := set id | id in view && view[id].contact.coalition == cs[0].contact.coalition;
    ClosedHoldsReach(w, db, cs[0], same);
    forall i | 0 <= i < |cs| ensures cs[i].contact.coalition == cs[0].contact.coalition {
      assert cs[i].contact.id in Ids(cs);
    }
  }

  /** Two walks from one seed list the same IDs, whatever the iteration orders were. */
  lemma GroupIsOrderIndependent(w: World, db: Database, cs: seq<Track>, ds: seq<Track>)
    requires IsGroup(w, db, cs) && IsGroup(w, db, ds) && cs[0] == ds[0]
    ensures ObjectIDs(cs) == ObjectIDs(ds)
  {
    SortedUnique(ObjectIDs(cs), ObjectIDs(ds));
  }

  // ---------------------------------------------------------------- groups by tags

  /** The neighbour fits the wings of the seed: any neighbour of unknown type does; a seed without a wing
      tag takes all; a helicopter takes helicopters; any other seed takes fixed-wing aircraft. */
  ghost predicate WingsMatch(seed: Option<Aircraft>, to: Option<Aircraft>) {
    to.Some? && !(seed.Some? && FixedWingTag !in seed.value.tags && RotaryWingTag !in seed.value.tags) ==>
      if seed.Some? && FixedWingTag !in seed.value.tags
      then RotaryWingTag in to.value.tags && FixedWingTag !in to.value.tags
      else FixedWingTag in to.value.tags
  }

  /** The neighbour fits the role of the aircraft: a fighter takes fighters; an attack aircraft that is no
      fighter takes attack aircraft; an unarmed one that is neither takes unarmed ones; all others take
      all. */
  ghost predicate RolesMatch(from: Option<Aircraft>, to: Option<Aircraft>) {
    from.Some? ==>
      && (Fighter in from.value.tags ==> to.Some? && Fighter in to.value.tags)
      && (Fighter !in from.value.tags && Attack in from.value.tags ==> to.Some? && Attack in to.value.tags)
      && (Fighter !in from.value.tags && Attack !in from.value.tags && Unarmed in from.value.tags ==>
            to.Some? && Unarmed in to.value.tags)
  }

  /** A link in a group with the given seed, by tags, coalition, movement and distance alone. */
  ghost predicate TagLink(w: World, seed: Track, from: Track, to: Track) {
    var types := w.encyclopedia;
    && to.contact.coalition == from.contact.coalition
    && IsValidTrack(w, to)
    && WingsMatch(types(seed.contact.acmiName), types(to.contact.acmiName))
    && RolesMatch(types(from.contact.acmiName), types(to.contact.acmiName))
    && w.distance(Position(to), Position(from)) < 5.0 * 1852.0
  }

  lemma LinksByTags(w: World, seed: Track, from: Track, to: Track)
    ensures Links(w, SeedCategory(w, seed), from, to) <==> TagLink(w, seed, from, to)
  {
    hide IsValidTrack;
    var types := w.encyclopedia;
    WingsByTags(types(seed.contact.acmiName), types(to.contact.acmiName));
    RolesByTags(types(from.contact.acmiName), types(to.contact.acmiName));
    hide AircraftCategory, RoleOf, WingsMatch, RolesMatch;
  }

  lemma WingsByTags(seed: Option<Aircraft>, to: Option<Aircraft>)
    ensures var c := if seed.None? then FixedWing else AircraftCategory(seed.value);
            (to.None? || AircraftCategory(to.value) == c || c == AnyAircraft) <==> WingsMatch(seed, to)
  {
  }

  lemma RolesByTags(from: Option<Aircraft>, to: Option<Aircraft>)
    ensures (RoleOf(from).Some? ==> to.Some? && RoleOf(from).value in to.value.tags) <==> RolesMatch(from, to)
  {
  }

  ghost predicate TagClosed(w: World, db: Database, seed: Track, ids: set<nat>) {
    var view := db[seed.contact.id := seed];
    forall a, b | a in ids && a in view && b in view :: TagLink(w, seed, view[a], view[b]) ==> b in ids
  }

  /** The IDs of a group are the least set that holds the seed and, with an aircraft, every neighbour that
      the tags link to it. */
  lemma GroupByTags(w: World, db: Database, cs: seq<Track>, ids: set<nat>)
    requires IsGroup(w, db, cs)
    ensures cs[0].contact.id in Ids(cs) && TagClosed(w, db, cs[0], Ids(cs))
    ensures cs[0].contact.id in ids && TagClosed(w, db, cs[0], ids) ==> Ids(cs) <= ids
  {
    var seed := cs[0];
    var view := View(db, seed);
    hide Links, TagLink, ReachSet;
    ReachSelf(w, db, seed);
    forall a, b | a in Ids(cs) && a in view && b in view && TagLink(w, seed, view[a], view[b]) ensures b in Ids(cs) {
      LinksByTags(w, seed, view[a], view[b]);
      ReachStep(w, db, seed, a, b);
    }
    if seed.contact.id in ids && TagClosed(w, db, seed, ids) {
      forall a, b | a in ids && a in view && b in view && Links(w, SeedCategory(w, seed), view[a], view[b])
        ensures b in ids
      {
        LinksByTags(w, seed, view[a], view[b]);
      }
      ClosedHoldsReach(w, db, seed, ids);
    }
  }

  /** The centre of a group is the last of a trail of midpoints, one step for each contact. */
  lemma {:induction false} CentreIsTrail(midpoint: (Point, Point) -> Point, cs: seq<Track>, k: nat)
    returns (trail: seq<Point>)
    requires 0 < k <= |cs|
    ensures |trail| == k && trail[0] == Position(cs[0]) && trail[k - 1] == Centre(midpoint, cs, k)
    ensures forall i, j :: 0 <= i < j < k && j == i + 1 ==> trail[j] == midpoint(trail[i], Position(cs[j]))
  {
    if k == 1 {
      trail := [Position(cs[0])];
    } else {
      var before := CentreIsTrail(midpoint, cs, k - 1);
      trail := before + [Centre(midpoint, cs, k)];
    }
  }
}
