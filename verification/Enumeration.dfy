/**
 Collecting a coalition's contacts into groups. Each group is the closure of a seed that no earlier
 group holds. Whether the groups can overlap depends on the direction of links: the main theorem
 says that they are disjoint in every iteration order exactly when neighbours accept each other
 mutually.
 */
module Enumeration {
  import opened Tracks
  import opened Grouping

  predicate Enumerable(w: World, t: Track, coalition: Coalition) {
    t.contact.coalition == coalition && IsValidTrack(w, t)
  }

  ghost function ValidIds(w: World, db: Database, coalition: Coalition): set<nat> {
    set id | id in db && Enumerable(w, db[id], coalition)
  }

  /** The group that each contact would seed. */
  ghost function ReachMap(w: World, db: Database): map<nat, set<nat>> {
    map id | id in db :: ReachSet(w, db, db[id])
  }

  // ---------------------------------------------------------------- seeds

  ghost predicate Covered(reach: map<nat, set<nat>>, seeds: seq<nat>, id: nat) {
    exists i :: 0 <= i < |seeds| && seeds[i] in reach && id in reach[seeds[i]]
  }

  /** The seeds met among the first `k` contacts of the given order. */
  ghost function SeedsUpTo(reach: map<nat, set<nat>>, valid: set<nat>, order: seq<nat>, k: nat): seq<nat>
    requires k <= |order|
  {
    if k == 0 then []
    else
      var seeds := SeedsUpTo(reach, valid, order, k - 1);
      if order[k - 1] in valid && !Covered(reach, seeds, order[k - 1]) then seeds + [order[k - 1]] else seeds
  }

  ghost function SeedsOf(reach: map<nat, set<nat>>, valid: set<nat>, order: seq<nat>): seq<nat> {
    SeedsUpTo(reach, valid, order, |order|)
  }

  ghost predicate Disjoint(reach: map<nat, set<nat>>, seeds: seq<nat>) {
    forall i, j :: 0 <= i < j < |seeds| && seeds[i] in reach && seeds[j] in reach ==> reach[seeds[i]] !! reach[seeds[j]]
  }

  lemma CoveredAppend(reach: map<nat, set<nat>>, seeds: seq<nat>, s: nat, id: nat)
    requires s in reach
    ensures Covered(reach, seeds + [s], id) <==> Covered(reach, seeds, id) || id in reach[s]
  {
    var more := seeds + [s];
    if Covered(reach, seeds, id) {
      var i :| 0 <= i < |seeds| && seeds[i] in reach && id in reach[seeds[i]];
      assert more[i] == seeds[i];
    }
    assert more[|seeds|] == s;
  }

  lemma {:induction false} SeedsAreMet(reach: map<nat, set<nat>>, valid: set<nat>, order: seq<nat>, k: nat)
    requires k <= |order|
    ensures forall s :: s in SeedsUpTo(reach, valid, order, k) ==> s in valid && s in order
  {
    if k > 0 {
      SeedsAreMet(reach, valid, order, k - 1);
    }
  }

  /** No seed is in an earlier group. */
  lemma {:induction false} SeedsAreNew(reach: map<nat, set<nat>>, valid: set<nat>, order: seq<nat>, k: nat,
      i: nat, j: nat)
    requires k <= |order| && i < j < |SeedsUpTo(reach, valid, order, k)|
    ensures var seeds := SeedsUpTo(reach, valid, order, k);
            seeds[i] in reach ==> seeds[j] !in reach[seeds[i]]
  {
    if j < |SeedsUpTo(reach, valid, order, k - 1)| {
      SeedsAreNew(reach, valid, order, k - 1, i, j);
    }
  }

  /** Every valid contact that has been met is in a group. */
  lemma {:induction false} ContactsAreCovered(reach: map<nat, set<nat>>, valid: set<nat>, order: seq<nat>,
      k: nat, i: nat)
    requires i < k <= |order| && order[i] in valid
    requires forall id :: id in order ==> id in reach && id in reach[id]
    ensures Covered(reach, SeedsUpTo(reach, valid, order, k), order[i])
  {
    CoveredAppend(reach, SeedsUpTo(reach, valid, order, k - 1), order[k - 1], order[i]);
    if i < k - 1 {
      ContactsAreCovered(reach, valid, order, k - 1, i);
    }
  }

  lemma {:induction false} SeedsPrefix(reach: map<nat, set<nat>>, valid: set<nat>, order: seq<nat>, j: nat, k: nat)
    requires j <= k <= |order|
    ensures SeedsUpTo(reach, valid, order, j) <= SeedsUpTo(reach, valid, order, k)
  {
    if j < k {
      SeedsPrefix(reach, valid, order, j, k - 1);
    }
  }

  // ---------------------------------------------------------------- the enumeration

  /** Each group is the closure of its seed. */
  ghost predicate GroupsOf(w: World, db: Database, seeds: seq<nat>, contents: seq<seq<Track>>) {
    && |contents| == |seeds|
    && forall i :: 0 <= i < |seeds| ==> seeds[i] in db && IsGroup(w, db, contents[i]) && contents[i][0] == db[seeds[i]]
  }

  /** Among contacts still to come, the visited ones are those in some group so far. */
  ghost predicate VisitedIsCovered(reach: map<nat, set<nat>>, seeds: seq<nat>, order: seq<nat>, k: nat,
      visited: set<nat>) {
    forall i :: k <= i < |order| ==> (order[i] in visited <==> Covered(reach, seeds, order[i]))
  }

  ghost predicate Progress(w: World, db: Database, coalition: Coalition, order: seq<nat>, k: nat,
      contents: seq<seq<Track>>, visited: set<nat>)
    requires k <= |order|
  {
    var seeds := SeedsUpTo(ReachMap(w, db), ValidIds(w, db, coalition), order, k);
    GroupsOf(w, db, seeds, contents) && VisitedIsCovered(ReachMap(w, db), seeds, order, k, visited)
  }

  method EnumerateGroups(w: World, db: Database, coalition: Coalition)
    returns (groups: seq<Group>, ghost order: seq<nat>, ghost contents: seq<seq<Track>>)
    requires WellKeyed(db)
    ensures Lists(order, db.Keys)
    ensures Hold(groups, contents)
    ensures GroupsOf(w, db, SeedsOf(ReachMap(w, db), ValidIds(w, db, coalition), order), contents)
  {
    var ids := Iterate(db);
    order := ids;
    groups, contents := [], [];
    var visited: set<nat> := {};
    for k := 0 to |ids|
      invariant Hold(groups, contents)
      invariant Progress(w, db, coalition, order, k, contents, visited)
    {
      assert ids[k] in ids;
      var t := db[ids[k]];
      SkipContact(w, db, coalition, order, k, contents, visited);
      if t.contact.id in visited {
        continue;
      }
      ghost var before := visited;
      visited := visited + {t.contact.id};
      if !Enumerable(w, t, coalition) {
        continue;
      }
      var found := FindGroupForAircraft(w, db, Some(t));
      assert Hold(groups, contents);
      if found == null {
        assert false;
      } else {
        var group: Group := found;
        visited := visited + set id | id in ObjectIDs(group.contacts);
        HoldAppend(groups, contents, group);
        AddGroup(w, db, coalition, order, k, contents, before, group.contacts);
        groups, contents := groups + [group], contents + [group.contacts];
      }
    }
  }

  lemma SkipContact(w: World, db: Database, coalition: Coalition, order: seq<nat>, k: nat,
      contents: seq<seq<Track>>, visited: set<nat>)
    requires Lists(order, db.Keys) && k < |order| && Progress(w, db, coalition, order, k, contents, visited)
    ensures order[k] in visited ==> Progress(w, db, coalition, order, k + 1, contents, visited)
    ensures order[k] !in ValidIds(w, db, coalition) ==>
              Progress(w, db, coalition, order, k + 1, contents, visited + {order[k]})
  {
    NextSeeds(ReachMap(w, db), ValidIds(w, db, coalition), order, k, visited);
  }

  lemma AddGroup(w: World, db: Database, coalition: Coalition, order: seq<nat>, k: nat,
      contents: seq<seq<Track>>, visited: set<nat>, cs: seq<Track>)
    requires Lists(order, db.Keys) && k < |order| && order[k] in db
             && Progress(w, db, coalition, order, k, contents, visited)
    requires order[k] in ValidIds(w, db, coalition) && order[k] !in visited
    requires IsGroup(w, db, cs) && cs[0] == db[order[k]]
    ensures Progress(w, db, coalition, order, k + 1, contents + [cs], visited + {order[k]} + Ids(cs))
  {
    var reach, valid := ReachMap(w, db), ValidIds(w, db, coalition);
    NextSeeds(reach, valid, order, k, visited);
    VisitGroup(reach, SeedsUpTo(reach, valid, order, k), order, k, visited, visited + {order[k]} + Ids(cs));
    GroupsAppend(w, db, SeedsUpTo(reach, valid, order, k), order[k], contents, cs);
  }

  lemma NextSeeds(reach: map<nat, set<nat>>, valid: set<nat>, order: seq<nat>, k: nat, visited: set<nat>)
    requires k < |order| && VisitedIsCovered(reach, SeedsUpTo(reach, valid, order, k), order, k, visited)
    ensures SeedsUpTo(reach, valid, order, k + 1) ==
            SeedsUpTo(reach, valid, order, k) + if order[k] in valid && order[k] !in visited then [order[k]] else []
  {
  }

  lemma GroupsAppend(w: World, db: Database, seeds: seq<nat>, s: nat, contents: seq<seq<Track>>, cs: seq<Track>)
    requires GroupsOf(w, db, seeds, contents) && s in db && IsGroup(w, db, cs) && cs[0] == db[s]
    ensures GroupsOf(w, db, seeds + [s], contents + [cs])
  {
  }

  lemma VisitGroup(reach: map<nat, set<nat>>, seeds: seq<nat>, order: seq<nat>, k: nat, before: set<nat>,
      after: set<nat>)
    requires k < |order| && order[k] in reach
    requires forall i, j :: 0 <= i < j < |order| ==> order[i] != order[j]
    requires VisitedIsCovered(reach, seeds, order, k, before)
    requires after == before + {order[k]} + reach[order[k]]
    ensures VisitedIsCovered(reach, seeds + [order[k]], order, k + 1, after)
  {
    forall i | k + 1 <= i < |order|
      ensures order[i] in after <==> Covered(reach, seeds + [order[k]], order[i])
    {
      CoveredAppend(reach, seeds, order[k], order[i]);
    }
  }

  lemma InView(db: Database, t: Track)
    requires t.contact.id in db && db[t.contact.id] == t
    ensures View(db, t) == db
  {
  }

  /** A group grown from an enumerable seed holds enumerable contacts only. */
  lemma ReachIsValid(w: World, db: Database, seed: Track, coalition: Coalition)
    requires seed.contact.id in db && db[seed.contact.id] == seed && Enumerable(w, seed, coalition)
    ensures ReachSet(w, db, seed) <= ValidIds(w, db, coalition)
  {
    InView(db, seed);
    ClosedHoldsReach(w, db, seed, ValidIds(w, db, coalition));
  }

  /** The contacts in some group are exactly the valid contacts of the coalition. */
  lemma CoveredIffValid(w: World, db: Database, coalition: Coalition, order: seq<nat>, id: nat)
    requires WellKeyed(db) && Lists(order, db.Keys)
    ensures var reach, valid := ReachMap(w, db), ValidIds(w, db, coalition);
            Covered(reach, SeedsOf(reach, valid, order), id) <==>
            id in db && db[id].contact.coalition == coalition && IsValidTrack(w, db[id])
    ensures id in ValidIds(w, db, coalition) <==>
            id in db && db[id].contact.coalition == coalition && IsValidTrack(w, db[id])
  {
    var reach, valid := ReachMap(w, db), ValidIds(w, db, coalition);
    var seeds := SeedsOf(reach, valid, order);
    SeedsAreMet(reach, valid, order, |order|);
    if id in valid {
      forall s | s in order ensures s in reach && s in reach[s] {
        ReachSelf(w, db, db[s]);
      }
      var k :| 0 <= k < |order| && order[k] == id;
      ContactsAreCovered(reach, valid, order, |order|, k);
    }
    if i :| 0 <= i < |seeds| && seeds[i] in reach && id in reach[seeds[i]] {
      assert seeds[i] in valid;
      ReachIsValid(w, db, db[seeds[i]], coalition);
    }
  }

  // ---------------------------------------------------------------- disjointness

  predicate OwnLink(w: World, from: Track, to: Track) {
    Links(w, SeedCategory(w, from), from, to)
  }

  /** Valid contacts of the coalition accept each other mutually or not at all. */
  ghost predicate LinksMutual(w: World, db: Database, coalition: Coalition) {
    forall x, y :: x in db && y in db && Enumerable(w, db[x], coalition) && OwnLink(w, db[x], db[y]) ==>
                     OwnLink(w, db[y], db[x])
  }

  ghost predicate DisjointInEveryOrder(w: World, db: Database, coalition: Coalition) {
    forall order :: Lists(order, db.Keys) ==>
                      Disjoint(ReachMap(w, db), SeedsOf(ReachMap(w, db), ValidIds(w, db, coalition), order))
  }

  /** With mutual links, a whole group shares the category of its seed. */
  lemma GroupSharesCategory(w: World, db: Database, coalition: Coalition, s: nat)
    requires WellKeyed(db) && LinksMutual(w, db, coalition)
    requires s in db && Enumerable(w, db[s], coalition)
    ensures forall x :: x in ReachSet(w, db, db[s]) ==>
                          x in db && Enumerable(w, db[x], coalition) && SeedCategory(w, db[x]) == SeedCategory(w, db[s])
  {
    var alike := set x | x in db && Enumerable(w, db[x], coalition) && SeedCategory(w, db[x]) == SeedCategory(w, db[s]);
    InView(db, db[s]);
    forall a, b | a in alike && b in db && Links(w, SeedCategory(w, db[s]), db[a], db[b]) ensures b in alike {
      assert OwnLink(w, db[a], db[b]);
      assert OwnLink(w, db[b], db[a]);
    }
    ClosedHoldsReach(w, db, db[s], alike);
  }

  lemma ReachInside(w: World, db: Database, coalition: Coalition, s: nat, x: nat)
    requires WellKeyed(db) && LinksMutual(w, db, coalition)
    requires s in db && Enumerable(w, db[s], coalition) && x in ReachSet(w, db, db[s])
    ensures x in db && ReachSet(w, db, db[x]) <= ReachSet(w, db, db[s])
  {
    GroupSharesCategory(w, db, coalition, s);
    InView(db, db[s]);
    InView(db, db[x]);
    var reach := ReachSet(w, db, db[s]);
    forall a, b | a in reach && b in db && Links(w, SeedCategory(w, db[x]), db[a], db[b]) ensures b in reach {
      ReachStep(w, db, db[s], a, b);
    }
    ClosedHoldsReach(w, db, db[x], reach);
  }

  /** With mutual links, a group is the group of each of its members: a connected component. */
  lemma GroupIsComponent(w: World, db: Database, coalition: Coalition, s: nat, x: nat)
    requires WellKeyed(db) && LinksMutual(w, db, coalition)
    requires s in db && Enumerable(w, db[s], coalition) && x in ReachSet(w, db, db[s])
    ensures x in db && ReachSet(w, db, db[x]) == ReachSet(w, db, db[s])
  {
    GroupSharesCategory(w, db, coalition, s);
    InView(db, db[s]);
    var reach := ReachSet(w, db, db[s]);
    ReachSelf(w, db, db[s]);
    var back := set y | y in reach && s in ReachSet(w, db, db[y]);
    forall a, b | a in back && b in db && Links(w, SeedCategory(w, db[s]), db[a], db[b]) ensures b in back {
      ReachStep(w, db, db[s], a, b);
      assert OwnLink(w, db[a], db[b]);
      assert OwnLink(w, db[b], db[a]);
      InView(db, db[b]);
      ReachSelf(w, db, db[b]);
      ReachStep(w, db, db[b], b, a);
      ReachInside(w, db, coalition, b, a);
    }
    ClosedHoldsReach(w, db, db[s], back);
    ReachInside(w, db, coalition, s, x);
    ReachInside(w, db, coalition, x, s);
  }

  lemma MutualLinksSuffice(w: World, db: Database, coalition: Coalition, order: seq<nat>)
    requires WellKeyed(db) && LinksMutual(w, db, coalition) && Lists(order, db.Keys)
    ensures Disjoint(ReachMap(w, db), SeedsOf(ReachMap(w, db), ValidIds(w, db, coalition), order))
  {
    var reach, valid := ReachMap(w, db), ValidIds(w, db, coalition);
    var seeds := SeedsOf(reach, valid, order);
    SeedsAreMet(reach, valid, order, |order|);
    forall i, j, x | 0 <= i < j < |seeds| && seeds[i] in reach && seeds[j] in reach
                     && x in reach[seeds[i]] && x in reach[seeds[j]]
      ensures false
    {
      assert seeds[i] in valid && seeds[j] in valid;
      SeedsAreNew(reach, valid, order, |order|, i, j);
      GroupIsComponent(w, db, coalition, seeds[i], x);
      GroupIsComponent(w, db, coalition, seeds[j], x);
      ReachSelf(w, db, db[seeds[j]]);
    }
  }

  function TagRank(w: World, t: Track): nat {
    match RequiredTag(w, t)
    case None => 0
    case Some(tag) => if tag == Fighter then 3 else if tag == Attack then 2 else 1
  }

  /** A one-way link cannot be undone by a detour. */
  lemma OneWayStaysOneWay(w: World, db: Database, coalition: Coalition, x: nat, y: nat)
    requires w.Symmetric() && WellKeyed(db) && x in db && y in db
    requires Enumerable(w, db[x], coalition) && OwnLink(w, db[x], db[y]) && !OwnLink(w, db[y], db[x])
    ensures x !in ReachSet(w, db, db[y])
  {
    var c := SeedCategory(w, db[y]);
    var above := set id | id in db && db[id].contact.coalition == coalition && TagRank(w, db[id]) >= TagRank(w, db[y])
                          && (id == y || IsMatch(w, db[id], coalition, c));
    InView(db, db[y]);
    ClosedHoldsReach(w, db, db[y], above);
    assert w.distance(Position(db[x]), Position(db[y])) == w.distance(Position(db[y]), Position(db[x]));
    assert x !in above;
  }

  /** Some order starts with any two given contacts. */
  lemma OrderStarting(ids: set<nat>, x: nat, y: nat) returns (order: seq<nat>)
    requires x in ids && y in ids && x != y
    ensures Lists(order, ids) && |order| >= 2 && order[0] == x && order[1] == y
  {
    order := [x, y];
    var rest := ids - {x, y};
    while rest != {}
      invariant rest <= ids
      invariant |order| >= 2 && order[0] == x && order[1] == y
      invariant Lists(order, ids - rest)
    {
      var id :| id in rest;
      order := order + [id];
      rest := rest - {id};
    }
  }

  lemma OverlapWithoutMutualLinks(w: World, db: Database, coalition: Coalition, x: nat, y: nat)
    requires w.Symmetric() && WellKeyed(db) && x in db && y in db
    requires Enumerable(w, db[x], coalition) && OwnLink(w, db[x], db[y]) && !OwnLink(w, db[y], db[x])
    ensures !DisjointInEveryOrder(w, db, coalition)
  {
    var order := OrderStarting(db.Keys, y, x);
    var reach, valid := ReachMap(w, db), ValidIds(w, db, coalition);
    OneWayStaysOneWay(w, db, coalition, x, y);
    ReachSelf(w, db, db[y]);
    ReachSelf(w, db, db[x]);
    InView(db, db[x]);
    ReachStep(w, db, db[x], x, y);
    assert x in valid && y in valid && y in reach[x] && y in reach[y] && x !in reach[y];
    var seeds := SeedsOf(reach, valid, order);
    assert SeedsUpTo(reach, valid, order, 1) == [y];
    assert SeedsUpTo(reach, valid, order, 2) == [y, x];
    SeedsPrefix(reach, valid, order, 2, |order|);
    assert seeds[0] == y && seeds[1] == x;
  }

  /** The groups are disjoint in every iteration order if and only if links are mutual. */
  lemma DisjointIffMutual(w: World, db: Database, coalition: Coalition)
    requires w.Symmetric() && WellKeyed(db)
    ensures DisjointInEveryOrder(w, db, coalition) <==> LinksMutual(w, db, coalition)
  {
    if LinksMutual(w, db, coalition) {
      forall order | Lists(order, db.Keys)
        ensures Disjoint(ReachMap(w, db), SeedsOf(ReachMap(w, db), ValidIds(w, db, coalition), order))
      {
        MutualLinksSuffice(w, db, coalition, order);
      }
    } else {
      var x, y :| x in db && y in db && Enumerable(w, db[x], coalition) && OwnLink(w, db[x], db[y])
                  && !OwnLink(w, db[y], db[x]);
      OverlapWithoutMutualLinks(w, db, coalition, x, y);
    }
  }

  // ---------------------------------------------------------------- conservation

  ghost function TotalContacts(groups: seq<seq<Track>>): nat {
    if groups == [] then 0 else TotalContacts(groups[..|groups| - 1]) + |groups[|groups| - 1]|
  }

  lemma {:induction false} CountIds(cs: seq<Track>)
    requires NoDuplicates(cs)
    ensures |Ids(cs)| == |cs|
  {
    if cs != [] {
      var n := |cs| - 1;
      CountIds(cs[..n]);
      assert cs == cs[..n] + [cs[n]];
      IdsAppend(cs[..n], cs[n]);
      assert cs[n].contact.id !in Ids(cs[..n]);
    }
  }

  ghost function SetSizes(sets: seq<set<nat>>): nat {
    if sets == [] then 0 else SetSizes(sets[..|sets| - 1]) + |sets[|sets| - 1]|
  }

  lemma {:induction false} DisjointSizes(sets: seq<set<nat>>, union: set<nat>)
    requires forall i, j :: 0 <= i < j < |sets| ==> sets[i] !! sets[j]
    requires forall x :: x in union <==> exists i :: 0 <= i < |sets| && x in sets[i]
    ensures SetSizes(sets) == |union|
  {
    if sets == [] {
      assert union == {};
    } else {
      var n := |sets| - 1;
      var rest := union - sets[n];
      forall x ensures x in rest <==> exists i :: 0 <= i < n && x in sets[..n][i] {
        if x in rest {
          var i :| 0 <= i < |sets| && x in sets[i];
          assert x in sets[..n][i];
        }
        if i :| 0 <= i < n && x in sets[..n][i] {
          assert x in sets[i];
        }
      }
      DisjointSizes(sets[..n], rest);
      assert union == rest + sets[n];
    }
  }

  ghost function SetsOf(reach: map<nat, set<nat>>, seeds: seq<nat>): (r: seq<set<nat>>)
    requires forall s :: s in seeds ==> s in reach
    ensures |r| == |seeds| && forall i :: 0 <= i < |seeds| ==> r[i] == reach[seeds[i]]
  {
    seq(|seeds|, i requires 0 <= i < |seeds| => assert seeds[i] in seeds; reach[seeds[i]])
  }

  lemma {:induction false} ContactsPerSet(w: World, db: Database, seeds: seq<nat>, contents: seq<seq<Track>>)
    requires GroupsOf(w, db, seeds, contents)
    requires forall s :: s in seeds ==> s in ReachMap(w, db)
    ensures TotalContacts(contents) == SetSizes(SetsOf(ReachMap(w, db), seeds))
  {
    hide ReachSet, View;
    if seeds != [] {
      var n := |seeds| - 1;
      ContactsPerSet(w, db, seeds[..n], contents[..n]);
      assert SetsOf(ReachMap(w, db), seeds)[..n] == SetsOf(ReachMap(w, db), seeds[..n]);
      assert IsGroup(w, db, contents[n]);
      CountIds(contents[n]);
    }
  }

  lemma CoveredIffInSet(reach: map<nat, set<nat>>, seeds: seq<nat>, id: nat)
    requires forall s :: s in seeds ==> s in reach
    ensures Covered(reach, seeds, id) <==> exists i :: 0 <= i < |seeds| && id in SetsOf(reach, seeds)[i]
  {
    var sets := SetsOf(reach, seeds);
    if i :| 0 <= i < |seeds| && seeds[i] in reach && id in reach[seeds[i]] {
      assert id in sets[i];
    }
    if i :| 0 <= i < |seeds| && id in sets[i] {
      assert seeds[i] in seeds;
    }
  }

  /** Disjoint groups hold every valid contact of the coalition exactly once. */
  lemma SizesAddUp(w: World, db: Database, coalition: Coalition, order: seq<nat>, contents: seq<seq<Track>>)
    requires WellKeyed(db) && Lists(order, db.Keys)
    requires GroupsOf(w, db, SeedsOf(ReachMap(w, db), ValidIds(w, db, coalition), order), contents)
    requires Disjoint(ReachMap(w, db), SeedsOf(ReachMap(w, db), ValidIds(w, db, coalition), order))
    ensures TotalContacts(contents) == |ValidIds(w, db, coalition)|
  {
    var reach, valid := ReachMap(w, db), ValidIds(w, db, coalition);
    var seeds := SeedsOf(reach, valid, order);
    SeedsAreMet(reach, valid, order, |order|);
    ContactsPerSet(w, db, seeds, contents);
    var sets := SetsOf(reach, seeds);
    forall id ensures id in valid <==> exists i :: 0 <= i < |sets| && id in sets[i] {
      CoveredIffValid(w, db, coalition, order, id);
      CoveredIffInSet(reach, seeds, id);
    }
    DisjointSizes(sets, valid);
  }

  // ---------------------------------------------------------------- when links are mutual

  /** Known to the encyclopedia, with exactly one role tag and a wing tag. */
  predicate WellTagged(w: World, t: Track) {
    var data := w.encyclopedia(t.contact.acmiName);
    && data.Some?
    && |data.value.tags * {Fighter, Attack, Unarmed}| == 1
    && AircraftCategory(data.value) != AnyAircraft
  }

  lemma OneTag(s: set<Tag>, x: Tag, y: Tag)
    requires |s| == 1 && x in s && y in s
    ensures x == y
  {
    assert |s - {x}| == 0;
  }

  lemma WellTaggedIsMutual(w: World, db: Database, coalition: Coalition)
    requires w.Symmetric()
    requires forall id :: id in db && Enumerable(w, db[id], coalition) ==> WellTagged(w, db[id])
    ensures LinksMutual(w, db, coalition)
  {
    forall x, y | x in db && y in db && Enumerable(w, db[x], coalition) && OwnLink(w, db[x], db[y])
      ensures OwnLink(w, db[y], db[x])
    {
      var roles := {Fighter, Attack, Unarmed};
      var xs := w.encyclopedia(db[x].contact.acmiName).value.tags * roles;
      var ys := w.encyclopedia(db[y].contact.acmiName).value.tags * roles;
      assert RequiredTag(w, db[x]).None? ==> xs == {};
      assert RequiredTag(w, db[y]).None? ==> ys == {};
      OneTag(ys, RequiredTag(w, db[x]).value, RequiredTag(w, db[y]).value);
      assert w.distance(Position(db[x]), Position(db[y])) == w.distance(Position(db[y]), Position(db[x]));
    }
  }

  /** Two contacts of the given types, 1000 m apart and moving. */
  ghost function SideBySide(a: string, b: string): Database {
    var frames := [Frame(1_000_000_000, Point(1.0, 1.0), 0.0, 0.0), Frame(0, Point(2.0, 2.0), 0.0, 0.0)];
    map[1 := Track(Labels(1, "", Red, a), frames), 2 := Track(Labels(2, "", Red, b), frames)]
  }

  ghost function FlatWorld(sqrt: real -> real, encyclopedia: string -> Option<Aircraft>): World {
    World((p: Point, q: Point) => if p == q then 0.0 else 1000.0, sqrt, encyclopedia)
  }

  lemma SideBySideIsValid(sqrt: real -> real, encyclopedia: string -> Option<Aircraft>, a: string, b: string)
    ensures var w, db := FlatWorld(sqrt, encyclopedia), SideBySide(a, b);
            w.Symmetric() && WellKeyed(db) && IsValidTrack(w, db[1]) && IsValidTrack(w, db[2])
  {
    var w, frames := FlatWorld(sqrt, encyclopedia), SideBySide(a, b)[1].frames;
    assert GroundSpeed(w, frames) == 1000.0 / 1.001;
    assert Speed(w, frames) >= GroundSpeed(w, frames);
  }

  /** In every encyclopedia: an aircraft of unknown type takes in a fixed-wing aircraft with a role, which
      does not take it in, and the two groups overlap. */
  lemma UnknownTypeOverlaps(sqrt: real -> real, encyclopedia: string -> Option<Aircraft>, a: string, b: string)
    requires encyclopedia(a).None? && RoleOf(encyclopedia(b)).Some?
    requires AircraftCategory(encyclopedia(b).value) == FixedWing
    ensures !DisjointInEveryOrder(FlatWorld(sqrt, encyclopedia), SideBySide(a, b), Red)
  {
    var w, db := FlatWorld(sqrt, encyclopedia), SideBySide(a, b);
    SideBySideIsValid(sqrt, encyclopedia, a, b);
    hide IsValidTrack;
    assert OwnLink(w, db[1], db[2]) && !OwnLink(w, db[2], db[1]);
    OverlapWithoutMutualLinks(w, db, Red, 1, 2);
  }

  /** One role tag each is not enough, either: a fighter without a wing tag takes in a fixed-wing fighter
      that does not take it in. */
  lemma WingTagMatters(sqrt: real -> real, encyclopedia: string -> Option<Aircraft>, a: string, b: string)
    requires encyclopedia(a) == Some(Aircraft({Fighter}, 0.0))
    requires encyclopedia(b) == Some(Aircraft({Fighter, FixedWingTag}, 0.0))
    ensures !DisjointInEveryOrder(FlatWorld(sqrt, encyclopedia), SideBySide(a, b), Red)
  {
    var w, db := FlatWorld(sqrt, encyclopedia), SideBySide(a, b);
    SideBySideIsValid(sqrt, encyclopedia, a, b);
    hide IsValidTrack;
    assert OwnLink(w, db[1], db[2]) && !OwnLink(w, db[2], db[1]);
    OverlapWithoutMutualLinks(w, db, Red, 1, 2);
  }
}
