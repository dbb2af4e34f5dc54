/**
 One tick of the merge protocol: the tracker is updated from the radar's merge groups with a 3 NM
 entry and a 5 NM exit distance. On a frozen picture the tick is a hysteresis automaton per pair of
 contacts, whatever the grouping and the iteration order, except at exactly 5 NM.
 */
module MergeTick {
  import opened Tracks
  import opened Grouping
  import opened Merges
  import opened MergeTracking

  // ---------------------------------------------------------------- one pair

  /** Whether a pair is merged after a look at it: the hysteresis rule. */
  predicate Stays(w: World, hostile: Track, friendly: Track, merged: bool) {
    && Located(friendly) && Located(hostile)
    && var d := w.distance(Position(friendly), Position(hostile));
       d < ENTRY || (merged && d <= EXIT)
  }

  /** The tracked pairs, and the pairs reported as newly merged, in order. */
  datatype Outcome = Outcome(pairs: set<Pair>, reports: seq<Pair>)

  ghost function ContactStep(w: World, o: Outcome, hostile: Track, friendly: Track): Outcome {
    var p := (hostile.contact.id, friendly.contact.id);
    if Stays(w, hostile, friendly, p in o.pairs)
    then Outcome(o.pairs + {p}, if p in o.pairs then o.reports else o.reports + [p])
    else Outcome(o.pairs - {p}, o.reports)
  }

  method UpdateMergesForContact(w: World, tracker: MergeTracker, hostile: Track, friendly: Track)
    returns (isNewMerge: bool)
    requires tracker.Valid()
    modifies tracker
    ensures tracker.Valid()
    ensures var p := (hostile.contact.id, friendly.contact.id);
            Outcome(Pairs(tracker.merged), if isNewMerge then [p] else [])
            == ContactStep(w, Outcome(old(Pairs(tracker.merged)), []), hostile, friendly)
  {
    hide Pairs;
    var isMerged := tracker.IsMerged(hostile.contact.id, friendly.contact.id);
    if !Located(friendly) || !Located(hostile) {
      tracker.Separate(hostile.contact.id, friendly.contact.id);
      return false;
    }
    var distance := w.distance(Position(friendly), Position(hostile));
    if !isMerged && distance < ENTRY {
      tracker.Merge(hostile.contact.id, friendly.contact.id);
      return true;
    } else if isMerged && distance > EXIT {
      tracker.Separate(hostile.contact.id, friendly.contact.id);
    }
    return false;
  }

  // ---------------------------------------------------------------- one group

  ghost function FriendsStep(w: World, o: Outcome, hostile: Track, friendlies: seq<Track>, k: nat): Outcome
    requires k <= |friendlies|
  {
    if k == 0 then o
    else ContactStep(w, FriendsStep(w, o, hostile, friendlies, k - 1), hostile, friendlies[k - 1])
  }

  /** The pairs of a hostile are limited to the given friendlies. */
  ghost function Limit(ps: set<Pair>, h: nat, friendIDs: set<nat>): set<Pair> {
    set p | p in ps && (p.0 == h ==> p.1 in friendIDs)
  }

  ghost function HostileStep(w: World, db: Database, o: Outcome, h: nat, friendlies: seq<Track>): Outcome {
    var limited := Limit(o.pairs, h, Ids(friendlies));
    if h !in db then Outcome(WithoutID(limited, h), o.reports)
    else FriendsStep(w, Outcome(limited, o.reports), db[h], friendlies, |friendlies|)
  }

  ghost function GroupStep(w: World, db: Database, o: Outcome, ids: seq<nat>, friendlies: seq<Track>, k: nat): Outcome
    requires k <= |ids|
  {
    if k == 0 then o
    else HostileStep(w, db, GroupStep(w, db, o, ids, friendlies, k - 1), ids[k - 1], friendlies)
  }

  /** The friendlies of the reports, taken from the list. */
  ghost predicate SameFriends(reports: seq<Pair>, merged: seq<Track>, friendlies: seq<Track>) {
    && |reports| == |merged|
    && forall i :: 0 <= i < |reports| ==> reports[i].1 == merged[i].contact.id && merged[i] in friendlies
  }

  method SeparateOthers(tracker: MergeTracker, hostileID: nat, friendIDs: set<nat>)
    requires tracker.Valid()
    modifies tracker
    ensures tracker.Valid()
    ensures Pairs(tracker.merged) == Limit(old(Pairs(tracker.merged)), hostileID, friendIDs)
  {
    hide Pairs;
    var olds := tracker.FriendliesMergedWith(hostileID);
    ghost var start := Pairs(tracker.merged);
    for k := 0 to |olds|
      invariant tracker.Valid()
      invariant forall p :: p in Pairs(tracker.merged) <==>
                              p in start && !(p.0 == hostileID && p.1 in olds[..k] && p.1 !in friendIDs)
    {
      assert olds[..k + 1] == olds[..k] + [olds[k]];
      if olds[k] !in friendIDs {
        tracker.Separate(hostileID, olds[k]);
      }
    }
    assert olds[..|olds|] == olds;
  }

  method UpdateMergesForGroup(w: World, db: Database, tracker: MergeTracker, ids: seq<nat>, friendlies: seq<Track>)
    returns (newMergedFriendlies: seq<Track>, ghost reports: seq<Pair>)
    requires tracker.Valid()
    modifies tracker
    ensures tracker.Valid()
    ensures Outcome(Pairs(tracker.merged), reports)
            == GroupStep(w, db, Outcome(old(Pairs(tracker.merged)), []), ids, friendlies, |ids|)
    ensures SameFriends(reports, newMergedFriendlies, friendlies)
  {
    hide Pairs, ContactStep, Limit, WithoutID;
    var friendIDs := set i | 0 <= i < |friendlies| :: friendlies[i].contact.id;
    assert friendIDs == Ids(friendlies);
    newMergedFriendlies, reports := [], [];
    ghost var start := Outcome(Pairs(tracker.merged), []);
    for i := 0 to |ids|
      invariant tracker.Valid()
      invariant Outcome(Pairs(tracker.merged), reports) == GroupStep(w, db, start, ids, friendlies, i)
      invariant SameFriends(reports, newMergedFriendlies, friendlies)
    {
      SeparateOthers(tracker, ids[i], friendIDs);
      if ids[i] !in db {
        tracker.Remove(ids[i]);
        continue;
      }
      ghost var limited := Outcome(Pairs(tracker.merged), reports);
      for k := 0 to |friendlies|
        invariant tracker.Valid()
        invariant Outcome(Pairs(tracker.merged), reports) == FriendsStep(w, limited, db[ids[i]], friendlies, k)
        invariant SameFriends(reports, newMergedFriendlies, friendlies)
      {
        ghost var before := Outcome(Pairs(tracker.merged), reports);
        var isNewMerge := UpdateMergesForContact(w, tracker, db[ids[i]], friendlies[k]);
        ReportsAppend(w, before, db[ids[i]], friendlies[k]);
        if isNewMerge {
          newMergedFriendlies := newMergedFriendlies + [friendlies[k]];
          reports := reports + [(db[ids[i]].contact.id, friendlies[k].contact.id)];
        }
      }
    }
  }

  lemma ReportsAppend(w: World, o: Outcome, hostile: Track, friendly: Track)
    ensures ContactStep(w, o, hostile, friendly).pairs == ContactStep(w, Outcome(o.pairs, []), hostile, friendly).pairs
    ensures ContactStep(w, o, hostile, friendly).reports
            == o.reports + ContactStep(w, Outcome(o.pairs, []), hostile, friendly).reports
  {
  }

  // ---------------------------------------------------------------- a group on a frozen picture

  ghost predicate DistinctPairs(ps: seq<Pair>) {
    forall i, j :: 0 <= i < j < |ps| ==> ps[i] != ps[j]
  }

  /** Reports so far: distinct, for hostiles in `hs` only, and exactly the pairs that were not
      tracked before and are now. */
  ghost predicate ReportsAreNew(before: set<Pair>, after: set<Pair>, hs: set<nat>, reports: seq<Pair>) {
    && DistinctPairs(reports)
    && forall p: Pair :: p in reports <==> p.0 in hs && p !in before && p in after
  }

  lemma {:induction false} FriendsStepPairs(w: World, db: Database, o: Outcome, h: nat,
      friendlies: seq<Track>, k: nat, p: Pair)
    requires WellKeyed(db) && h in db && k <= |friendlies| && NoDuplicates(friendlies)
    ensures var after := FriendsStep(w, o, db[h], friendlies, k).pairs;
            if p.0 == h && exists i :: 0 <= i < k && friendlies[i].contact.id == p.1
            then exists i :: 0 <= i < k && friendlies[i].contact.id == p.1
                             && (p in after <==> Stays(w, db[h], friendlies[i], p in o.pairs))
            else p in after <==> p in o.pairs
  {
    if k > 0 {
      FriendsStepPairs(w, db, o, h, friendlies, k - 1, p);
      if p.0 == h && friendlies[k - 1].contact.id == p.1 {
        assert forall i :: 0 <= i < k - 1 ==> friendlies[i].contact.id != p.1;
      }
    }
  }

  lemma {:induction false} FriendsStepReports(w: World, db: Database, o: Outcome, h: nat,
      friendlies: seq<Track>, k: nat)
    requires WellKeyed(db) && h in db && k <= |friendlies| && NoDuplicates(friendlies)
    requires DistinctPairs(o.reports) && forall p :: p in o.reports ==> p.0 != h
    ensures var after := FriendsStep(w, o, db[h], friendlies, k);
            && DistinctPairs(after.reports)
            && forall p :: p in after.reports <==> p in o.reports || (p.0 == h && p !in o.pairs && p in after.pairs)
  {
    if k > 0 {
      var before := FriendsStep(w, o, db[h], friendlies, k - 1);
      var q := (h, friendlies[k - 1].contact.id);
      FriendsStepReports(w, db, o, h, friendlies, k - 1);
      FriendsStepPairs(w, db, o, h, friendlies, k - 1, q);
      assert forall i :: 0 <= i < k - 1 ==> friendlies[i].contact.id != q.1;
      assert q in before.pairs <==> q in o.pairs;
      assert q !in before.reports;
      assert forall i :: 0 <= i < |before.reports| ==> before.reports[i] in before.reports;
    }
  }

  /** The given friendlies are contacts of the picture. */
  ghost predicate FromPicture(db: Database, friendlies: seq<Track>) {
    && NoDuplicates(friendlies)
    && forall i :: 0 <= i < |friendlies| ==>
                     friendlies[i].contact.id in db && db[friendlies[i].contact.id] == friendlies[i]
  }

  /** Whether a pair of the picture is merged after its hostile's group has been handled. */
  ghost predicate PairAfter(w: World, db: Database, p: Pair, friendIDs: set<nat>, merged: bool) {
    p.0 in db && p.1 in db && p.1 in friendIDs && Stays(w, db[p.0], db[p.1], merged)
  }

  lemma HostileStepPairs(w: World, db: Database, o: Outcome, h: nat, friendlies: seq<Track>, p: Pair)
    requires WellKeyed(db) && h in db && FromPicture(db, friendlies)
    ensures p in HostileStep(w, db, o, h, friendlies).pairs <==>
            if p.0 == h then PairAfter(w, db, p, Ids(friendlies), p in o.pairs) else p in o.pairs
  {
    var limited := Outcome(Limit(o.pairs, h, Ids(friendlies)), o.reports);
    FriendsStepPairs(w, db, limited, h, friendlies, |friendlies|, p);
    if p.0 == h && p.1 in Ids(friendlies) {
      var i :| 0 <= i < |friendlies| && friendlies[i].contact.id == p.1;
      assert p in limited.pairs <==> p in o.pairs;
    }
  }

  lemma HostileStepReports(w: World, db: Database, o: Outcome, h: nat, friendlies: seq<Track>)
    requires WellKeyed(db) && h in db && FromPicture(db, friendlies)
    requires DistinctPairs(o.reports) && forall p :: p in o.reports ==> p.0 != h
    ensures var after := HostileStep(w, db, o, h, friendlies);
            && DistinctPairs(after.reports)
            && forall p :: p in after.reports <==> p in o.reports || (p.0 == h && p !in o.pairs && p in after.pairs)
  {
    hide FriendsStep, Stays;
    var limited := Outcome(Limit(o.pairs, h, Ids(friendlies)), o.reports);
    var after := HostileStep(w, db, o, h, friendlies);
    FriendsStepReports(w, db, limited, h, friendlies, |friendlies|);
    forall p: Pair | p.0 == h && p in after.pairs ensures p in limited.pairs <==> p in o.pairs {
      HostileStepPairs(w, db, o, h, friendlies, p);
    }
  }

  /** Handling a group applies the hysteresis rule once to each of its rows and to nothing else. */
  lemma {:induction false} GroupStepPairs(w: World, db: Database, o: Outcome, ids: seq<nat>,
      friendlies: seq<Track>, k: nat, p: Pair)
    requires WellKeyed(db) && k <= |ids| && Distinct(ids) && FromPicture(db, friendlies)
    requires forall h :: h in ids ==> h in db
    ensures p in GroupStep(w, db, o, ids, friendlies, k).pairs <==>
            if p.0 in ids[..k] then PairAfter(w, db, p, Ids(friendlies), p in o.pairs) else p in o.pairs
  {
    hide HostileStep, PairAfter;
    if k > 0 {
      assert ids[..k] == ids[..k - 1] + [ids[k - 1]];
      assert ids[k - 1] !in ids[..k - 1];
      GroupStepPairs(w, db, o, ids, friendlies, k - 1, p);
      HostileStepPairs(w, db, GroupStep(w, db, o, ids, friendlies, k - 1), ids[k - 1], friendlies, p);
    }
  }

  lemma {:induction false} GroupStepReports(w: World, db: Database, ps: set<Pair>, ids: seq<nat>,
      friendlies: seq<Track>, k: nat)
    requires WellKeyed(db) && k <= |ids| && Distinct(ids) && FromPicture(db, friendlies)
    requires forall h :: h in ids ==> h in db
    ensures var after := GroupStep(w, db, Outcome(ps, []), ids, friendlies, k);
            ReportsAreNew(ps, after.pairs, Elements(ids[..k]), after.reports)
  {
    hide HostileStep, PairAfter;
    if k > 0 {
      var o := Outcome(ps, []);
      var before := GroupStep(w, db, o, ids, friendlies, k - 1);
      var h := ids[k - 1];
      assert ids[..k] == ids[..k - 1] + [h];
      assert h !in ids[..k - 1];
      GroupStepReports(w, db, ps, ids, friendlies, k - 1);
      HostileStepReports(w, db, before, h, friendlies);
      forall p: Pair
        ensures p.0 == h ==> (p in before.pairs <==> p in ps)
        ensures p.0 != h ==> (p in before.pairs <==> p in HostileStep(w, db, before, h, friendlies).pairs)
      {
        GroupStepPairs(w, db, o, ids, friendlies, k - 1, p);
        HostileStepPairs(w, db, before, h, friendlies, p);
      }
    }
  }

  // ---------------------------------------------------------------- hostiles that are gone

  /** A hostile missing from the picture keeps no pair. The pairs of other hostiles stay, except that, if it
      had no pair with a listed friendly, those with it as the friendly go. */
  lemma MissingHostile(w: World, db: Database, o: Outcome, h: nat, friendlies: seq<Track>, p: Pair)
    requires h !in db
    ensures p in HostileStep(w, db, o, h, friendlies).pairs <==>
            && p in o.pairs && p.0 != h
            && (p.1 == h ==> exists q :: q in o.pairs && q.0 == h && q.1 in Ids(friendlies))
    ensures HostileStep(w, db, o, h, friendlies).reports == o.reports
  {
    var limited := Limit(o.pairs, h, Ids(friendlies));
    if q :| q in o.pairs && q.0 == h && q.1 in Ids(friendlies) {
      assert q in limited;
    }
  }

  /** Handling a group leaves no pair of a member that is missing from the picture. */
  lemma {:induction false} MissingIsForgotten(w: World, db: Database, o: Outcome, ids: seq<nat>, friendlies: seq<Track>,
      k: nat, p: Pair)
    requires WellKeyed(db) && k <= |ids| && FromPicture(db, friendlies)
    requires p.0 in ids[..k] && p.0 !in db
    ensures p !in GroupStep(w, db, o, ids, friendlies, k).pairs
  {
    hide HostileStep;
    var before, h := GroupStep(w, db, o, ids, friendlies, k - 1), ids[k - 1];
    assert ids[..k] == ids[..k - 1] + [h];
    if h in db {
      MissingIsForgotten(w, db, o, ids, friendlies, k - 1, p);
      HostileStepPairs(w, db, before, h, friendlies, p);
    } else {
      MissingHostile(w, db, before, h, friendlies, p);
      if h != p.0 {
        MissingIsForgotten(w, db, o, ids, friendlies, k - 1, p);
      }
    }
  }

  // ---------------------------------------------------------------- merge details of a group

  ghost function RowsIn(ps: set<Pair>, hs: set<nat>): set<Pair> {
    set p | p in ps && p.0 in hs
  }

  lemma {:induction false} RowSize(ps: set<Pair>, h: nat, friendIDs: seq<nat>)
    requires Distinct(friendIDs)
    requires forall f :: f in friendIDs <==> (h, f) in ps
    ensures |RowsIn(ps, {h})| == |friendIDs|
    decreases |friendIDs|
  {
    if friendIDs == [] {
      forall p | p in ps ensures p.0 != h {
        assert p == (p.0, p.1);
      }
    } else {
      var n := |friendIDs| - 1;
      var last := friendIDs[n];
      var rest := ps - {(h, last)};
      assert friendIDs == friendIDs[..n] + [last];
      assert last !in friendIDs[..n];
      RowSize(rest, h, friendIDs[..n]);
      assert RowsIn(ps, {h}) == RowsIn(rest, {h}) + {(h, last)};
    }
  }

  lemma OneMoreRow(ps: set<Pair>, ids: seq<nat>, k: nat)
    requires k < |ids| && Distinct(ids)
    ensures |RowsIn(ps, Elements(ids[..k + 1]))| == |RowsIn(ps, Elements(ids[..k]))| + |RowsIn(ps, {ids[k]})|
  {
    assert ids[..k + 1] == ids[..k] + [ids[k]] && ids[k] !in ids[..k];
    assert RowsIn(ps, Elements(ids[..k + 1])) == RowsIn(ps, Elements(ids[..k])) + RowsIn(ps, {ids[k]});
    assert RowsIn(ps, Elements(ids[..k])) !! RowsIn(ps, {ids[k]});
  }

  method CountMerges(tracker: MergeTracker, ids: seq<nat>) returns (mergedWith: nat)
    requires tracker.Valid() && Distinct(ids)
    ensures mergedWith == |RowsIn(Pairs(tracker.merged), Elements(ids))|
  {
    hide Pairs, Distinct, HasRow;
    ghost var ps := Pairs(tracker.merged);
    mergedWith := 0;
    assert RowsIn(ps, Elements(ids[..0])) == {};
    hide RowsIn;
    for k := 0 to |ids|
      invariant mergedWith == |RowsIn(ps, Elements(ids[..k]))|
    {
      var friendIDs := tracker.FriendliesMergedWith(ids[k]);
      RowSize(ps, ids[k], friendIDs);
      OneMoreRow(ps, ids, k);
      mergedWith := mergedWith + |friendIDs|;
    }
    assert ids[..|ids|] == ids;
  }

  /** The count is the number of tracked pairs with a hostile of the group; any makes it a FURBALL. */
  method FillInMergeDetails(tracker: MergeTracker, group: Group)
    requires tracker.Valid() && NoDuplicates(group.contacts)
    modifies group`mergedWith, group`declaration
    ensures group.mergedWith == |RowsIn(Pairs(tracker.merged), Ids(group.contacts))|
    ensures group.declaration == if group.mergedWith > 0 then Furball else old(group.declaration)
  {
    hide Pairs;
    var ids := ObjectIDs(group.contacts);
    assert Elements(ids) == Ids(group.contacts);
    group.mergedWith := CountMerges(tracker, ids);
    if group.mergedWith > 0 {
      group.declaration := Furball;
    }
  }
}
