/**
 Threat calls and their cooldowns. A call goes out for a hostile group only if some member is off
 cooldown; every member then goes on cooldown.
 */
module Threats {
  import opened Tracks
  import opened Grouping
  import opened Merges
  import opened MergeTracking
  import opened MergeTick
  import opened Broadcasts

  /** The wall clock: it never goes back, and every look at it may find it advanced. */
  class Clock {
    var time: int

    method Now() returns (t: int)
      modifies this
      ensures t == time && time >= old(time)
    {
      t :| t >= time;
      time := t;
    }
  }

  datatype Event = Called(time: int, ids: set<nat>) | Removed(id: nat) | WasReset

  predicate Names(e: Event, id: nat) {
    e.Called? && id in e.ids
  }

  /** Between the two events the ID's cooldown was dropped. */
  ghost predicate Forgotten(history: seq<Event>, id: nat, i: nat, j: nat) {
    exists k :: i < k < j && k < |history| && (history[k] == Removed(id) || history[k] == WasReset)
  }

  /** Calls that name the ID and still count at position `k` are at least a cooldown before `time`. */
  ghost predicate Rested(history: seq<Event>, cooldown: int, id: nat, k: nat, time: int) {
    forall j | 0 <= j < k && j < |history| && Names(history[j], id) ::
      !Forgotten(history, id, j, k) ==> time >= history[j].time + cooldown
  }

  /** The call names an ID that was in no call during the preceding cooldown. */
  ghost predicate Justified(history: seq<Event>, cooldown: int, k: nat)
    requires k < |history| && history[k].Called?
  {
    exists id :: id in history[k].ids && Rested(history, cooldown, id, k, history[k].time)
  }

  /** Calls in order of time, each justified. */
  ghost predicate Orderly(history: seq<Event>, cooldown: int) {
    && (forall i, j :: 0 <= i < j < |history| && history[i].Called? && history[j].Called? ==>
                         history[i].time <= history[j].time)
    && forall k :: 0 <= k < |history| && history[k].Called? ==> Justified(history, cooldown, k)
  }

  /** Every ID that was called and not forgotten is on cooldown for long enough. */
  ghost predicate Covers(history: seq<Event>, cooldown: int, cooldowns: map<nat, int>) {
    forall j, id | 0 <= j < |history| && Names(history[j], id) ::
      !Forgotten(history, id, j, |history|) ==> id in cooldowns && cooldowns[id] >= history[j].time + cooldown
  }

  ghost predicate NotAfter(history: seq<Event>, time: int) {
    forall j :: 0 <= j < |history| && history[j].Called? ==> history[j].time <= time
  }

  lemma ForgottenPrefix(history: seq<Event>, e: Event, id: nat, i: nat, j: nat)
    requires j <= |history|
    ensures Forgotten(history + [e], id, i, j) <==> Forgotten(history, id, i, j)
  {
    var more := history + [e];
    if k :| i < k < j && k < |more| && (more[k] == Removed(id) || more[k] == WasReset) {
      assert history[k] == more[k];
    }
    if k :| i < k < j && k < |history| && (history[k] == Removed(id) || history[k] == WasReset) {
      assert history[k] == more[k];
    }
  }

  lemma ForgottenLater(history: seq<Event>, e: Event, id: nat, i: nat)
    requires i < |history|
    ensures Forgotten(history + [e], id, i, |history| + 1) <==>
            Forgotten(history, id, i, |history|) || e == Removed(id) || e == WasReset
  {
    var more := history + [e];
    ForgottenPrefix(history, e, id, i, |history|);
    if Forgotten(history, id, i, |history|) {
      var k :| i < k < |history| && (history[k] == Removed(id) || history[k] == WasReset);
      assert more[k] == history[k];
    }
    assert more[|history|] == e;
  }

  lemma RestedPrefix(history: seq<Event>, e: Event, cooldown: int, id: nat, k: nat, time: int)
    requires k <= |history| && Rested(history, cooldown, id, k, time)
    ensures Rested(history + [e], cooldown, id, k, time)
  {
    var more := history + [e];
    forall j | 0 <= j < k && more[j].Called? && id in more[j].ids && !Forgotten(more, id, j, k)
      ensures time >= more[j].time + cooldown
    {
      assert more[j] == history[j];
      ForgottenPrefix(history, e, id, j, k);
    }
  }

  lemma OrderlyAppend(history: seq<Event>, e: Event, cooldown: int)
    requires Orderly(history, cooldown)
    requires e.Called? ==> NotAfter(history, e.time)
    requires e.Called? ==> exists id :: id in e.ids && Rested(history, cooldown, id, |history|, e.time)
    ensures Orderly(history + [e], cooldown)
  {
    hide Rested;
    var more := history + [e];
    forall k | 0 <= k < |more| && more[k].Called? ensures Justified(more, cooldown, k) {
      if k < |history| {
        assert more[k] == history[k];
        assert Justified(history, cooldown, k);
        var id :| id in history[k].ids && Rested(history, cooldown, id, k, history[k].time);
        RestedPrefix(history, e, cooldown, id, k, history[k].time);
      } else {
        var id :| id in e.ids && Rested(history, cooldown, id, |history|, e.time);
        RestedPrefix(history, e, cooldown, id, |history|, e.time);
      }
    }
  }

  lemma CoversAppend(history: seq<Event>, e: Event, cooldown: int, before: map<nat, int>, after: map<nat, int>)
    requires Covers(history, cooldown, before)
    requires forall id :: id in before && e != Removed(id) && e != WasReset ==> id in after && after[id] >= before[id]
    requires e.Called? ==> forall id :: id in e.ids ==> id in after && after[id] >= e.time + cooldown
    ensures Covers(history + [e], cooldown, after)
  {
    var more := history + [e];
    forall j, id | 0 <= j < |more| && more[j].Called? && id in more[j].ids && !Forgotten(more, id, j, |more|)
      ensures id in after && after[id] >= more[j].time + cooldown
    {
      if j < |history| {
        assert more[j] == history[j];
        ForgottenLater(history, e, id, j);
      }
    }
  }

  // ---------------------------------------------------------------- the monitor

  class ThreatMonitor {
    const cooldown: int
    const clock: Clock
    var cooldowns: map<nat, int>
    ghost var history: seq<Event>

    ghost predicate Valid()
      reads this, clock
    {
      && Orderly(history, cooldown)
      && Covers(history, cooldown, cooldowns)
      && NotAfter(history, clock.time)
      && forall id :: id in cooldowns ==> cooldowns[id] <= clock.time + cooldown
    }

    constructor (cooldown: int, clock: Clock)
      ensures Valid() && this.cooldown == cooldown && this.clock == clock && history == []
    {
      this.cooldown, this.clock := cooldown, clock;
      cooldowns, history := map[], [];
    }

    method IsOnCooldown(id: nat) returns (r: bool)
      requires Valid()
      modifies clock
      ensures Valid() && clock.time >= old(clock.time)
      ensures r <==> id in cooldowns && clock.time < cooldowns[id]
    {
      if id !in cooldowns {
        return false;
      }
      var now := clock.Now();
      r := now < cooldowns[id];
    }

    method Remove(id: nat)
      requires Valid()
      modifies this
      ensures Valid() && history == old(history) + [Removed(id)] && cooldowns == old(cooldowns) - {id}
    {
      OrderlyAppend(history, Removed(id), cooldown);
      CoversAppend(history, Removed(id), cooldown, cooldowns, cooldowns - {id});
      cooldowns := cooldowns - {id};
      history := history + [Removed(id)];
    }

    method Reset()
      requires Valid()
      modifies this
      ensures Valid() && history == old(history) + [WasReset] && cooldowns == map[]
    {
      OrderlyAppend(history, WasReset, cooldown);
      CoversAppend(history, WasReset, cooldown, cooldowns, map[]);
      cooldowns := map[];
      history := history + [WasReset];
    }

    ghost predicate AllOnCooldown(ids: seq<nat>, time: int)
      reads this
    {
      forall id :: id in ids ==> id in cooldowns && time < cooldowns[id]
    }

    /** Some member of the group is off cooldown. */
    method AnyOffCooldown(ids: seq<nat>) returns (found: bool, ghost id: nat)
      requires Valid()
      modifies clock
      ensures Valid() && clock.time >= old(clock.time)
      ensures found ==> id in ids && !(id in cooldowns && clock.time < cooldowns[id])
      ensures !found ==> AllOnCooldown(ids, old(clock.time))
    {
      found, id := false, 0;
      for k := 0 to |ids|
        invariant Valid() && clock.time >= old(clock.time)
        invariant forall i :: 0 <= i < k ==> ids[i] in cooldowns && old(clock.time) < cooldowns[ids[i]]
      {
        var on := IsOnCooldown(ids[k]);
        if !on {
          return true, ids[k];
        }
      }
    }

    method ExtendCooldowns(ids: seq<nat>)
      modifies this`cooldowns, clock
      ensures clock.time >= old(clock.time)
      ensures Extended(old(cooldowns), cooldowns, ids, old(clock.time) + cooldown, clock.time + cooldown)
    {
      for k := 0 to |ids|
        invariant clock.time >= old(clock.time)
        invariant Extended(old(cooldowns), cooldowns, ids[..k], old(clock.time) + cooldown, clock.time + cooldown)
      {
        assert ids[..k + 1] == ids[..k] + [ids[k]];
        var now := clock.Now();
        cooldowns := cooldowns[ids[k] := now + cooldown];
      }
      assert ids[..|ids|] == ids;
    }

    /** A call, if any member is off cooldown and some listed friendly that is not merged with the
        group can be addressed. */
    method CallThreat(ids: seq<nat>, friendIDs: seq<nat>, db: Database, merges: MergeTracker, audience: Audience)
      returns (callsigns: seq<string>)
      requires Valid()
      modifies this`cooldowns, this`history, clock
      ensures Valid()
      ensures callsigns == [] ==>
                && history == old(history) && cooldowns == old(cooldowns)
                && (AllOnCooldown(ids, old(clock.time)) || Audible(audience, db, merges, ids, friendIDs) == {})
      ensures callsigns != [] ==> OneMoreCall(old(history), history, Elements(ids), old(clock.time), clock.time)
      ensures callsigns != [] ==>
                Extended(old(cooldowns), cooldowns, ids, old(clock.time) + cooldown, clock.time + cooldown)
      ensures callsigns != [] ==> NameSet(callsigns) == Audible(audience, db, merges, ids, friendIDs)
      ensures DistinctNames(callsigns)
    {
      hide Audible;
      callsigns := [];
      var found, rested := AnyOffCooldown(ids);
      if !found {
        return;
      }
      var names := Addressees(ids, friendIDs, db, merges, audience);
      if names == [] {
        assert NameSet(names) == {};
        return;
      }
      ghost var sent := clock.time;
      ghost var e := Called(sent, Elements(ids));
      WitnessIsRested(history, cooldown, cooldowns, rested, sent);
      OrderlyAppend(history, e, cooldown);
      ghost var before := cooldowns;
      ExtendCooldowns(ids);
      CoversAppend(history, e, cooldown, before, cooldowns);
      history := history + [e];
      callsigns := names;
    }

    /** The group is marked and, if it is due, called. */
    method BroadcastThreat(group: Group, friendIDs: seq<nat>, db: Database, merges: MergeTracker, audience: Audience)
      returns (callsigns: seq<string>)
      requires Valid() && merges.Valid() && NoDuplicates(group.contacts)
      modifies this`cooldowns, this`history, clock, group`mergedWith, group`declaration, group`isThreat
      ensures Valid()
      ensures group.isThreat
      ensures group.mergedWith == |RowsIn(Pairs(merges.merged), Ids(group.contacts))|
      ensures group.declaration == if group.mergedWith > 0 then Furball else Hostile
      ensures var ids := ObjectIDs(group.contacts);
              && DistinctNames(callsigns)
              && if callsigns == [] then
                && history == old(history) && cooldowns == old(cooldowns)
                && (AllOnCooldown(ids, old(clock.time)) || Audible(audience, db, merges, ids, friendIDs) == {})
              else
                && NameSet(callsigns) == Audible(audience, db, merges, ids, friendIDs)
                && OneMoreCall(old(history), history, Elements(ids), old(clock.time), clock.time)
                && Extended(old(cooldowns), cooldowns, ids, old(clock.time) + cooldown, clock.time + cooldown)
    {
      hide Pairs, RowsIn, Audible, Orderly, Covers, NotAfter, Extended, OneMoreCall, NameSet, DistinctNames;
      group.declaration := Hostile;
      FillInMergeDetails(merges, group);
      group.isThreat := true;
      callsigns := CallThreat(ObjectIDs(group.contacts), friendIDs, db, merges, audience);
    }
  }

  /** A call naming the IDs was made between the two times. */
  ghost predicate OneMoreCall(before: seq<Event>, after: seq<Event>, ids: set<nat>, least: int, most: int) {
    && |after| == |before| + 1 && after[..|before|] == before
    && var e := after[|before|]; e.Called? && e.ids == ids && least <= e.time <= most
  }

  /** The listed IDs get cooldowns between the bounds; no other ID changes. */
  ghost predicate Extended(before: map<nat, int>, after: map<nat, int>, ids: seq<nat>, least: int, most: int) {
    && (forall id :: id in ids ==> id in after && least <= after[id] <= most)
    && (forall id :: id !in ids ==> (id in after <==> id in before))
    && forall id :: id !in ids && id in after ==> after[id] == before[id]
  }

  lemma WitnessIsRested(history: seq<Event>, cooldown: int, cooldowns: map<nat, int>, id: nat, time: int)
    requires Covers(history, cooldown, cooldowns)
    requires !(id in cooldowns && time < cooldowns[id])
    ensures Rested(history, cooldown, id, |history|, time)
  {
  }

  ghost predicate MergedWithGroup(merges: MergeTracker, ids: seq<nat>, f: nat)
    reads merges
  {
    exists h :: h in ids && (h, f) in Pairs(merges.merged)
  }

  method IsGroupMergedWithFriendly(merges: MergeTracker, ids: seq<nat>, friendID: nat) returns (r: bool)
    ensures r <==> MergedWithGroup(merges, ids, friendID)
  {
    for k := 0 to |ids|
      invariant forall i :: 0 <= i < k ==> (ids[i], friendID) !in Pairs(merges.merged)
    {
      if merges.IsMerged(ids[k], friendID) {
        return true;
      }
    }
    r := false;
  }

  /** A tracked friendly that is not merged with the group and has a callsign to address. */
  ghost predicate Hears(a: Audience, db: Database, merges: MergeTracker, ids: seq<nat>, f: nat)
    reads merges
  {
    f in db && CallsignOf(a, db[f]).Some? && !MergedWithGroup(merges, ids, f)
  }

  /** The callsigns of the listed friendlies that should hear the call. */
  ghost function Audible(a: Audience, db: Database, merges: MergeTracker, ids: seq<nat>,
      friendIDs: seq<nat>): set<string>
    reads merges
  {
    set f | f in friendIDs && Hears(a, db, merges, ids, f) :: CallsignOf(a, db[f]).value
  }

  /** The callsigns to address, each once. */
  method Addressees(ids: seq<nat>, friendIDs: seq<nat>, db: Database, merges: MergeTracker, audience: Audience)
    returns (names: seq<string>)
    ensures DistinctNames(names)
    ensures NameSet(names) == Audible(audience, db, merges, ids, friendIDs)
  {
    hide CallsignOf, MergedWithGroup, DistinctNames;
    names := [];
    assert DistinctNames([]) by { NobodyToCall(audience); }
    for k := 0 to |friendIDs|
      invariant DistinctNames(names)
      invariant NameSet(names) == Audible(audience, db, merges, ids, friendIDs[..k])
    {
      assert friendIDs[..k + 1] == friendIDs[..k] + [friendIDs[k]];
      OneMoreListener(audience, db, merges, ids, friendIDs[..k], friendIDs[k]);
      var merged := IsGroupMergedWithFriendly(merges, ids, friendIDs[k]);
      if merged {
        continue;
      }
      if friendIDs[k] in db {
        names := AddFriendlyToBroadcast(audience, names, db[friendIDs[k]]);
      }
    }
    assert friendIDs[..|friendIDs|] == friendIDs;
  }

  /** A name is to be called exactly if it is the callsign of a listed, tracked friendly that no member of
      the group is merged with and that, if the radio is asked for, is on frequency. */
  lemma NamesToCall(a: Audience, db: Database, merges: MergeTracker, ids: seq<nat>, friendIDs: seq<nat>, s: string)
    ensures s in Audible(a, db, merges, ids, friendIDs) <==>
            exists f :: f in friendIDs && f in db && a.parse(db[f].contact.name) == Some(s)
                        && (a.requiresSRS ==> a.onFrequency(db[f].contact.name))
                        && forall h :: h in ids ==> !merges.IsMerged(h, f)
  {
    hide Pairs;
    if f :| f in friendIDs && f in db && a.parse(db[f].contact.name) == Some(s)
            && (a.requiresSRS ==> a.onFrequency(db[f].contact.name))
            && forall h :: h in ids ==> !merges.IsMerged(h, f) {
      assert !MergedWithGroup(merges, ids, f);
      assert Hears(a, db, merges, ids, f);
    }
    if s in Audible(a, db, merges, ids, friendIDs) {
      var f :| f in friendIDs && Hears(a, db, merges, ids, f) && CallsignOf(a, db[f]).value == s;
      assert forall h :: h in ids ==> !merges.IsMerged(h, f);
    }
  }

  lemma OneMoreListener(a: Audience, db: Database, merges: MergeTracker, ids: seq<nat>, friendIDs: seq<nat>, f: nat)
    ensures Audible(a, db, merges, ids, friendIDs + [f]) == Audible(a, db, merges, ids, friendIDs)
            + if f in db && !MergedWithGroup(merges, ids, f) then Callsigns(a, [db[f]]) else {}
  {
    hide CallsignOf, MergedWithGroup;
    if f in db {
      var one := [db[f]];
      assert one[0] == db[f];
    }
  }

  // ---------------------------------------------------------------- calls per window

  /** Calls only, all less than a cooldown apart, all naming IDs of `hostiles`. */
  ghost predicate InWindow(history: seq<Event>, cooldown: int, hostiles: set<nat>, a: nat, b: nat) {
    && a <= b <= |history|
    && (forall i :: a <= i < b ==> history[i].Called? && history[i].ids <= hostiles)
    && forall i, j :: a <= i < b && a <= j < b && history[i].Called? && history[j].Called? ==>
                        history[j].time < history[i].time + cooldown
  }

  lemma {:induction false} Witnesses(history: seq<Event>, cooldown: int, hostiles: set<nat>, a: nat, b: nat)
    returns (ids: set<nat>)
    requires Orderly(history, cooldown) && InWindow(history, cooldown, hostiles, a, b)
    ensures |ids| == b - a && ids <= hostiles
    ensures forall id :: id in ids ==> exists i :: a <= i < b && id in history[i].ids
    decreases b - a
  {
    if a == b {
      ids := {};
    } else {
      var before := Witnesses(history, cooldown, hostiles, a, b - 1);
      assert Justified(history, cooldown, b - 1);
      var id :| id in history[b - 1].ids && Rested(history, cooldown, id, b - 1, history[b - 1].time);
      forall i | a <= i < b - 1 ensures id !in history[i].ids {
        NotForgottenInWindow(history, cooldown, hostiles, a, b, id, i);
      }
      assert id !in before;
      ids := before + {id};
      forall x | x in ids ensures exists i :: a <= i < b && x in history[i].ids {
        if x == id {
          assert a <= b - 1 < b && x in history[b - 1].ids;
        } else {
          var i :| a <= i < b - 1 && x in history[i].ids;
          assert a <= i < b && x in history[i].ids;
        }
      }
    }
  }

  lemma NotForgottenInWindow(history: seq<Event>, cooldown: int, hostiles: set<nat>, a: nat, b: nat, id: nat, i: nat)
    requires InWindow(history, cooldown, hostiles, a, b) && a <= i < b
    ensures !Forgotten(history, id, i, b - 1)
  {
    assert forall k :: a <= k < b ==> history[k].Called?;
  }

  /** A half-open window one cooldown long, without removals or resets, holds at most as many calls as
      there are distinct hostile IDs in them. */
  lemma CallsPerWindow(history: seq<Event>, cooldown: int, hostiles: set<nat>, a: nat, b: nat)
    requires Orderly(history, cooldown) && InWindow(history, cooldown, hostiles, a, b)
    ensures b - a <= |hostiles|
  {
    var ids := Witnesses(history, cooldown, hostiles, a, b);
    SubsetSize(ids, hostiles);
  }

  lemma SubsetSize(a: set<nat>, b: set<nat>)
    requires a <= b
    ensures |a| <= |b|
  {
    assert b == a + (b - a);
  }
}
