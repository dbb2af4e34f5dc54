/**
 Who is addressed in a broadcast call.
 */
module Broadcasts {
  import opened Tracks
  import opened Grouping
  import opened MergeTracking

  /** The radio client and the callsign parser: who is on frequency, whether that is asked for, and what
      callsign a pilot name holds. */
  datatype Audience = Audience(requiresSRS: bool, onFrequency: string -> bool, parse: string -> Option<string>)

  /** The callsign under which a contact is addressed, if it is. */
  ghost function CallsignOf(a: Audience, t: Track): Option<string> {
    if a.requiresSRS && !a.onFrequency(t.contact.name) then None else a.parse(t.contact.name)
  }

  ghost predicate DistinctNames(names: seq<string>) {
    forall i, j :: 0 <= i < j < |names| ==> names[i] != names[j]
  }

  /** The callsigns of the listed contacts. */
  ghost function Callsigns(a: Audience, friendlies: seq<Track>): set<string> {
    set i | 0 <= i < |friendlies| && CallsignOf(a, friendlies[i]).Some? :: CallsignOf(a, friendlies[i]).value
  }

  ghost function NameSet(names: seq<string>): set<string> {
    set s | s in names
  }

  /** The contact's callsign is added unless it is there already. */
  method AddFriendlyToBroadcast(a: Audience, callsigns: seq<string>, friendly: Track) returns (r: seq<string>)
    requires DistinctNames(callsigns)
    ensures DistinctNames(r) && callsigns <= r
    ensures NameSet(r) == NameSet(callsigns) + Callsigns(a, [friendly])
    ensures forall s :: s in r <==>
                          || s in callsigns
                          || (a.parse(friendly.contact.name) == Some(s)
                              && (a.requiresSRS ==> a.onFrequency(friendly.contact.name)))
  {
    r := callsigns;
    ghost var one := [friendly];
    assert one[0] == friendly;
    var isOnFrequency := a.onFrequency(friendly.contact.name);
    var shouldBroadcast := !a.requiresSRS || isOnFrequency;
    if !shouldBroadcast {
      return;
    }
    var callsign := a.parse(friendly.contact.name);
    if callsign.Some? && callsign.value !in callsigns {
      r := callsigns + [callsign.value];
    }
  }

  lemma CallsignsAppend(a: Audience, friendlies: seq<Track>, t: Track)
    ensures Callsigns(a, friendlies + [t]) == Callsigns(a, friendlies) + Callsigns(a, [t])
  {
    hide CallsignOf;
    var more, one := friendlies + [t], [t];
    assert more[|friendlies|] == one[0] == t;
    forall s | s in Callsigns(a, friendlies) ensures s in Callsigns(a, more) {
      var i :| 0 <= i < |friendlies| && CallsignOf(a, friendlies[i]).Some? && CallsignOf(a, friendlies[i]).value == s;
      assert more[i] == friendlies[i];
    }
  }

  /** The call for newly merged contacts: each callsign once. */
  method CreateMergedCall(a: Audience, friendlies: seq<Track>) returns (callsigns: seq<string>)
    ensures DistinctNames(callsigns) && NameSet(callsigns) == Callsigns(a, friendlies)
    ensures forall s :: s in callsigns <==>
                          exists t :: t in friendlies && a.parse(t.contact.name) == Some(s)
                                      && (a.requiresSRS ==> a.onFrequency(t.contact.name))
  {
    hide DistinctNames;
    callsigns := MergedCallsigns(a, friendlies);
    forall s ensures s in callsigns <==> s in Callsigns(a, friendlies) {
      assert s in callsigns <==> s in NameSet(callsigns);
    }
  }

  method MergedCallsigns(a: Audience, friendlies: seq<Track>) returns (callsigns: seq<string>)
    ensures DistinctNames(callsigns) && NameSet(callsigns) == Callsigns(a, friendlies)
  {
    hide Callsigns, DistinctNames;
    callsigns := [];
    assert DistinctNames([]) && Callsigns(a, []) == {} by { NobodyToCall(a); }
    for k := 0 to |friendlies|
      invariant DistinctNames(callsigns) && NameSet(callsigns) == Callsigns(a, friendlies[..k])
    {
      CallsignsAppend(a, friendlies[..k], friendlies[k]);
      assert friendlies[..k + 1] == friendlies[..k] + [friendlies[k]];
      callsigns := AddFriendlyToBroadcast(a, callsigns, friendlies[k]);
    }
    assert friendlies[..|friendlies|] == friendlies;
  }

  lemma NobodyToCall(a: Audience)
    ensures DistinctNames([]) && Callsigns(a, []) == {}
  {
  }

  // ---------------------------------------------------------------- all calls of a tick

  /** The callsigns of the friendlies in the reported pairs. */
  ghost function Addressed(a: Audience, db: Database, reports: seq<Pair>): set<string> {
    set i | 0 <= i < |reports| && reports[i].1 in db && CallsignOf(a, db[reports[i].1]).Some?
      :: CallsignOf(a, db[reports[i].1]).value
  }

  ghost function AllNames(calls: seq<seq<string>>): set<string> {
    set i, s | 0 <= i < |calls| && s in calls[i] :: s
  }

  /** No empty call, no name twice in a call, and all the names in the calls are those of the reports. */
  ghost predicate CallsFor(a: Audience, db: Database, reports: seq<Pair>, calls: seq<seq<string>>) {
    && (forall i :: 0 <= i < |calls| ==> calls[i] != [] && DistinctNames(calls[i]))
    && AllNames(calls) == Addressed(a, db, reports)
  }

  lemma AddressedAppend(a: Audience, db: Database, reports: seq<Pair>, more: seq<Pair>)
    ensures Addressed(a, db, reports + more) == Addressed(a, db, reports) + Addressed(a, db, more)
  {
    hide CallsignOf;
    var all := reports + more;
    forall i | 0 <= i < |reports| ensures all[i] == reports[i] {
    }
    forall i | 0 <= i < |more| ensures all[|reports| + i] == more[i] {
    }
    forall s | s in Addressed(a, db, more) ensures s in Addressed(a, db, all) {
      var i :| 0 <= i < |more| && more[i].1 in db && CallsignOf(a, db[more[i].1]).Some?
               && CallsignOf(a, db[more[i].1]).value == s;
      assert all[|reports| + i] == more[i];
    }
  }

  lemma AddressedIsCallsigns(a: Audience, db: Database, reports: seq<Pair>, merged: seq<Track>)
    requires |reports| == |merged|
    requires forall i :: 0 <= i < |reports| ==> reports[i].1 in db && db[reports[i].1] == merged[i]
    ensures Addressed(a, db, reports) == Callsigns(a, merged)
  {
    hide CallsignOf;
  }

  lemma AllNamesAppend(calls: seq<seq<string>>, call: seq<string>)
    ensures AllNames(calls + [call]) == AllNames(calls) + NameSet(call)
  {
    var more := calls + [call];
    assert more[|calls|] == call;
    forall s | s in AllNames(calls) ensures s in AllNames(more) {
      var i :| 0 <= i < |calls| && s in calls[i];
      assert more[i] == calls[i];
    }
  }

  /** One more group's call, if it names anybody. */
  lemma CallsGrow(a: Audience, db: Database, reports: seq<Pair>, calls: seq<seq<string>>, more: seq<Pair>,
      merged: seq<Track>, call: seq<string>)
    requires CallsFor(a, db, reports, calls)
    requires |more| == |merged|
    requires forall i :: 0 <= i < |more| ==> more[i].1 in db && db[more[i].1] == merged[i]
    requires DistinctNames(call) && NameSet(call) == Callsigns(a, merged)
    ensures CallsFor(a, db, reports + more, if call == [] then calls else calls + [call])
  {
    AddressedAppend(a, db, reports, more);
    AddressedIsCallsigns(a, db, more, merged);
    AllNamesAppend(calls, call);
    hide Addressed, Callsigns, AllNames, DistinctNames;
    assert call == [] ==> NameSet(call) == {};
  }

  lemma NoCalls(a: Audience, db: Database)
    ensures CallsFor(a, db, [], [])
  {
  }

  /** A name is in the calls exactly if it is the callsign of a friendly in a reported pair and, if the radio
      is asked for, that friendly is on frequency. */
  lemma NamesInCalls(a: Audience, db: Database, reports: seq<Pair>, calls: seq<seq<string>>, s: string)
    requires CallsFor(a, db, reports, calls)
    ensures (exists i :: 0 <= i < |calls| && s in calls[i]) <==>
            exists p :: p in reports && p.1 in db && a.parse(db[p.1].contact.name) == Some(s)
                        && (a.requiresSRS ==> a.onFrequency(db[p.1].contact.name))
  {
    assert (exists i :: 0 <= i < |calls| && s in calls[i]) <==> s in AllNames(calls);
    if p :| p in reports && p.1 in db && a.parse(db[p.1].contact.name) == Some(s)
            && (a.requiresSRS ==> a.onFrequency(db[p.1].contact.name)) {
      var i :| 0 <= i < |reports| && reports[i] == p;
      assert s in Addressed(a, db, reports);
    }
    if s in Addressed(a, db, reports) {
      var i :| 0 <= i < |reports| && reports[i].1 in db && CallsignOf(a, db[reports[i].1]) == Some(s);
      assert reports[i] in reports;
    }
  }

  // ---------------------------------------------------------------- one call for each group

  ghost function Flat(parts: seq<seq<Pair>>): seq<Pair> {
    if parts == [] then [] else Flat(parts[..|parts| - 1]) + parts[|parts| - 1]
  }

  /** For each part of the reports with somebody to address, in order, one call that names exactly these. */
  ghost predicate CallPerPart(a: Audience, db: Database, parts: seq<seq<Pair>>, calls: seq<seq<string>>) {
    if parts == [] then calls == []
    else
      var n, m := |parts| - 1, |calls| - 1;
      if Addressed(a, db, parts[n]) == {} then CallPerPart(a, db, parts[..n], calls)
      else m >= 0 && NameSet(calls[m]) == Addressed(a, db, parts[n]) && CallPerPart(a, db, parts[..n], calls[..m])
  }

  lemma FlatAppend(parts: seq<seq<Pair>>, more: seq<Pair>)
    ensures Flat(parts + [more]) == Flat(parts) + more
  {
    assert (parts + [more])[..|parts|] == parts;
  }

  lemma SilentPart(a: Audience, db: Database, parts: seq<seq<Pair>>, calls: seq<seq<string>>, more: seq<Pair>)
    requires CallPerPart(a, db, parts, calls) && Addressed(a, db, more) == {}
    ensures CallPerPart(a, db, parts + [more], calls)
  {
    hide Addressed;
    assert (parts + [more])[..|parts|] == parts;
  }

  lemma CalledPart(a: Audience, db: Database, parts: seq<seq<Pair>>, calls: seq<seq<string>>, more: seq<Pair>,
      call: seq<string>)
    requires CallPerPart(a, db, parts, calls) && Addressed(a, db, more) == NameSet(call) != {}
    ensures CallPerPart(a, db, parts + [more], calls + [call])
  {
    hide Addressed, NameSet;
    assert (parts + [more])[..|parts|] == parts && (calls + [call])[..|calls|] == calls;
  }

  lemma OneMorePart(a: Audience, db: Database, parts: seq<seq<Pair>>, calls: seq<seq<string>>, more: seq<Pair>,
      merged: seq<Track>, call: seq<string>)
    requires CallPerPart(a, db, parts, calls) && |more| == |merged|
    requires forall i :: 0 <= i < |more| ==> more[i].1 in db && db[more[i].1] == merged[i]
    requires NameSet(call) == Callsigns(a, merged)
    ensures CallPerPart(a, db, parts + [more], if call == [] then calls else calls + [call])
    ensures Flat(parts + [more]) == Flat(parts) + more
  {
    hide Addressed, Callsigns, CallPerPart, Flat;
    AddressedIsCallsigns(a, db, more, merged);
    FlatAppend(parts, more);
    if call == [] {
      SilentPart(a, db, parts, calls, more);
    } else {
      assert call[0] in NameSet(call);
      CalledPart(a, db, parts, calls, more, call);
    }
  }
}
