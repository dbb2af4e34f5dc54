/**
 The contact database: trackfiles by ID, and an index from coalition and callsign to ID. Deleting
 removes the index entry of the raw name, while setting adds one for the normalised callsign, so
 entries can outlive their contacts.
 */
module Contacts {
  import opened Tracks
  import opened Grouping

  type Index = map<Coalition, map<string, nat>>

  const EMPTY_INDEX: Index := map[Red := map[], Blue := map[], Neutrals := map[]]

  datatype Db = Db(contacts: Database, index: Index)

  const EMPTY := Db(map[], EMPTY_INDEX)

  /** Contacts are filed under their own IDs, and every coalition has an index. */
  ghost predicate WellFormed(db: Db) {
    WellKeyed(db.contacts) && Red in db.index && Blue in db.index && Neutrals in db.index
  }

  /** The entries of one coalition. */
  function Entries(db: Db, c: Coalition): map<string, nat> {
    if c in db.index then db.index[c] else map[]
  }

  // ---------------------------------------------------------------- operations on values

  /** `callsign` maps a raw name to the callsign that the parser makes of it, or to the name itself. */
  function SetStep(callsign: string -> string, db: Db, t: Track): Db {
    var c := t.contact.coalition;
    Db(db.contacts[t.contact.id := t], db.index[c := Entries(db, c)[callsign(t.contact.name) := t.contact.id]])
  }

  function DeleteStep(db: Db, id: nat): Db {
    if id !in db.contacts then db
    else
      var labels := db.contacts[id].contact;
      Db(db.contacts - {id}, db.index[labels.coalition := Entries(db, labels.coalition) - {labels.name}])
  }

  datatype Hit = Hit(callsign: string, track: Track)

  /** An exact match, or else the best fuzzy match, or nothing. */
  function Lookup(fuzzy: (string, set<string>) -> string, db: Db, callsign: string, c: Coalition): Option<Hit> {
    var entries := Entries(db, c);
    var found := if callsign in entries then callsign else fuzzy(callsign, entries.Keys);
    var id := if found in entries then entries[found] else 0;
    if callsign !in entries && found == "" then None
    else if id in db.contacts then Some(Hit(found, db.contacts[id]))
    else None
  }

  /** A fuzzy search answers with one of the known callsigns or with the empty string. */
  ghost predicate Honest(fuzzy: (string, set<string>) -> string) {
    forall name, known :: fuzzy(name, known) == "" || fuzzy(name, known) in known
  }

  class ContactDatabase {
    const callsign: string -> string
    var contacts: Database
    var callsignIdx: Index

    ghost function State(): Db
      reads this
    {
      Db(contacts, callsignIdx)
    }

    ghost predicate Valid()
      reads this
    {
      WellFormed(State())
    }

    constructor (callsign: string -> string)
      ensures Valid() && State() == EMPTY && this.callsign == callsign
    {
      this.callsign := callsign;
      contacts, callsignIdx := map[], EMPTY_INDEX;
    }

    method Set(trackfile: Track)
      requires Valid()
      modifies this
      ensures Valid() && State() == SetStep(callsign, old(State()), trackfile)
    {
      var c := trackfile.contact.coalition;
      var id: nat := trackfile.contact.id;
      assert c.Red? || c.Blue? || c.Neutrals?;
      var entries: map<string, nat> := callsignIdx[c];
      callsignIdx := callsignIdx[c := entries[callsign(trackfile.contact.name) := id]];
      contacts := contacts[trackfile.contact.id := trackfile];
    }

    method Delete(id: nat) returns (ok: bool)
      requires Valid()
      modifies this
      ensures Valid() && State() == DeleteStep(old(State()), id)
      ensures ok == (id in old(contacts))
    {
      ok := id in contacts;
      if ok {
        var labels := contacts[id].contact;
        assert labels.coalition.Red? || labels.coalition.Blue? || labels.coalition.Neutrals?;
        callsignIdx := callsignIdx[labels.coalition := callsignIdx[labels.coalition] - {labels.name}];
        contacts := contacts - {id};
      }
    }

    method Reset()
      modifies this
      ensures Valid() && State() == EMPTY
    {
      contacts, callsignIdx := map[], EMPTY_INDEX;
    }

    method GetByCallsignAndCoalition(name: string, coalition: Coalition, fuzzy: (string, set<string>) -> string)
      returns (hit: Option<Hit>)
      requires Valid()
      ensures hit == Lookup(fuzzy, State(), name, coalition)
    {
      var entries := callsignIdx[coalition];
      var found := name;
      if name !in entries {
        found := fuzzy(name, entries.Keys);
        if found == "" {
          return None;
        }
      }
      var id: nat := if found in entries then entries[found] else 0;
      if id !in contacts {
        return None;
      }
      hit := Some(Hit(found, contacts[id]));
    }

    /** A new contact is only registered: its first frame is not recorded. */
    method HandleUpdate(labels: Labels, frame: Frame)
      requires Valid()
      modifies this
      ensures Valid()
      ensures State() == UpdateStep(callsign, old(State()), labels, frame)
    {
      if labels.id in contacts {
        var t := contacts[labels.id];
        contacts := contacts[labels.id := Track(t.contact, Push(t.frames, frame))];
      } else {
        Set(Track(labels, []));
      }
    }
  }

  function UpdateStep(callsign: string -> string, db: Db, labels: Labels, frame: Frame): Db {
    if labels.id in db.contacts then
      var t := db.contacts[labels.id];
      var u: Track := Track(t.contact, Push(t.frames, frame));
      db.(contacts := db.contacts[labels.id := u])
    else SetStep(callsign, db, Track(labels, []))
  }

  // ---------------------------------------------------------------- lookups are right

  /** Index entries of live contacts name their coalition and callsign. */
  ghost predicate IndexRight(callsign: string -> string, db: Db) {
    forall c, s | s in Entries(db, c) :: RightEntry(callsign, db, c, s, Entries(db, c)[s])
  }

  ghost predicate RightEntry(callsign: string -> string, db: Db, c: Coalition, s: string, id: nat) {
    id in db.contacts ==> db.contacts[id].contact.coalition == c && callsign(db.contacts[id].contact.name) == s
  }

  /** A hit is a live contact of the coalition, and the callsign returned is its own. */
  lemma LookupIsRight(callsign: string -> string, fuzzy: (string, set<string>) -> string, db: Db,
      name: string, c: Coalition)
    requires IndexRight(callsign, db) && Honest(fuzzy)
    ensures Lookup(fuzzy, db, name, c).Some? ==>
              var hit := Lookup(fuzzy, db, name, c).value;
              && hit.track.contact.coalition == c && callsign(hit.track.contact.name) == hit.callsign
              && exists id :: id in db.contacts && db.contacts[id] == hit.track
  {
    var entries := Entries(db, c);
    var found := if name in entries then name else fuzzy(name, entries.Keys);
    if Lookup(fuzzy, db, name, c).Some? {
      assert RightEntry(callsign, db, c, found, entries[found]);
    }
  }

  /** Setting a contact keeps the index right exactly if its ID has no entry under another coalition
      or callsign. */
  lemma SetKeepsIndexRight(callsign: string -> string, db: Db, t: Track)
    requires IndexRight(callsign, db)
    ensures IndexRight(callsign, SetStep(callsign, db, t)) <==>
            forall c, s | s in Entries(db, c) ::
              Entries(db, c)[s] == t.contact.id ==> c == t.contact.coalition && s == callsign(t.contact.name)
  {
    var after := SetStep(callsign, db, t);
    var id, tc, ts := t.contact.id, t.contact.coalition, callsign(t.contact.name);
    forall c, s | s in Entries(db, c) && !(c == tc && s == ts)
      ensures s in Entries(after, c) && Entries(after, c)[s] == Entries(db, c)[s]
      ensures RightEntry(callsign, after, c, s, Entries(after, c)[s]) <==> Entries(db, c)[s] != id
    {
      assert RightEntry(callsign, db, c, s, Entries(db, c)[s]);
    }
    if IndexRight(callsign, after) {
      forall c, s | s in Entries(db, c) ensures Entries(db, c)[s] == id ==> c == tc && s == ts {
        if !(c == tc && s == ts) {
          assert RightEntry(callsign, after, c, s, Entries(after, c)[s]);
        }
      }
    }
  }

  lemma DeleteKeepsIndexRight(callsign: string -> string, db: Db, id: nat)
    requires IndexRight(callsign, db)
    ensures IndexRight(callsign, DeleteStep(db, id))
  {
    var after := DeleteStep(db, id);
    forall c, s | s in Entries(after, c) ensures RightEntry(callsign, after, c, s, Entries(after, c)[s]) {
      assert s in Entries(db, c) && Entries(after, c)[s] == Entries(db, c)[s];
      assert RightEntry(callsign, db, c, s, Entries(db, c)[s]);
    }
  }

  // ---------------------------------------------------------------- whole runs

  datatype Op = SetOp(track: Track) | DeleteOp(id: nat) | ResetOp

  ghost function Apply(callsign: string -> string, db: Db, op: Op): Db {
    match op
    case SetOp(t) => SetStep(callsign, db, t)
    case DeleteOp(id) => DeleteStep(db, id)
    case ResetOp => EMPTY
  }

  ghost function ApplyAll(callsign: string -> string, ops: seq<Op>): Db {
    if ops == [] then EMPTY else Apply(callsign, ApplyAll(callsign, ops[..|ops| - 1]), ops[|ops| - 1])
  }

  ghost predicate WasSet(ops: seq<Op>, labels: Labels) {
    exists i :: 0 <= i < |ops| && ops[i].SetOp? && ops[i].track.contact == labels
  }

  /** An index entry stems from some contact that was set. */
  ghost predicate Stems(callsign: string -> string, ops: seq<Op>, c: Coalition, s: string, id: nat) {
    exists labels :: WasSet(ops, labels) && labels.id == id && labels.coalition == c && callsign(labels.name) == s
  }

  lemma WasSetLater(ops: seq<Op>, op: Op, labels: Labels)
    requires WasSet(ops, labels)
    ensures WasSet(ops + [op], labels)
  {
    var i :| 0 <= i < |ops| && ops[i].SetOp? && ops[i].track.contact == labels;
    assert (ops + [op])[i] == ops[i];
  }

  ghost predicate ContactsStem(ops: seq<Op>, db: Db) {
    forall id :: id in db.contacts ==> db.contacts[id].contact.id == id && WasSet(ops, db.contacts[id].contact)
  }

  ghost predicate IndexStems(callsign: string -> string, ops: seq<Op>, db: Db) {
    forall c, s | s in Entries(db, c) :: Stems(callsign, ops, c, s, Entries(db, c)[s])
  }

  lemma ContactsStemLater(callsign: string -> string, ops: seq<Op>, op: Op, db: Db)
    requires ContactsStem(ops, db)
    ensures ContactsStem(ops + [op], Apply(callsign, db, op))
  {
    hide WasSet;
    var after, more := Apply(callsign, db, op), ops + [op];
    if op.SetOp? {
      NowSet(ops, op);
    }
    forall id | id in after.contacts
      ensures after.contacts[id].contact.id == id && WasSet(more, after.contacts[id].contact)
    {
      if !(op.SetOp? && op.track.contact.id == id) {
        WasSetLater(ops, op, db.contacts[id].contact);
      }
    }
  }

  lemma NowSet(ops: seq<Op>, op: Op)
    requires op.SetOp?
    ensures WasSet(ops + [op], op.track.contact)
  {
    assert (ops + [op])[|ops|] == op;
  }

  lemma {:induction false} EntriesStem(callsign: string -> string, ops: seq<Op>)
    ensures ContactsStem(ops, ApplyAll(callsign, ops)) && IndexStems(callsign, ops, ApplyAll(callsign, ops))
  {
    hide Apply, Stems;
    if ops != [] {
      var n := |ops| - 1;
      var before, op := ops[..n], ops[n];
      EntriesStem(callsign, before);
      assert ops == before + [op];
      var db := ApplyAll(callsign, before);
      ContactsStemLater(callsign, before, op, db);
      forall c, s | s in Entries(Apply(callsign, db, op), c)
        ensures Stems(callsign, ops, c, s, Entries(Apply(callsign, db, op), c)[s])
      {
        StemsLater(callsign, before, op, db, c, s);
      }
    }
  }

  lemma StemsLater(callsign: string -> string, before: seq<Op>, op: Op, db: Db, c: Coalition, s: string)
    requires s in Entries(Apply(callsign, db, op), c)
    requires IndexStems(callsign, before, db)
    ensures Stems(callsign, before + [op], c, s, Entries(Apply(callsign, db, op), c)[s])
  {
    var after, ops := Apply(callsign, db, op), before + [op];
    if op.SetOp? && c == op.track.contact.coalition && s == callsign(op.track.contact.name) {
      assert ops[|before|] == op;
      assert WasSet(ops, op.track.contact);
    } else {
      assert Entries(after, c)[s] == Entries(db, c)[s];
      assert Stems(callsign, before, c, s, Entries(db, c)[s]);
      var labels :| WasSet(before, labels) && labels.id == Entries(db, c)[s] && labels.coalition == c
                    && callsign(labels.name) == s;
      WasSetLater(before, op, labels);
    }
  }

  /** An ID always carries the same labels. */
  ghost predicate Consistent(ops: seq<Op>) {
    forall a, b :: WasSet(ops, a) && WasSet(ops, b) && a.id == b.id ==> a == b
  }

  /** Over every run with consistent labels, every lookup is right, stale entries notwithstanding. */
  lemma ConsistentRunIsRight(callsign: string -> string, ops: seq<Op>)
    requires Consistent(ops)
    ensures IndexRight(callsign, ApplyAll(callsign, ops))
  {
    hide ApplyAll;
    var db := ApplyAll(callsign, ops);
    EntriesStem(callsign, ops);
    forall c, s | s in Entries(db, c) ensures RightEntry(callsign, db, c, s, Entries(db, c)[s]) {
      assert Stems(callsign, ops, c, s, Entries(db, c)[s]);
      var labels :| WasSet(ops, labels) && labels.id == Entries(db, c)[s] && labels.coalition == c
                    && callsign(labels.name) == s;
    }
  }

  /** Without consistent labels a lookup can go wrong: an ID that comes back under another name is
      still found under the old callsign, because deleting did not remove that entry. */
  lemma ReusedIdIsMisfound(callsign: string -> string, fuzzy: (string, set<string>) -> string, a: string, b: string)
    requires callsign(a) != a && callsign(a) != b && callsign(a) != callsign(b)
    ensures var first, second := Track(Labels(1, a, Blue, ""), []), Track(Labels(1, b, Blue, ""), []);
            var ops := [SetOp(first), DeleteOp(1), SetOp(second)];
            var hit := Lookup(fuzzy, ApplyAll(callsign, ops), callsign(a), Blue);
            hit.Some? && hit.value.callsign == callsign(a) && hit.value.track.contact.name == b
  {
    var t: Track := Track(Labels(1, a, Blue, ""), []);
    var u: Track := Track(Labels(1, b, Blue, ""), []);
    var ops := [SetOp(t), DeleteOp(1), SetOp(u)];
    assert ops[..2] == [SetOp(t), DeleteOp(1)] && ops[..2][..1] == [SetOp(t)] && ops[..2][..1][..0] == [];
    var one := SetStep(callsign, EMPTY, t);
    assert ApplyAll(callsign, [SetOp(t)]) == one;
    var two := DeleteStep(one, 1);
    assert ApplyAll(callsign, [SetOp(t), DeleteOp(1)]) == two;
    assert Entries(two, Blue)[callsign(a)] == 1;
    var three := SetStep(callsign, two, u);
    assert ApplyAll(callsign, ops) == three;
    assert Entries(three, Blue)[callsign(a)] == 1;
  }

  // ---------------------------------------------------------------- when a lookup must hit

  /** A lookup hits exactly if the callsign, or else a non-empty fuzzy answer to it, is an entry of a live
      contact. */
  lemma LookupHits(fuzzy: (string, set<string>) -> string, db: Db, name: string, c: Coalition, hit: Hit)
    requires Honest(fuzzy)
    ensures Lookup(fuzzy, db, name, c) == Some(hit) <==>
            && hit.callsign in Entries(db, c)
            && Entries(db, c)[hit.callsign] in db.contacts && db.contacts[Entries(db, c)[hit.callsign]] == hit.track
            && (name in Entries(db, c) ==> hit.callsign == name)
            && (name !in Entries(db, c) ==> hit.callsign != "" && hit.callsign == fuzzy(name, Entries(db, c).Keys))
  {
    assert fuzzy(name, Entries(db, c).Keys) == "" || fuzzy(name, Entries(db, c).Keys) in Entries(db, c).Keys;
  }

  /** The contact is filed and indexed. */
  ghost predicate Filed(callsign: string -> string, db: Db, t: Track) {
    && t.contact.id in db.contacts && db.contacts[t.contact.id] == t
    && callsign(t.contact.name) in Entries(db, t.contact.coalition)
    && Entries(db, t.contact.coalition)[callsign(t.contact.name)] == t.contact.id
  }

  /** The operation leaves the contact alone: no reset, no removal of it, nothing set under its ID or under
      its coalition and callsign. */
  ghost predicate Spares(callsign: string -> string, op: Op, t: Track) {
    match op
    case SetOp(u) =>
      && u.contact.id != t.contact.id
      && !(u.contact.coalition == t.contact.coalition && callsign(u.contact.name) == callsign(t.contact.name))
    case DeleteOp(id) => id != t.contact.id
    case ResetOp => false
  }

  /** No other contact of the coalition has the callsign for its raw name. */
  ghost predicate OwnCallsign(callsign: string -> string, ops: seq<Op>, t: Track) {
    forall labels | WasSet(ops, labels) && labels.coalition == t.contact.coalition ::
      labels.name == callsign(t.contact.name) ==> labels.id == t.contact.id
  }

  lemma StepSpares(callsign: string -> string, ops: seq<Op>, op: Op, t: Track)
    requires Filed(callsign, ApplyAll(callsign, ops), t) && Spares(callsign, op, t)
    requires OwnCallsign(callsign, ops, t)
    ensures Filed(callsign, Apply(callsign, ApplyAll(callsign, ops), op), t)
  {
    var db := ApplyAll(callsign, ops);
    EntriesStem(callsign, ops);
    hide ApplyAll, WasSet;
    if op.DeleteOp? && op.id in db.contacts {
      assert WasSet(ops, db.contacts[op.id].contact);
    }
  }

  lemma {:induction false} StaysFiled(callsign: string -> string, before: seq<Op>, t: Track, after: seq<Op>)
    requires forall op :: op in after ==> Spares(callsign, op, t)
    requires OwnCallsign(callsign, before + [SetOp(t)] + after, t)
    ensures Filed(callsign, ApplyAll(callsign, before + [SetOp(t)] + after), t)
    decreases |after|
  {
    var ops := before + [SetOp(t)] + after;
    if after == [] {
      assert ops[..|ops| - 1] == before && ops[|ops| - 1] == SetOp(t);
    } else {
      var n := |after| - 1;
      var fewer, op := before + [SetOp(t)] + after[..n], after[n];
      assert ops == fewer + [op] && ops[..|ops| - 1] == fewer && ops[|ops| - 1] == op;
      assert OwnCallsign(callsign, fewer, t) by {
        forall labels | WasSet(fewer, labels) ensures WasSet(ops, labels) {
          WasSetLater(fewer, op, labels);
        }
      }
      assert op in after;
      hide Filed, Apply, OwnCallsign, Spares;
      StaysFiled(callsign, before, t, after[..n]);
      StepSpares(callsign, fewer, op, t);
    }
  }

  /** Over any run, a contact is found under its callsign from when it is set until it is removed or replaced,
      or the database is reset, provided that nothing else takes the callsign. */
  lemma LiveIsFound(callsign: string -> string, fuzzy: (string, set<string>) -> string, before: seq<Op>, t: Track,
      after: seq<Op>)
    requires forall op :: op in after ==> Spares(callsign, op, t)
    requires OwnCallsign(callsign, before + [SetOp(t)] + after, t)
    ensures var db, name := ApplyAll(callsign, before + [SetOp(t)] + after), callsign(t.contact.name);
            Lookup(fuzzy, db, name, t.contact.coalition) == Some(Hit(name, t))
  {
    hide ApplyAll, OwnCallsign, Spares;
    StaysFiled(callsign, before, t, after);
  }

  /** The provision is needed: removing a contact whose raw name is another's callsign hides the other. */
  lemma RawNameHidesCallsign(callsign: string -> string, a: string, b: string)
    requires callsign(a) == b && callsign(b) != b
    ensures var first, second := Track(Labels(1, a, Blue, ""), []), Track(Labels(2, b, Blue, ""), []);
            var db := ApplyAll(callsign, [SetOp(first), SetOp(second), DeleteOp(2)]);
            1 in db.contacts && db.contacts[1] == first && callsign(a) !in Entries(db, Blue)
  {
    var t: Track := Track(Labels(1, a, Blue, ""), []);
    var u: Track := Track(Labels(2, b, Blue, ""), []);
    var ops := [SetOp(t), SetOp(u), DeleteOp(2)];
    assert ops[..2] == [SetOp(t), SetOp(u)] && ops[..2][..1] == [SetOp(t)] && ops[..2][..1][..0] == [];
    var one := SetStep(callsign, EMPTY, t);
    assert ApplyAll(callsign, [SetOp(t)]) == one;
    var two := SetStep(callsign, one, u);
    assert ApplyAll(callsign, [SetOp(t), SetOp(u)]) == two;
    assert ApplyAll(callsign, ops) == DeleteStep(two, 2);
  }

  /** A removed contact is not found, whatever entries are left. */
  lemma RemovedIsNotFound(callsign: string -> string, fuzzy: (string, set<string>) -> string, ops: seq<Op>, id: nat,
      name: string, c: Coalition)
    requires Honest(fuzzy)
    ensures var hit := Lookup(fuzzy, ApplyAll(callsign, ops + [DeleteOp(id)]), name, c);
            hit.Some? ==> hit.value.track.contact.id != id
  {
    var more := ops + [DeleteOp(id)];
    assert more[..|ops|] == ops && more[|ops|] == DeleteOp(id);
    EntriesStem(callsign, more);
    var db := ApplyAll(callsign, more);
    assert id !in db.contacts by {
      DeleteContacts(ApplyAll(callsign, ops), id);
    }
    hide ApplyAll, WasSet;
    if hit: Hit :| Lookup(fuzzy, db, name, c) == Some(hit) {
      LookupHits(fuzzy, db, name, c, hit);
    }
  }

  // ---------------------------------------------------------------- updates

  /** Repeated updates of one contact. */
  ghost function UpdateAll(callsign: string -> string, db: Db, labels: Labels, frames: seq<Frame>): Db {
    if frames == [] then db
    else UpdateStep(callsign, UpdateAll(callsign, db, labels, frames[..|frames| - 1]), labels, frames[|frames| - 1])
  }

  /** A contact that appears and is updated holds the history of all its frames but the first. */
  lemma {:induction false} FirstFrameIsDropped(callsign: string -> string, db: Db, labels: Labels, frames: seq<Frame>)
    requires labels.id !in db.contacts && frames != []
    ensures var after := UpdateAll(callsign, db, labels, frames);
            && labels.id in after.contacts
            && after.contacts[labels.id].contact == labels
            && after.contacts[labels.id].frames == History(frames[1..])
            && after.contacts - {labels.id} == db.contacts
  {
    var n := |frames| - 1;
    if n > 0 {
      var before := frames[..n];
      FirstFrameIsDropped(callsign, db, labels, before);
      assert frames[1..][..n - 1] == before[1..] && frames[1..][n - 1] == frames[n];
    }
  }

  // ---------------------------------------------------------------- garbage collection

  const MINUTE := 60_000 * MILLISECOND

  /** Seen at some time, but not in the minute before the mission time. */
  predicate Expired(t: Track, missionTime: int) {
    var lastSeen := LastKnown(t.frames).time;
    lastSeen != 0 && lastSeen < missionTime - MINUTE
  }

  ghost function ExpiredIds(contacts: Database, missionTime: int): set<nat> {
    set id | id in contacts && Expired(contacts[id], missionTime)
  }

  /** A contact is due exactly if it was seen, but last more than a minute ago. So one seen in the last minute,
      or never, survives. */
  lemma DueAfterAMinute(contacts: Database, id: nat, missionTime: int)
    requires id in contacts
    ensures id in ExpiredIds(contacts, missionTime) <==>
            && contacts[id].frames != [] && contacts[id].frames[0].time != 0
            && missionTime - contacts[id].frames[0].time > 60_000_000_000
  {
  }

  /** Nothing is collected while a fade is pending; otherwise exactly the expired contacts go, each
      reported once. */
  method HandleGarbageCollection(d: ContactDatabase, pendingFades: seq<nat>, missionTime: int)
    returns (removed: seq<nat>)
    requires d.Valid()
    modifies d
    ensures d.Valid()
    ensures pendingFades != [] ==> removed == [] && d.State() == old(d.State())
    ensures pendingFades == [] ==>
              && Lists(removed, ExpiredIds(old(d.contacts), missionTime))
              && d.contacts == old(d.contacts) - ExpiredIds(old(d.contacts), missionTime)
  {
    hide Expired, Lists, DeleteStep;
    removed := [];
    if |pendingFades| > 0 {
      return;
    }
    ghost var start := d.contacts;
    var snapshot := d.contacts;
    var order := Iterate(snapshot);
    NoneDue(start, missionTime, order);
    for k := 0 to |order|
      invariant d.Valid()
      invariant d.contacts == start - Due(start, missionTime, order, k)
      invariant Lists(removed, Due(start, missionTime, order, k))
    {
      NextDue(start, missionTime, order, k);
      if Expired(snapshot[order[k]], missionTime) {
        DeleteContacts(d.State(), order[k]);
        var ok := d.Delete(order[k]);
        ListsAppend(removed, Due(start, missionTime, order, k), order[k]);
        removed := removed + [order[k]];
      }
    }
    AllDue(start, missionTime, order);
  }

  lemma DeleteContacts(db: Db, id: nat)
    ensures DeleteStep(db, id).contacts == db.contacts - {id}
  {
  }

  /** The expired contacts among the first `k`. */
  ghost function Due(contacts: Database, missionTime: int, order: seq<nat>, k: nat): set<nat>
    requires k <= |order|
  {
    set i | 0 <= i < k && order[i] in ExpiredIds(contacts, missionTime) :: order[i]
  }

  lemma NoneDue(contacts: Database, missionTime: int, order: seq<nat>)
    ensures Due(contacts, missionTime, order, 0) == {} && Lists([], {})
  {
  }

  lemma NextDue(contacts: Database, missionTime: int, order: seq<nat>, k: nat)
    requires Lists(order, contacts.Keys) && k < |order|
    ensures order[k] in contacts && order[k] !in Due(contacts, missionTime, order, k)
    ensures Due(contacts, missionTime, order, k + 1) ==
            if Expired(contacts[order[k]], missionTime) then Due(contacts, missionTime, order, k) + {order[k]}
            else Due(contacts, missionTime, order, k)
  {
    hide Expired;
    assert order[k] in order;
  }

  lemma AllDue(contacts: Database, missionTime: int, order: seq<nat>)
    requires Lists(order, contacts.Keys)
    ensures Due(contacts, missionTime, order, |order|) == ExpiredIds(contacts, missionTime)
  {
    hide Expired;
    forall id | id in ExpiredIds(contacts, missionTime) ensures id in Due(contacts, missionTime, order, |order|) {
      assert id in order;
    }
  }

  lemma ListsAppend(order: seq<nat>, ids: set<nat>, id: nat)
    requires Lists(order, ids) && id !in ids
    ensures Lists(order + [id], ids + {id})
  {
  }
}
