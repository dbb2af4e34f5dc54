/**
 Fading contacts. Fade events are collected until none has come for fifteen seconds; then the faded
 contacts are grouped, removed from the database and reported.
 */
module Fades {
  import opened Tracks
  import opened Grouping
  import opened Contacts

  // ---------------------------------------------------------------- the pipeline

  const SETTLE := 15_000 * MILLISECOND

  /** A fade event as it was received. */
  datatype Receipt = Receipt(serial: nat, id: nat, time: int)

  datatype Batch = Batch(receipts: seq<Receipt>, time: int)

  /** Events whose delayed append has not run yet, pending events, the deadline, and what has been
      handled. */
  datatype Pipeline = Pipeline(received: nat, inFlight: set<Receipt>, pending: seq<Receipt>, deadline: int,
      handled: seq<Batch>)

  const START := Pipeline(0, {}, [], 0, [])

  datatype Step = Receive(id: nat, now: int) | Append(receipt: Receipt) | Flush(now: int)

  function PipelineStep(p: Pipeline, step: Step): Pipeline {
    match step
    case Receive(id, now) =>
      p.(received := p.received + 1, inFlight := p.inFlight + {Receipt(p.received, id, now)},
        deadline := now + SETTLE)
    case Append(r) =>
      if r in p.inFlight then p.(inFlight := p.inFlight - {r}, pending := p.pending + [r]) else p
    case Flush(now) =>
      if |p.pending| > 0 && now > p.deadline
      then p.(pending := [], handled := p.handled + [Batch(p.pending, now)]) else p
  }

  ghost function Run(steps: seq<Step>): Pipeline {
    if steps == [] then START else PipelineStep(Run(steps[..|steps| - 1]), steps[|steps| - 1])
  }

  class FadeCollector {
    var received: nat
    var inFlight: set<Receipt>
    var pendingFades: seq<Receipt>
    var deadline: int
    ghost var handled: seq<Batch>

    ghost function State(): Pipeline
      reads this
    {
      Pipeline(received, inFlight, pendingFades, deadline, handled)
    }

    constructor ()
      ensures State() == START
    {
      received, inFlight, pendingFades, deadline := 0, {}, [], 0;
      handled := [];
    }

    /** A fade event: the deadline moves at once, the append happens later. */
    method ReceiveFade(id: nat, now: int)
      modifies this
      ensures State() == PipelineStep(old(State()), Receive(id, now))
    {
      deadline := now + SETTLE;
      inFlight := inFlight + {Receipt(received, id, now)};
      received := received + 1;
    }

    method AppendFade(r: Receipt)
      requires r in inFlight
      modifies this
      ensures State() == PipelineStep(old(State()), Append(r))
    {
      inFlight := inFlight - {r};
      pendingFades := pendingFades + [r];
    }

    /** The periodic check, with the fades to handle now. */
    method FlushFades(now: int) returns (due: seq<Receipt>)
      modifies this
      ensures State() == PipelineStep(old(State()), Flush(now))
      ensures due == if now > old(deadline) then old(pendingFades) else []
    {
      due := [];
      if |pendingFades| > 0 && now > deadline {
        due := pendingFades;
        handled := handled + [Batch(pendingFades, now)];
        pendingFades := [];
      }
    }
  }

  // ---------------------------------------------------------------- conservation

  ghost function Serials(rs: seq<Receipt>): multiset<nat> {
    if rs == [] then multiset{} else Serials(rs[..|rs| - 1]) + multiset{rs[|rs| - 1].serial}
  }

  ghost function HandledSerials(bs: seq<Batch>): multiset<nat> {
    if bs == [] then multiset{} else HandledSerials(bs[..|bs| - 1]) + Serials(bs[|bs| - 1].receipts)
  }

  /** The receipts in flight, by serial number: none twice. */
  ghost predicate OncePerSerial(rs: set<Receipt>) {
    forall r, s :: r in rs && s in rs && r.serial == s.serial ==> r == s
  }

  ghost function InFlightSerials(rs: set<Receipt>): set<nat> {
    set r | r in rs :: r.serial
  }

  ghost function Before(n: nat): (r: set<nat>)
    ensures forall i :: i in r <==> 0 <= i < n
  {
    if n == 0 then {} else Before(n - 1) + {n - 1}
  }

  lemma MultisetAdd(a: set<nat>, x: nat)
    requires x !in a
    ensures multiset(a + {x}) == multiset(a) + multiset{x}
  {
  }

  /** Every received fade is in exactly one place, and no batch is empty. */
  ghost predicate Conserved(p: Pipeline) {
    && OncePerSerial(p.inFlight)
    && multiset(InFlightSerials(p.inFlight)) + Serials(p.pending) + HandledSerials(p.handled)
       == multiset(Before(p.received))
    && forall b :: b in p.handled ==> b.receipts != []
  }

  lemma SerialsAppend(rs: seq<Receipt>, r: Receipt)
    ensures Serials(rs + [r]) == Serials(rs) + multiset{r.serial}
  {
    assert (rs + [r])[..|rs|] == rs;
  }

  lemma HandledAppend(bs: seq<Batch>, b: Batch)
    ensures HandledSerials(bs + [b]) == HandledSerials(bs) + Serials(b.receipts)
  {
    assert (bs + [b])[..|bs|] == bs;
  }

  lemma ReceiveConserves(p: Pipeline, id: nat, now: int)
    requires Conserved(p)
    ensures Conserved(PipelineStep(p, Receive(id, now)))
  {
    var r := Receipt(p.received, id, now);
    forall s | s in p.inFlight ensures s.serial < p.received {
      assert s.serial in multiset(InFlightSerials(p.inFlight));
      assert s.serial in multiset(Before(p.received));
    }
    assert InFlightSerials(p.inFlight + {r}) == InFlightSerials(p.inFlight) + {p.received};
    assert p.received !in InFlightSerials(p.inFlight);
    MultisetAdd(InFlightSerials(p.inFlight), p.received);
    MultisetAdd(Before(p.received), p.received);
  }

  lemma AppendConserves(p: Pipeline, r: Receipt)
    requires Conserved(p) && r in p.inFlight
    ensures Conserved(PipelineStep(p, Append(r)))
  {
    SerialsAppend(p.pending, r);
    var rest := p.inFlight - {r};
    assert InFlightSerials(p.inFlight) == InFlightSerials(rest) + {r.serial};
    assert r.serial !in InFlightSerials(rest);
    MultisetAdd(InFlightSerials(rest), r.serial);
  }

  lemma MoveOver(a: multiset<nat>, b: multiset<nat>, c: multiset<nat>)
    ensures a + b + c == a + multiset{} + (c + b)
  {
  }

  lemma FlushKeepsSerials(p: Pipeline, batch: Batch)
    requires batch.receipts == p.pending
    ensures multiset(InFlightSerials(p.inFlight)) + Serials(p.pending) + HandledSerials(p.handled)
            == multiset(InFlightSerials(p.inFlight)) + Serials([]) + HandledSerials(p.handled + [batch])
  {
    assert Serials([]) == multiset{};
    hide Serials, HandledSerials, InFlightSerials;
    HandledAppend(p.handled, batch);
    MoveOver(multiset(InFlightSerials(p.inFlight)), Serials(p.pending), HandledSerials(p.handled));
  }

  lemma FlushConserves(p: Pipeline, now: int)
    requires Conserved(p)
    ensures Conserved(PipelineStep(p, Flush(now)))
  {
    hide Serials, HandledSerials, Before, InFlightSerials, OncePerSerial;
    FlushKeepsSerials(p, Batch(p.pending, now));
  }

  /** Over every interleaving of receipts, delayed appends and checks. */
  lemma {:induction false} PipelineConserves(steps: seq<Step>)
    ensures Conserved(Run(steps))
  {
    hide Conserved, PipelineStep;
    if steps == [] {
      StartConserved();
    } else {
      var before, step := Run(steps[..|steps| - 1]), steps[|steps| - 1];
      PipelineConserves(steps[..|steps| - 1]);
      match step
      case Receive(id, now) => ReceiveConserves(before, id, now);
      case Flush(now) => FlushConserves(before, now);
      case Append(r) =>
        if r in before.inFlight {
          AppendConserves(before, r);
        } else {
          IdleAppend(before, r);
        }
    }
  }

  lemma StartConserved()
    ensures Conserved(START)
  {
    assert InFlightSerials({}) == {} && Before(0) == {};
  }

  lemma IdleAppend(p: Pipeline, r: Receipt)
    requires r !in p.inFlight
    ensures PipelineStep(p, Append(r)) == p
  {
  }

  /** Exactly one of in flight, pending and handled. */
  lemma ExactlyOnePlace(steps: seq<Step>, serial: nat)
    requires serial < Run(steps).received
    ensures var p := Run(steps);
            (if serial in InFlightSerials(p.inFlight) then 1 else 0)
            + Serials(p.pending)[serial] + HandledSerials(p.handled)[serial] == 1
  {
    PipelineConserves(steps);
    var p := Run(steps);
    assert multiset(Before(p.received))[serial] == 1;
    assert (multiset(InFlightSerials(p.inFlight)) + Serials(p.pending) + HandledSerials(p.handled))[serial] == 1;
  }

  // ---------------------------------------------------------------- settling

  /** The fades received in a run, in order. */
  ghost function Received(steps: seq<Step>): seq<Receipt> {
    if steps == [] then []
    else
      var before, step := Received(steps[..|steps| - 1]), steps[|steps| - 1];
      if step.Receive? then before + [Receipt(|before|, step.id, step.now)] else before
  }

  /** Every fade in flight, pending or handled is one that was received. */
  ghost predicate Genuine(p: Pipeline, all: seq<Receipt>) {
    && p.received == |all|
    && (forall r :: r in p.inFlight ==> r in all)
    && (forall r :: r in p.pending ==> r in all)
    && forall b, r :: b in p.handled && r in b.receipts ==> r in all
  }

  lemma {:induction false} RunIsGenuine(steps: seq<Step>)
    ensures Genuine(Run(steps), Received(steps))
  {
    if steps != [] {
      RunIsGenuine(steps[..|steps| - 1]);
    }
  }

  /** The deadline, after a receipt, is 15 s after the last one. */
  lemma {:induction false} DeadlineIsLast(steps: seq<Step>)
    ensures var all := Received(steps);
            all != [] ==> Run(steps).deadline == all[|all| - 1].time + 15_000_000_000
  {
    if steps != [] {
      DeadlineIsLast(steps[..|steps| - 1]);
    }
  }

  /** In any run, a check hands over the pending fades, all of them, exactly if there are any and more than
      15 s have passed since the last fade was received. */
  lemma CheckHandsOver(steps: seq<Step>, now: int)
    ensures var p, after, all := Run(steps), Run(steps + [Flush(now)]), Received(steps);
            && (p.pending != [] ==> all != [])
            && if p.pending != [] && now > all[|all| - 1].time + 15_000_000_000
               then after == p.(pending := [], handled := p.handled + [Batch(p.pending, now)])
               else after == p
  {
    assert (steps + [Flush(now)])[..|steps|] == steps;
    DeadlineIsLast(steps);
    RunIsGenuine(steps);
    if Run(steps).pending != [] {
      assert Run(steps).pending[0] in Received(steps);
    }
  }

  /** The fades in the order in which their delayed appends ran. */
  ghost function Appended(steps: seq<Step>): seq<Receipt> {
    if steps == [] then []
    else
      var n := |steps| - 1;
      Appended(steps[..n])
      + if steps[n].Append? && steps[n].receipt in Run(steps[..n]).inFlight then [steps[n].receipt] else []
  }

  ghost function Joined(bs: seq<Batch>): seq<Receipt> {
    if bs == [] then [] else Joined(bs[..|bs| - 1]) + bs[|bs| - 1].receipts
  }

  /** The batches and what is pending are the appended fades, in order. */
  lemma {:induction false} HandledInOrder(steps: seq<Step>)
    ensures Joined(Run(steps).handled) + Run(steps).pending == Appended(steps)
  {
    if steps != [] {
      var n := |steps| - 1;
      var p, after := Run(steps[..n]), Run(steps);
      HandledInOrder(steps[..n]);
      if after.handled != p.handled {
        assert after.handled[..|p.handled|] == p.handled;
      }
    }
  }

  /** Receipts in order of time. */
  ghost predicate InOrder(all: seq<Receipt>) {
    forall i, j :: 0 <= i < j < |all| ==> all[i].time <= all[j].time
  }

  /** If the clock does not go back, every fade is handled more than 15 s after it was received. */
  lemma {:induction false} HandledAreSettled(steps: seq<Step>, b: Batch, r: Receipt)
    requires InOrder(Received(steps)) && b in Run(steps).handled && r in b.receipts
    ensures b.time > r.time + 15_000_000_000
  {
    var n := |steps| - 1;
    var before, step := steps[..n], steps[n];
    assert InOrder(Received(before)) by {
      assert Received(before) == Received(steps)[..|Received(before)|];
    }
    if b in Run(before).handled {
      HandledAreSettled(before, b, r);
    } else {
      assert steps == before + [Flush(step.now)];
      CheckHandsOver(before, step.now);
      RunIsGenuine(before);
      var all := Received(before);
      var k :| 0 <= k < |all| && all[k] == r;
      assert all[k].time <= all[|all| - 1].time;
    }
  }

  // ---------------------------------------------------------------- handling a batch

  /** The seed is alone, or its group is the closure of it. */
  ghost predicate GroupAround(w: World, db: Database, cs: seq<Track>) {
    cs != [] && if Located(cs[0]) then IsGroup(w, db, cs) else cs == [cs[0]]
  }

  ghost predicate SeedFaded(db: Database, fades: seq<nat>, k: nat, cs: seq<Track>)
    requires k <= |fades|
  {
    cs != [] && exists i :: 0 <= i < k && fades[i] in db && cs[0] == db[fades[i]]
  }

  /** Each group is around a faded contact. */
  ghost predicate AroundFades(w: World, db: Database, fades: seq<nat>, k: nat, groups: seq<seq<Track>>)
    requires k <= |fades|
  {
    forall g :: 0 <= g < |groups| ==> GroupAround(w, db, groups[g]) && SeedFaded(db, fades, k, groups[g])
  }

  /** No seed is in an earlier group. */
  ghost predicate SeedsNew(groups: seq<seq<Track>>) {
    forall g, h :: 0 <= g < h < |groups| ==> SeedOutside(groups[h], groups[g])
  }

  ghost predicate SeedOutside(cs: seq<Track>, group: seq<Track>) {
    cs != [] && cs[0].contact.id !in Ids(group)
  }

  /** Every faded contact is in a group. */
  ghost predicate FadesGrouped(db: Database, fades: seq<nat>, k: nat, groups: seq<seq<Track>>)
    requires k <= |fades|
  {
    forall i :: 0 <= i < k && fades[i] in db ==> InSome(groups, fades[i])
  }

  ghost predicate FadedGroups(w: World, db: Database, fades: seq<nat>, k: nat, groups: seq<seq<Track>>)
    requires k <= |fades|
  {
    AroundFades(w, db, fades, k, groups) && SeedsNew(groups) && FadesGrouped(db, fades, k, groups)
  }

  ghost predicate InSome(groups: seq<seq<Track>>, id: nat) {
    exists g :: 0 <= g < |groups| && id in Ids(groups[g])
  }

  method IsGrouped(groups: seq<seq<Track>>, id: nat) returns (r: bool)
    ensures r <==> InSome(groups, id)
  {
    for g := 0 to |groups|
      invariant forall h :: 0 <= h < g ==> id !in Ids(groups[h])
    {
      if id in ObjectIDs(groups[g]) {
        return true;
      }
    }
    r := false;
  }

  /** What the faded callback is told: where the group was, its contacts, and its coalition. */
  datatype FadedReport = FadedReport(point: Point, contacts: seq<Track>, coalition: Coalition)

  ghost predicate Tells(midpoint: (Point, Point) -> Point, r: FadedReport, cs: seq<Track>) {
    && cs != [] && r.contacts == cs
    && r.point == Centre(midpoint, cs, |cs|)
    && forall i :: 0 <= i < |cs| ==> cs[i].contact.coalition == r.coalition
  }

  /** A group around a contact has one coalition. */
  lemma OneCoalition(w: World, db: Database, fades: seq<nat>, groups: seq<seq<Track>>, g: nat)
    requires WellKeyed(db) && FadedGroups(w, db, fades, |fades|, groups) && g < |groups|
    ensures OneSided(groups[g])
  {
    hide IsGroup, SeedFaded, SeedsNew, FadesGrouped;
    assert GroupAround(w, db, groups[g]);
    if Located(groups[g][0]) {
      GroupCoalition(w, db, groups[g]);
    }
  }

  /** Groups the faded contacts, removes them, and reports each group. */
  method HandleFaded(w: World, midpoint: (Point, Point) -> Point, d: ContactDatabase, fades: seq<nat>)
    returns (reports: seq<FadedReport>, ghost groups: seq<seq<Track>>)
    requires d.Valid()
    modifies d
    ensures d.Valid()
    ensures d.contacts == old(d.contacts) - (set id | id in fades)
    ensures FadedGroups(w, old(d.contacts), fades, |fades|, groups)
    ensures |reports| == |groups| && forall g :: 0 <= g < |groups| ==> Tells(midpoint, reports[g], groups[g])
  {
    hide FadedGroups, Tells, OneSided;
    ghost var db := d.contacts;
    var found := GroupFaded(w, d, fades);
    groups := found;
    DeleteFaded(d, fades);
    forall g | 0 <= g < |found| ensures OneSided(found[g]) {
      OneCoalition(w, db, fades, found, g);
    }
    reports := ReportGroups(midpoint, found);
  }

  ghost predicate OneSided(cs: seq<Track>) {
    cs != [] && forall i :: 0 <= i < |cs| ==> cs[i].contact.coalition == cs[0].contact.coalition
  }

  method ReportGroups(midpoint: (Point, Point) -> Point, groups: seq<seq<Track>>) returns (reports: seq<FadedReport>)
    requires forall g :: 0 <= g < |groups| ==> OneSided(groups[g])
    ensures |reports| == |groups| && forall g :: 0 <= g < |groups| ==> Tells(midpoint, reports[g], groups[g])
  {
    hide Tells;
    reports := [];
    for g := 0 to |groups|
      invariant |reports| == g && forall i :: 0 <= i < g ==> Tells(midpoint, reports[i], groups[i])
    {
      assert OneSided(groups[g]);
      var point := GroupPoint(midpoint, groups[g]);
      var report := FadedReport(point, groups[g], groups[g][0].contact.coalition);
      TellsAll(midpoint, report, groups[g]);
      reports := reports + [report];
    }
  }

  lemma TellsAll(midpoint: (Point, Point) -> Point, r: FadedReport, cs: seq<Track>)
    requires OneSided(cs) && r == FadedReport(Centre(midpoint, cs, |cs|), cs, cs[0].contact.coalition)
    ensures Tells(midpoint, r, cs)
  {
  }

  method GroupFaded(w: World, d: ContactDatabase, fades: seq<nat>) returns (groups: seq<seq<Track>>)
    requires d.Valid()
    ensures FadedGroups(w, d.contacts, fades, |fades|, groups)
  {
    hide FadedGroups, InSome;
    groups := [];
    var db := d.contacts;
    NoFades(w, db, fades);
    for k := 0 to |fades|
      invariant FadedGroups(w, db, fades, k, groups)
    {
      if fades[k] !in db {
        SkipFade(w, db, fades, k, groups);
        continue;
      }
      var isGrouped := IsGrouped(groups, fades[k]);
      if isGrouped {
        SkipFade(w, db, fades, k, groups);
      } else {
        var found := FindGroupForAircraft(w, db, Some(db[fades[k]]));
        if found == null {
          assert false;
        } else {
          AddFade(w, db, fades, k, groups, found.contacts);
          groups := groups + [found.contacts];
        }
      }
    }
  }

  method DeleteFaded(d: ContactDatabase, fades: seq<nat>)
    requires d.Valid()
    modifies d
    ensures d.Valid()
    ensures d.contacts == old(d.contacts) - (set id | id in fades)
  {
    hide DeleteStep;
    ghost var db := d.contacts;
    for k := 0 to |fades|
      invariant d.Valid()
      invariant d.contacts == db - (set id | id in fades[..k])
    {
      DeleteContacts(d.State(), fades[k]);
      var _ := d.Delete(fades[k]);
      assert fades[..k + 1] == fades[..k] + [fades[k]];
    }
    assert fades[..|fades|] == fades;
  }

  lemma NoFades(w: World, db: Database, fades: seq<nat>)
    ensures FadedGroups(w, db, fades, 0, [])
  {
  }

  lemma SeedFadedLater(db: Database, fades: seq<nat>, k: nat, cs: seq<Track>)
    requires k < |fades| && SeedFaded(db, fades, k, cs)
    ensures SeedFaded(db, fades, k + 1, cs)
  {
    var i :| 0 <= i < k && fades[i] in db && cs[0] == db[fades[i]];
    assert 0 <= i < k + 1 && fades[i] in db && cs[0] == db[fades[i]];
  }

  lemma AroundFadesLater(w: World, db: Database, fades: seq<nat>, k: nat, groups: seq<seq<Track>>)
    requires k < |fades| && AroundFades(w, db, fades, k, groups)
    ensures AroundFades(w, db, fades, k + 1, groups)
  {
    hide GroupAround, SeedFaded;
    forall g | 0 <= g < |groups| ensures GroupAround(w, db, groups[g]) && SeedFaded(db, fades, k + 1, groups[g]) {
      SeedFadedLater(db, fades, k, groups[g]);
    }
  }

  lemma SkipFade(w: World, db: Database, fades: seq<nat>, k: nat, groups: seq<seq<Track>>)
    requires k < |fades| && FadedGroups(w, db, fades, k, groups)
    requires fades[k] !in db || InSome(groups, fades[k])
    ensures FadedGroups(w, db, fades, k + 1, groups)
  {
    hide AroundFades, SeedsNew, InSome;
    AroundFadesLater(w, db, fades, k, groups);
  }

  lemma InSomeAppend(groups: seq<seq<Track>>, cs: seq<Track>, id: nat)
    ensures InSome(groups + [cs], id) <==> InSome(groups, id) || id in Ids(cs)
  {
    var more := groups + [cs];
    if g :| 0 <= g < |groups| && id in Ids(groups[g]) {
      assert more[g] == groups[g];
    }
    assert more[|groups|] == cs;
  }

  lemma SeedsNewAppend(groups: seq<seq<Track>>, cs: seq<Track>)
    requires SeedsNew(groups) && cs != [] && !InSome(groups, cs[0].contact.id)
    ensures SeedsNew(groups + [cs])
  {
    hide Ids;
    var more := groups + [cs];
    forall g, h | 0 <= g < h < |more| ensures SeedOutside(more[h], more[g]) {
      assert more[g] == groups[g];
    }
  }

  lemma AroundFadesAppend(w: World, db: Database, fades: seq<nat>, k: nat, groups: seq<seq<Track>>, cs: seq<Track>)
    requires k <= |fades| && AroundFades(w, db, fades, k, groups)
    requires GroupAround(w, db, cs) && SeedFaded(db, fades, k, cs)
    ensures AroundFades(w, db, fades, k, groups + [cs])
  {
    hide GroupAround, SeedFaded;
  }

  lemma FadesGroupedAppend(db: Database, fades: seq<nat>, k: nat, groups: seq<seq<Track>>, cs: seq<Track>)
    requires k < |fades| && FadesGrouped(db, fades, k, groups) && fades[k] in Ids(cs)
    ensures FadesGrouped(db, fades, k + 1, groups + [cs])
  {
    hide InSome, Ids;
    forall i | 0 <= i < k + 1 && fades[i] in db ensures InSome(groups + [cs], fades[i]) {
      InSomeAppend(groups, cs, fades[i]);
    }
  }

  lemma AddFade(w: World, db: Database, fades: seq<nat>, k: nat, groups: seq<seq<Track>>, cs: seq<Track>)
    requires WellKeyed(db) && k < |fades| && fades[k] in db && FadedGroups(w, db, fades, k, groups)
    requires !InSome(groups, fades[k]) && GroupAround(w, db, cs) && cs[0] == db[fades[k]]
    ensures FadedGroups(w, db, fades, k + 1, groups + [cs])
  {
    assert cs[0].contact.id in Ids(cs);
    hide GroupAround, AroundFades, SeedsNew, InSome, FadesGrouped;
    assert SeedFaded(db, fades, k + 1, cs);
    AroundFadesLater(w, db, fades, k, groups);
    AroundFadesAppend(w, db, fades, k + 1, groups, cs);
    SeedsNewAppend(groups, cs);
    FadesGroupedAppend(db, fades, k, groups, cs);
  }
}
