/**
 The receiver of one radio. It follows whoever spoke first, keeps packets that are newer than the
 last one kept, and closes a transmission when nothing was kept for 300 ms.
 */
module Receivers {
  import opened Tracks
  import opened VoicePackets

  const MAX_RX_GAP := 300 * MILLISECOND
  const FRAME_LENGTH := 40 * MILLISECOND
  const MIN_RX_DURATION := 1000 * MILLISECOND

  /** The state of a receiver. The empty origin means nobody; deadline 0 is the zero time. */
  datatype Rx = Rx(buffer: seq<VoicePacket>, origin: seq<byte>, deadline: int, packetNumber: u64)

  const IDLE := Rx([], [], 0, 0)

  predicate Accepts(s: Rx, p: VoicePacket) {
    || (s.origin == [] && s.packetNumber == 0)
    || (p.packetID > s.packetNumber && s.origin == p.originGUID)
  }

  function ReceiveStep(s: Rx, p: VoicePacket, now: int): Rx {
    if Accepts(s, p) then Rx(s.buffer + [p], p.originGUID, now + MAX_RX_GAP, p.packetID) else s
  }

  predicate Complete(s: Rx, now: int) {
    |s.buffer| > 0 && now > s.deadline
  }

  /** Longer than a second: 26 frames or more. */
  predicate LongEnough(s: Rx) {
    |s.buffer| * FRAME_LENGTH > MIN_RX_DURATION
  }

  /** Whether radios are kept to the own coalition, and the coalitions of the known clients. */
  datatype Security = Security(secureCoalitionRadios: bool, coalition: Coalition, clients: map<seq<byte>, Coalition>)

  class Receiver {
    var buffer: seq<VoicePacket>
    var origin: seq<byte>
    var deadline: int
    var packetNumber: u64

    ghost function State(): Rx
      reads this
    {
      Rx(buffer, origin, deadline, packetNumber)
    }

    constructor ()
      ensures State() == IDLE
    {
      buffer, origin, deadline, packetNumber := [], [], 0, 0;
    }

    method Receive(packet: VoicePacket, now: int)
      modifies this
      ensures State() == ReceiveStep(old(State()), packet, now)
    {
      var isNewTransmission := origin == [] && packetNumber == 0;
      var isNewerPacket := packet.packetID > packetNumber;
      var isSameOrigin := origin == packet.originGUID;
      if !(isNewTransmission || (isNewerPacket && isSameOrigin)) {
        return;
      }
      buffer := buffer + [packet];
      origin := packet.originGUID;
      deadline := now + MAX_RX_GAP;
      packetNumber := packet.packetID;
    }

    predicate HasTransmission(now: int)
      reads this
    {
      |buffer| > 0 && now > deadline
    }

    method Reset()
      modifies this
      ensures State() == IDLE
    {
      buffer, origin, deadline, packetNumber := [], [], 0, 0;
    }

    /** A decoded packet is offered once per frequency that this radio is tuned to, on secure radios only
        if it comes from a known client of the own coalition. It is kept at most once. */
    method Deliver(packet: VoicePacket, security: Security, tuned: Frequency -> bool, now: int)
      requires packet.originGUID != []
      modifies this
      ensures State() == if (security.secureCoalitionRadios ==>
                               packet.originGUID in security.clients
                               && security.clients[packet.originGUID] == security.coalition)
                            && exists i :: 0 <= i < |packet.frequencies| && tuned(packet.frequencies[i])
                         then ReceiveStep(old(State()), packet, now) else old(State())
    {
      if security.secureCoalitionRadios {
        if packet.originGUID !in security.clients {
          return;
        }
        if security.clients[packet.originGUID] != security.coalition {
          return;
        }
      }
      for k := 0 to |packet.frequencies|
        invariant State() == if exists i :: 0 <= i < k && tuned(packet.frequencies[i])
                             then ReceiveStep(old(State()), packet, now) else old(State())
      {
        if tuned(packet.frequencies[k]) {
          Receive(packet, now);
        }
      }
    }

    /** The periodic check for the end of a transmission. */
    method Check(now: int, quiet: bool) returns (out: Option<seq<VoicePacket>>)
      modifies this
      ensures State() == if quiet && Complete(old(State()), now) then IDLE else old(State())
      ensures out == if quiet && Complete(old(State()), now) && LongEnough(old(State()))
                     then Some(old(buffer)) else None
    {
      out := None;
      if quiet && HasTransmission(now) {
        var duration := |buffer| * FRAME_LENGTH;
        if duration > MIN_RX_DURATION {
          out := Some(buffer);
        }
        Reset();
      }
    }
  }

  // ---------------------------------------------------------------- one transmission

  /** From the first speaker, and newer than everything from that speaker before it. */
  ghost predicate IsMaximum(ps: seq<VoicePacket>, i: nat)
    requires i < |ps|
  {
    && ps[i].originGUID == ps[0].originGUID
    && forall j :: 0 <= j < i && ps[j].originGUID == ps[0].originGUID ==> ps[j].packetID < ps[i].packetID
  }

  /** The strict left-to-right maxima by packet ID among the first speaker's packets. */
  ghost function Maxima(ps: seq<VoicePacket>): seq<VoicePacket> {
    var n := |ps|;
    if n == 0 then []
    else if IsMaximum(ps, n - 1) then Maxima(ps[..n - 1]) + [ps[n - 1]]
    else Maxima(ps[..n - 1])
  }

  datatype Arrival = Arrival(packet: VoicePacket, time: int)

  ghost function Packets(arrivals: seq<Arrival>): (r: seq<VoicePacket>)
    ensures |r| == |arrivals| && forall i :: 0 <= i < |r| ==> r[i] == arrivals[i].packet
  {
    seq(|arrivals|, i requires 0 <= i < |arrivals| => arrivals[i].packet)
  }

  ghost function ReceiveAll(arrivals: seq<Arrival>): Rx {
    if arrivals == [] then IDLE
    else
      var n := |arrivals| - 1;
      ReceiveStep(ReceiveAll(arrivals[..n]), arrivals[n].packet, arrivals[n].time)
  }

  ghost predicate Named(arrivals: seq<Arrival>) {
    forall i :: 0 <= i < |arrivals| ==> arrivals[i].packet.originGUID != []
  }

  /** The receiver remembers the first speaker and the largest ID from that speaker. */
  lemma {:induction false} ReceiverRemembers(arrivals: seq<Arrival>)
    requires Named(arrivals) && arrivals != []
    ensures var s, ps := ReceiveAll(arrivals), Packets(arrivals);
            && s.origin == ps[0].originGUID
            && (forall i :: 0 <= i < |ps| && ps[i].originGUID == s.origin ==> ps[i].packetID <= s.packetNumber)
            && exists i :: 0 <= i < |ps| && ps[i].originGUID == s.origin && ps[i].packetID == s.packetNumber
  {
    var n := |arrivals| - 1;
    var before, ps := arrivals[..n], Packets(arrivals);
    if n == 0 {
      assert ps[0].originGUID == ReceiveAll(arrivals).origin && ps[0].packetID == ReceiveAll(arrivals).packetNumber;
    } else {
      ReceiverRemembers(before);
      var bs := Packets(before);
      assert forall i :: 0 <= i < n ==> ps[i] == bs[i];
      var k :| 0 <= k < |bs| && bs[k].originGUID == ReceiveAll(before).origin
               && bs[k].packetID == ReceiveAll(before).packetNumber;
      assert ps[k] == bs[k];
      assert ps[n] == arrivals[n].packet;
    }
  }

  /** The buffer is exactly the left-to-right maxima of the first speaker. */
  lemma {:induction false} BufferIsMaxima(arrivals: seq<Arrival>)
    requires Named(arrivals)
    ensures ReceiveAll(arrivals).buffer == Maxima(Packets(arrivals))
  {
    if arrivals != [] {
      var n := |arrivals| - 1;
      var before, ps := arrivals[..n], Packets(arrivals);
      BufferIsMaxima(before);
      assert ps[..n] == Packets(before);
      if n > 0 {
        ReceiverRemembers(before);
        var bs, s := Packets(before), ReceiveAll(before);
        var k :| 0 <= k < |bs| && bs[k].originGUID == s.origin && bs[k].packetID == s.packetNumber;
        assert forall i :: 0 <= i < n ==> ps[i] == bs[i];
        assert Accepts(s, ps[n]) <==> IsMaximum(ps, n);
      }
    }
  }

  /** One speaker and increasing IDs. */
  ghost predicate OneTransmission(ps: seq<VoicePacket>) {
    forall i, j :: 0 <= i < j < |ps| ==> ps[i].originGUID == ps[j].originGUID && ps[i].packetID < ps[j].packetID
  }

  lemma {:induction false} MaximaAscend(ps: seq<VoicePacket>)
    ensures OneTransmission(Maxima(ps))
    ensures forall q :: q in Maxima(ps) ==> q in ps && q.originGUID == ps[0].originGUID
  {
    if ps != [] {
      var n := |ps| - 1;
      var before := ps[..n];
      MaximaAscend(before);
      var m := Maxima(before);
      assert Maxima(ps) == if IsMaximum(ps, n) then m + [ps[n]] else m;
      hide Maxima, OneTransmission;
      forall q | q in m
        ensures q in ps && q.originGUID == ps[0].originGUID
        ensures IsMaximum(ps, n) ==> q.originGUID == ps[n].originGUID && q.packetID < ps[n].packetID
      {
        var j :| 0 <= j < n && before[j] == q;
        assert ps[j] == q && before[0] == ps[0];
      }
      if IsMaximum(ps, n) {
        OneMorePacket(m, ps[n]);
      }
    }
  }

  lemma OneMorePacket(ps: seq<VoicePacket>, p: VoicePacket)
    requires OneTransmission(ps)
    requires forall q :: q in ps ==> q.originGUID == p.originGUID && q.packetID < p.packetID
    ensures OneTransmission(ps + [p])
  {
    assert forall i :: 0 <= i < |ps| ==> ps[i] in ps;
  }

  lemma {:induction false} KeptWhole(ps: seq<VoicePacket>)
    requires OneTransmission(ps)
    ensures Maxima(ps) == ps
  {
    if ps != [] {
      var n := |ps| - 1;
      KeptWhole(ps[..n]);
      assert IsMaximum(ps, n);
    }
  }

  /** A transmission arriving in order is kept whole, and only such a one is. */
  lemma InOrderIsKept(ps: seq<VoicePacket>)
    ensures Maxima(ps) == ps <==> OneTransmission(ps)
  {
    hide Maxima;
    if OneTransmission(ps) {
      KeptWhole(ps);
    }
    MaximaAscend(ps);
  }

  // ---------------------------------------------------------------- whole runs

  datatype Event = Arrived(arrival: Arrival) | Checked(time: int, quiet: bool) | Reinitialized

  datatype Verdict = Published | Discarded | Lost

  datatype Batch = Batch(arrivals: seq<Arrival>, packets: seq<VoicePacket>, verdict: Verdict, time: int)

  /** The receiver, the arrivals since it was last reset, and the batches closed so far. */
  datatype Log = Log(rx: Rx, arrivals: seq<Arrival>, batches: seq<Batch>)

  ghost function LogStep(l: Log, e: Event): Log {
    match e
    case Arrived(a) => Log(ReceiveStep(l.rx, a.packet, a.time), l.arrivals + [a], l.batches)
    case Checked(time, quiet) =>
      if quiet && Complete(l.rx, time)
      then Log(IDLE, [], l.batches + [Batch(l.arrivals, l.rx.buffer,
        if LongEnough(l.rx) then Published else Discarded, time)])
      else l
    case Reinitialized => Log(IDLE, [], l.batches + [Batch(l.arrivals, l.rx.buffer, Lost, 0)])
  }

  ghost function Replay(events: seq<Event>): Log {
    if events == [] then Log(IDLE, [], []) else LogStep(Replay(events[..|events| - 1]), events[|events| - 1])
  }

  ghost function AllArrivals(events: seq<Event>): seq<Arrival> {
    if events == [] then []
    else
      var e := events[|events| - 1];
      AllArrivals(events[..|events| - 1]) + if e.Arrived? then [e.arrival] else []
  }

  ghost function Joined(batches: seq<Batch>): seq<Arrival> {
    if batches == [] then [] else Joined(batches[..|batches| - 1]) + batches[|batches| - 1].arrivals
  }

  /** A published batch is one transmission of at least 26 packets, closed more than 300 ms after the
      last packet it kept; a discarded one has at most 25. */
  ghost predicate FairBatch(b: Batch) {
    && b.packets == Maxima(Packets(b.arrivals))
    && OneTransmission(b.packets)
    && (b.verdict.Published? ==> |b.packets| >= 26)
    && (b.verdict.Discarded? ==> 1 <= |b.packets| <= 25)
    && (!b.verdict.Lost? ==> exists i :: 0 <= i < |b.arrivals| && b.arrivals[i].packet == b.packets[|b.packets| - 1]
                                         && b.time > b.arrivals[i].time + 300_000_000)
  }

  /** The deadline is 300 ms after the last packet kept. */
  lemma {:induction false} DeadlineOfLast(arrivals: seq<Arrival>)
    requires ReceiveAll(arrivals).buffer != []
    ensures var s := ReceiveAll(arrivals);
            exists i :: 0 <= i < |arrivals| && arrivals[i].packet == s.buffer[|s.buffer| - 1]
                        && s.deadline == arrivals[i].time + MAX_RX_GAP
  {
    var n := |arrivals| - 1;
    var s := ReceiveAll(arrivals[..n]);
    if Accepts(s, arrivals[n].packet) {
      assert arrivals[n].packet == ReceiveAll(arrivals).buffer[|s.buffer|];
    } else {
      DeadlineOfLast(arrivals[..n]);
      var i :| 0 <= i < n && arrivals[..n][i].packet == s.buffer[|s.buffer| - 1]
               && s.deadline == arrivals[..n][i].time + MAX_RX_GAP;
      assert arrivals[i] == arrivals[..n][i];
    }
  }

  /** The arrivals are split in order into the closed batches and the rest, each batch is fair, and
      the receiver has heard exactly the rest. */
  ghost predicate Conserved(l: Log, all: seq<Arrival>) {
    && Joined(l.batches) + l.arrivals == all
    && Named(l.arrivals)
    && l.rx == ReceiveAll(l.arrivals)
    && forall b :: b in l.batches ==> FairBatch(b)
  }

  lemma ArrivalConserves(l: Log, all: seq<Arrival>, a: Arrival)
    requires Conserved(l, all) && a.packet.originGUID != []
    ensures Conserved(LogStep(l, Arrived(a)), all + [a])
  {
    hide Joined, FairBatch;
    assert (l.arrivals + [a])[..|l.arrivals|] == l.arrivals;
    assert Joined(l.batches) + (l.arrivals + [a]) == all + [a];
  }

  lemma CloseConserves(l: Log, all: seq<Arrival>, b: Batch)
    requires Conserved(l, all) && b.arrivals == l.arrivals && FairBatch(b)
    ensures Conserved(Log(IDLE, [], l.batches + [b]), all)
  {
    hide FairBatch, Joined;
    JoinedAppend(l.batches, b);
  }

  lemma JoinedAppend(batches: seq<Batch>, b: Batch)
    ensures Joined(batches + [b]) + [] == Joined(batches) + b.arrivals
  {
    assert (batches + [b])[..|batches|] == batches;
  }

  lemma StartConserved()
    ensures Conserved(Log(IDLE, [], []), [])
  {
  }

  lemma BatchIsFair(arrivals: seq<Arrival>, verdict: Verdict, time: int)
    requires Named(arrivals)
    requires verdict.Published? ==> LongEnough(ReceiveAll(arrivals))
    requires verdict.Discarded? ==> !LongEnough(ReceiveAll(arrivals))
    requires !verdict.Lost? ==> Complete(ReceiveAll(arrivals), time)
    ensures FairBatch(Batch(arrivals, ReceiveAll(arrivals).buffer, verdict, time))
  {
    hide ReceiveAll, Maxima;
    BufferIsMaxima(arrivals);
    MaximaAscend(Packets(arrivals));
    if !verdict.Lost? {
      DeadlineOfLast(arrivals);
    }
  }

  /** Every run conserves the arrivals, and the buffer holds the maxima of those since the last
      reset. */
  lemma {:induction false} ReceiverConserves(events: seq<Event>)
    requires forall e :: e in events && e.Arrived? ==> e.arrival.packet.originGUID != []
    ensures Conserved(Replay(events), AllArrivals(events))
    ensures Replay(events).rx.buffer == Maxima(Packets(Replay(events).arrivals))
  {
    hide Conserved, Maxima, ReceiveAll, FairBatch;
    if events == [] {
      StartConserved();
    } else {
      var n := |events| - 1;
      ReceiverConserves(events[..n]);
      var l, e, all := Replay(events[..n]), events[n], AllArrivals(events[..n]);
      if e.Arrived? {
        assert e in events;
        ArrivalConserves(l, all, e.arrival);
      } else {
        assert all + [] == all;
        assert Named(l.arrivals) && l.rx == ReceiveAll(l.arrivals) by { ConservedRest(l, all); }
        if e.Reinitialized? {
          BatchIsFair(l.arrivals, Lost, 0);
          CloseConserves(l, all, Batch(l.arrivals, l.rx.buffer, Lost, 0));
        } else if e.quiet && Complete(l.rx, e.time) {
          var verdict := if LongEnough(l.rx) then Published else Discarded;
          BatchIsFair(l.arrivals, verdict, e.time);
          CloseConserves(l, all, Batch(l.arrivals, l.rx.buffer, verdict, e.time));
        }
      }
    }
    ConservedRest(Replay(events), AllArrivals(events));
    BufferIsMaxima(Replay(events).arrivals);
  }

  // ---------------------------------------------------------------- the end of a transmission

  /** The last packet that the receiver kept. */
  ghost predicate LastKept(arrivals: seq<Arrival>, i: nat) {
    && i < |arrivals| && IsMaximum(Packets(arrivals), i)
    && forall j :: i < j < |arrivals| ==> !IsMaximum(Packets(arrivals), j)
  }

  /** A transmission is over exactly when more than 300 ms have passed since its last packet was kept. */
  lemma {:induction false} OverAfterGap(arrivals: seq<Arrival>, i: nat, now: int)
    requires Named(arrivals) && LastKept(arrivals, i)
    ensures Complete(ReceiveAll(arrivals), now) <==> now > arrivals[i].time + 300_000_000
  {
    var n := |arrivals| - 1;
    var before, ps := arrivals[..n], Packets(arrivals);
    assert Packets(before) == ps[..n];
    BufferIsMaxima(arrivals);
    BufferIsMaxima(before);
    if i == n {
      assert ReceiveAll(arrivals).buffer == ReceiveAll(before).buffer + [ps[n]];
    } else {
      assert !IsMaximum(ps, n);
      assert IsMaximum(Packets(before), i);
      forall j | i < j < n ensures !IsMaximum(Packets(before), j) {
        assert !IsMaximum(ps, j);
        SamePrefixMaximum(ps, n, j);
      }
      OverAfterGap(before, i, now);
      assert ReceiveAll(arrivals).buffer == ReceiveAll(before).buffer;
      assert |ReceiveAll(before).buffer + [ps[n]]| != |ReceiveAll(before).buffer|;
    }
  }

  lemma SamePrefixMaximum(ps: seq<VoicePacket>, n: nat, j: nat)
    requires j < n <= |ps|
    ensures IsMaximum(ps[..n], j) <==> IsMaximum(ps, j)
  {
    var before := ps[..n];
    forall k | 0 <= k < n ensures before[k] == ps[k] {
    }
    if IsMaximum(before, j) {
      forall k | 0 <= k < j && ps[k].originGUID == ps[0].originGUID ensures ps[k].packetID < ps[j].packetID {
        assert before[k] == ps[k];
      }
    }
  }

  /** The log after a closed transmission: what was kept is published if it is 26 packets or more. */
  ghost function Closed(l: Log, time: int): Log {
    var kept := Maxima(Packets(l.arrivals));
    Log(IDLE, [], l.batches + [Batch(l.arrivals, kept, if |kept| >= 26 then Published else Discarded, time)])
  }

  lemma CheckStep(l: Log, i: nat, time: int, quiet: bool)
    requires Named(l.arrivals) && l.rx == ReceiveAll(l.arrivals) && LastKept(l.arrivals, i)
    ensures LogStep(l, Checked(time, quiet)) ==
            if quiet && time > l.arrivals[i].time + 300_000_000 then Closed(l, time) else l
  {
    hide Maxima, ReceiveAll, LastKept;
    BufferIsMaxima(l.arrivals);
    OverAfterGap(l.arrivals, i, time);
    assert LongEnough(l.rx) <==> |l.rx.buffer| >= 26;
  }

  /** In any run, a check closes the transmission exactly if no input waits and more than 300 ms have
      passed since the last packet kept. */
  lemma CheckCloses(events: seq<Event>, i: nat, time: int, quiet: bool)
    requires forall e :: e in events && e.Arrived? ==> e.arrival.packet.originGUID != []
    requires LastKept(Replay(events).arrivals, i)
    ensures var l := Replay(events);
            Replay(events + [Checked(time, quiet)]) ==
            if quiet && time > l.arrivals[i].time + 300_000_000 then Closed(l, time) else l
  {
    hide Conserved, LastKept, LogStep, Closed;
    var l, more := Replay(events), events + [Checked(time, quiet)];
    ReceiverConserves(events);
    ConservedRest(l, AllArrivals(events));
    CheckStep(l, i, time, quiet);
    assert more[..|events|] == events && more[|events|] == Checked(time, quiet);
  }

  lemma ConservedRest(l: Log, all: seq<Arrival>)
    requires Conserved(l, all)
    ensures Named(l.arrivals) && l.rx == ReceiveAll(l.arrivals)
  {
  }
}
