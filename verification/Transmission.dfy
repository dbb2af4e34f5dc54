/**
 Outgoing transmissions: audio is cut into 640-sample frames, the last one padded with silence, each
 frame is compressed and numbered, and the packets are sent. The end-to-end theorems join this to the
 codec and to the receiver of another client.
 */
module Transmissions {
  import opened Tracks
  import opened VoicePackets
  import opened Receivers

  const FRAME_SIZE := 640
  const UNIT_ID := 100000002
  const U64 := 0x1_0000_0000_0000_0000

  type Sample = real

  /** The compressor's answer for the k-th frame of a transmission: bytes, or an error. */
  type Opus = (nat, seq<Sample>) -> Option<seq<byte>>

  function Silence(n: nat): (r: seq<Sample>)
    ensures |r| == n && forall i :: 0 <= i < n ==> r[i] == 0.0
  {
    seq(n, i => 0.0)
  }

  /** The frame starting at sample `i`. */
  function FrameAt(audio: seq<Sample>, i: nat): (r: seq<Sample>)
    requires i < |audio|
    ensures |r| == FRAME_SIZE
  {
    var raw := if i + FRAME_SIZE < |audio| then audio[i..i + FRAME_SIZE] else audio[i..];
    raw + Silence(FRAME_SIZE - |raw|)
  }

  /** The first `k` frames. */
  ghost function Frames(audio: seq<Sample>, k: nat): (r: seq<seq<Sample>>)
    requires k * FRAME_SIZE < |audio| + FRAME_SIZE
    ensures |r| == k
  {
    if k == 0 then [] else Frames(audio, k - 1) + [FrameAt(audio, (k - 1) * FRAME_SIZE)]
  }

  ghost function Concat(frames: seq<seq<Sample>>): seq<Sample> {
    if frames == [] then [] else Concat(frames[..|frames| - 1]) + frames[|frames| - 1]
  }

  /** The 64-bit packet counter wraps around. */
  function Increment(x: u64): u64 {
    if x + 1 == U64 then 0 else x + 1
  }

  /** The counter, `n` packets on. */
  function NumberAt(number: u64, n: nat): u64 {
    if n == 0 then number else Increment(NumberAt(number, n - 1))
  }

  lemma {:induction false} NumberBeforeWrap(number: u64, n: nat)
    requires number + n <= U64
    ensures NumberAt(number, n) == if number + n == U64 then (if n == 0 then number else 0) else number + n
  {
    if n > 0 {
      NumberBeforeWrap(number, n - 1);
    }
  }

  lemma {:induction false} NumberIsModular(number: u64, n: nat)
    ensures NumberAt(number, n) == (number + n) % 0x1_0000_0000_0000_0000
  {
    if n > 0 {
      NumberIsModular(number, n - 1);
      NextModulo(number + n - 1);
    }
  }

  lemma NextModulo(x: nat)
    ensures (x + 1) % U64 == if x % U64 + 1 == U64 then 0 else x % U64 + 1
  {
    var q, r := x / U64, x % U64;
    assert x == q * U64 + r;
    if r + 1 == U64 {
      assert x + 1 == (q + 1) * U64;
    } else {
      assert x + 1 == q * U64 + (r + 1);
    }
  }

  /** The packets for the first `k` frames; frames that fail to compress are skipped and take no
      number. */
  ghost function PacketsFor(audio: seq<Sample>, opus: Opus, frequencies: seq<Frequency>, guid: seq<byte>,
      number: u64, k: nat): seq<VoicePacket>
    requires k * FRAME_SIZE < |audio| + FRAME_SIZE
  {
    if k == 0 then []
    else
      var before := PacketsFor(audio, opus, frequencies, guid, number, k - 1);
      match opus(k - 1, FrameAt(audio, (k - 1) * FRAME_SIZE))
      case None => before
      case Some(bytes) =>
        before + [NewVoicePacket(bytes, frequencies, UNIT_ID, NumberAt(number, |before|), 0, guid, guid)]
  }

  class Transmitter {
    const guid: seq<byte>
    const frequencies: seq<Frequency>
    var packetNumber: u64

    constructor (guid: seq<byte>, frequencies: seq<Frequency>)
      ensures this.guid == guid && this.frequencies == frequencies && packetNumber == 1
    {
      this.guid, this.frequencies, packetNumber := guid, frequencies, 1;
    }

    /** One transmission. The packet number goes on where the last transmission stopped. */
    method EncodeVoice(audio: seq<Sample>, opus: Opus) returns (txPackets: seq<VoicePacket>, ghost frames: nat)
      modifies this`packetNumber
      ensures frames * FRAME_SIZE < |audio| + FRAME_SIZE <= (frames + 1) * FRAME_SIZE
      ensures txPackets == PacketsFor(audio, opus, frequencies, guid, old(packetNumber), frames)
      ensures packetNumber == NumberAt(old(packetNumber), |txPackets|)
    {
      hide NewVoicePacket;
      txPackets := [];
      var i, k := 0, 0;
      while i < |audio|
        invariant i == k * FRAME_SIZE && i < |audio| + FRAME_SIZE
        invariant txPackets == PacketsFor(audio, opus, frequencies, guid, old(packetNumber), k)
        invariant packetNumber == NumberAt(old(packetNumber), |txPackets|)
        decreases |audio| + FRAME_SIZE - i
      {
        var frameAudio := if i + FRAME_SIZE < |audio| then audio[i..i + FRAME_SIZE] else audio[i..];
        if |frameAudio| < FRAME_SIZE {
          frameAudio := frameAudio + Silence(FRAME_SIZE - |frameAudio|);
        }
        assert frameAudio == FrameAt(audio, i);
        var audioBytes := opus(k, frameAudio);
        if audioBytes.Some? {
          txPackets := txPackets + [NewVoicePacket(audioBytes.value, frequencies, UNIT_ID, packetNumber, 0,
            guid, guid)];
          packetNumber := Increment(packetNumber);
        }
        i, k := i + FRAME_SIZE, k + 1;
      }
      frames := k;
    }
  }

  // ---------------------------------------------------------------- framing

  /** The frames are the audio followed by fewer than 640 samples of silence. */
  lemma {:induction false} FramesAreAudio(audio: seq<Sample>, k: nat)
    requires k * FRAME_SIZE < |audio| + FRAME_SIZE
    ensures Concat(Frames(audio, k)) ==
            if k * FRAME_SIZE <= |audio| then audio[..k * FRAME_SIZE] else audio + Silence(k * FRAME_SIZE - |audio|)
  {
    if k > 0 {
      FramesAreAudio(audio, k - 1);
      assert Frames(audio, k)[..k - 1] == Frames(audio, k - 1);
    }
  }

  lemma WholeAudio(audio: seq<Sample>, k: nat)
    requires k * FRAME_SIZE < |audio| + FRAME_SIZE <= (k + 1) * FRAME_SIZE
    ensures k * 640 - |audio| < 640
    ensures k * 640 >= |audio| && Concat(Frames(audio, k)) == audio + Silence(k * 640 - |audio|)
    ensures forall i :: 0 <= i < k ==> |Frames(audio, k)[i]| == 640
  {
    FramesAreAudio(audio, k);
    FramesAreFull(audio, k);
    if k * FRAME_SIZE == |audio| {
      assert audio[..|audio|] == audio + Silence(0);
    }
  }

  lemma {:induction false} FramesAreFull(audio: seq<Sample>, k: nat)
    requires k * FRAME_SIZE < |audio| + FRAME_SIZE
    ensures forall i :: 0 <= i < k ==> |Frames(audio, k)[i]| == FRAME_SIZE
  {
    hide FrameAt;
    if k > 0 {
      FramesAreFull(audio, k - 1);
    }
  }

  ghost predicate Compresses(audio: seq<Sample>, opus: Opus, i: nat) {
    i * FRAME_SIZE < |audio| && opus(i, FrameAt(audio, i * FRAME_SIZE)).Some?
  }

  /** If every frame compresses, there is one packet per frame, holding that frame's bytes. */
  lemma {:induction false} PacketPerFrame(audio: seq<Sample>, opus: Opus, frequencies: seq<Frequency>,
      guid: seq<byte>, number: u64, k: nat)
    requires k * FRAME_SIZE < |audio| + FRAME_SIZE
    requires forall i :: 0 <= i < k ==> Compresses(audio, opus, i)
    ensures var ps := PacketsFor(audio, opus, frequencies, guid, number, k);
            && |ps| == k
            && forall i | 0 <= i < k ::
                 Compresses(audio, opus, i) && ps[i].audioBytes == opus(i, FrameAt(audio, i * FRAME_SIZE)).value
  {
    hide FrameAt, NumberAt;
    if k > 0 {
      PacketPerFrame(audio, opus, frequencies, guid, number, k - 1);
      assert Compresses(audio, opus, k - 1);
    }
  }

  /** The packets are those of the frames that compress, in order: `at[i]` is the frame of packet i. */
  lemma {:induction false} PacketsAreFrames(audio: seq<Sample>, opus: Opus, frequencies: seq<Frequency>,
      guid: seq<byte>, number: u64, k: nat) returns (at: seq<nat>)
    requires k * FRAME_SIZE < |audio| + FRAME_SIZE
    ensures var ps := PacketsFor(audio, opus, frequencies, guid, number, k);
            && |at| == |ps|
            && (forall i, j :: 0 <= i < j < |at| ==> at[i] < at[j])
            && (forall f :: f in at <==> 0 <= f < k && Compresses(audio, opus, f))
            && forall i | 0 <= i < |at| ::
                 Compresses(audio, opus, at[i])
                 && ps[i].audioBytes == opus(at[i], FrameAt(audio, at[i] * FRAME_SIZE)).value
  {
    hide FrameAt, NumberAt, NewVoicePacket;
    at := [];
    if k > 0 {
      at := PacketsAreFrames(audio, opus, frequencies, guid, number, k - 1);
      var ps := PacketsFor(audio, opus, frequencies, guid, number, k - 1);
      var bytes := opus(k - 1, FrameAt(audio, (k - 1) * FRAME_SIZE));
      if bytes.Some? {
        NewPacketHolds(bytes.value, frequencies, NumberAt(number, |ps|), guid);
        assert forall i :: 0 <= i < |at| ==> at[i] in at;
        at := at + [k - 1];
      }
    }
  }

  lemma NewPacketHolds(bytes: seq<byte>, frequencies: seq<Frequency>, number: u64, guid: seq<byte>)
    ensures NewVoicePacket(bytes, frequencies, UNIT_ID, number, 0, guid, guid).audioBytes == bytes
  {
  }

  /** A packet of this client with the given number. */
  ghost predicate Sent(p: VoicePacket, frequencies: seq<Frequency>, guid: seq<byte>, number: u64) {
    && p.packetID == number && p.frequencies == frequencies && p.unitID == 100000002 && p.hops == 0
    && p.originGUID == guid && p.relayGUID == guid
    && Constructed(p)
  }

  /** Consecutive packet numbers, modulo 2^64. */
  ghost predicate FromClient(ps: seq<VoicePacket>, frequencies: seq<Frequency>, guid: seq<byte>, number: u64) {
    forall i :: 0 <= i < |ps| ==> Sent(ps[i], frequencies, guid, NumberAt(number, i))
  }

  lemma {:induction false} ConsecutiveNumbers(audio: seq<Sample>, opus: Opus, frequencies: seq<Frequency>,
      guid: seq<byte>, number: u64, k: nat)
    requires k * FRAME_SIZE < |audio| + FRAME_SIZE
    ensures FromClient(PacketsFor(audio, opus, frequencies, guid, number, k), frequencies, guid, number)
  {
    hide NewVoicePacket, Sent, NumberAt, FrameAt;
    if k > 0 {
      ConsecutiveNumbers(audio, opus, frequencies, guid, number, k - 1);
      var before := PacketsFor(audio, opus, frequencies, guid, number, k - 1);
      var bytes := opus(k - 1, FrameAt(audio, (k - 1) * FRAME_SIZE));
      if bytes.Some? {
        NewPacketIsSent(bytes.value, frequencies, NumberAt(number, |before|), guid);
      }
    }
  }

  lemma NewPacketIsSent(bytes: seq<byte>, frequencies: seq<Frequency>, number: u64, guid: seq<byte>)
    ensures Sent(NewVoicePacket(bytes, frequencies, UNIT_ID, number, 0, guid, guid), frequencies, guid, number)
  {
  }

  // ---------------------------------------------------------------- end to end

  /** The IDs increase exactly if the 64-bit counter does not wrap inside the transmission. */
  lemma IncreasingIffNoWrap(ps: seq<VoicePacket>, frequencies: seq<Frequency>, guid: seq<byte>, number: u64)
    requires FromClient(ps, frequencies, guid, number)
    ensures OneTransmission(ps) <==> number + |ps| <= U64
  {
    hide Constructed, NumberAt;
    if number + |ps| > U64 {
      var w := U64 - number;
      NumberBeforeWrap(number, w);
      assert ps[w].packetID == 0 && ps[w - 1].packetID >= 0;
    } else {
      forall i | 0 <= i < |ps| ensures ps[i].packetID == number + i {
        NumberBeforeWrap(number, i);
      }
    }
  }

  ghost function Timed(ps: seq<VoicePacket>, times: seq<int>): (r: seq<Arrival>)
    requires |times| == |ps|
    ensures |r| == |ps|
    ensures forall i :: 0 <= i < |ps| ==> r[i] == Arrival(ps[i], times[i])
  {
    seq(|ps|, i requires 0 <= i < |ps| => Arrival(ps[i], times[i]))
  }

  ghost predicate AllFit(ps: seq<VoicePacket>) {
    forall i :: 0 <= i < |ps| ==> WellSized(ps[i])
  }

  /** A transmission that is encoded, decoded and delivered in order to an idle receiver ends up in
      its buffer packet for packet, exactly if the packet counter does not wrap inside it. */
  lemma EndToEnd(ps: seq<VoicePacket>, frequencies: seq<Frequency>, guid: seq<byte>, number: u64, times: seq<int>)
    requires FromClient(ps, frequencies, guid, number) && |guid| == GUID && |times| == |ps|
    requires AllFit(ps)
    ensures forall i :: 0 <= i < |ps| ==> Acceptable(Layout(ps[i])) && Fields(Layout(ps[i])) == ps[i]
    ensures ReceiveAll(Timed(ps, times)).buffer == ps <==> number + |ps| <= U64
  {
    hide Layout, Fields, Acceptable, WellSized, ReceiveAll, Maxima, OneTransmission;
    forall i | 0 <= i < |ps| ensures Acceptable(Layout(ps[i])) && Fields(Layout(ps[i])) == ps[i] {
      LayoutReadsBack(ps[i], []);
      assert Layout(ps[i]) + [] == Layout(ps[i]);
    }
    var arrivals := Timed(ps, times);
    BufferIsMaxima(arrivals);
    assert Packets(arrivals) == ps;
    InOrderIsKept(ps);
    IncreasingIffNoWrap(ps, frequencies, guid, number);
  }

  /** The packets of any transmission of a client with a 22-byte GUID, if each frame is small enough to
      encode, reach the buffer of an idle receiver packet for packet, exactly if the counter does not
      wrap. */
  lemma TransmissionArrives(audio: seq<Sample>, opus: Opus, frequencies: seq<Frequency>, guid: seq<byte>,
      number: u64, k: nat, times: seq<int>)
    requires k * FRAME_SIZE < |audio| + FRAME_SIZE && |guid| == GUID
    requires forall i :: 0 <= i < k && Compresses(audio, opus, i) ==>
                           64 + |opus(i, FrameAt(audio, i * FRAME_SIZE)).value| + 10 * |frequencies| <= MAX_U16
    requires |times| == |PacketsFor(audio, opus, frequencies, guid, number, k)|
    ensures var ps := PacketsFor(audio, opus, frequencies, guid, number, k);
            && (forall i :: 0 <= i < |ps| ==> Acceptable(Layout(ps[i])) && Fields(Layout(ps[i])) == ps[i])
            && (ReceiveAll(Timed(ps, times)).buffer == ps <==> number + |ps| <= U64)
  {
    hide PacketsFor, Layout, Fields, Acceptable;
    ConsecutiveNumbers(audio, opus, frequencies, guid, number, k);
    PacketsFit(audio, opus, frequencies, guid, number, k);
    EndToEnd(PacketsFor(audio, opus, frequencies, guid, number, k), frequencies, guid, number, times);
  }

  lemma {:induction false} PacketsFit(audio: seq<Sample>, opus: Opus, frequencies: seq<Frequency>,
      guid: seq<byte>, number: u64, k: nat)
    requires k * FRAME_SIZE < |audio| + FRAME_SIZE
    requires forall i :: 0 <= i < k && Compresses(audio, opus, i) ==>
                           64 + |opus(i, FrameAt(audio, i * FRAME_SIZE)).value| + 10 * |frequencies| <= MAX_U16
    ensures AllFit(PacketsFor(audio, opus, frequencies, guid, number, k))
  {
    hide FrameAt, NumberAt, WellSized, NewVoicePacket;
    if k > 0 {
      PacketsFit(audio, opus, frequencies, guid, number, k - 1);
      var before := PacketsFor(audio, opus, frequencies, guid, number, k - 1);
      var bytes := opus(k - 1, FrameAt(audio, (k - 1) * FRAME_SIZE));
      if bytes.Some? {
        assert Compresses(audio, opus, k - 1);
        NewPacketFits(bytes.value, frequencies, NumberAt(number, |before|), guid);
      }
    }
  }

  lemma NewPacketFits(bytes: seq<byte>, frequencies: seq<Frequency>, number: u64, guid: seq<byte>)
    requires 64 + |bytes| + 10 * |frequencies| <= MAX_U16
    ensures WellSized(NewVoicePacket(bytes, frequencies, UNIT_ID, number, 0, guid, guid))
  {
  }
}
