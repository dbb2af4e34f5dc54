/**
 Where every byte of a voice packet is: the layout that the encoder writes and the decoder reads, at
 absolute offsets, with every number spelt out little-endian.
 */
module WireFormat {
  import opened VoicePackets

  // ---------------------------------------------------------------- numbers

  ghost function At(b: seq<byte>, i: nat): int
    requires i < |b|
  {
    b[i]
  }

  ghost predicate Is16(v: int, b: seq<byte>, at: nat) {
    at + 2 <= |b| && v == At(b, at) + 256 * At(b, at + 1)
  }

  ghost predicate Is32(v: int, b: seq<byte>, at: nat) {
    at + 4 <= |b| && v == At(b, at) + 0x100 * At(b, at + 1) + 0x1_0000 * At(b, at + 2) + 0x100_0000 * At(b, at + 3)
  }

  ghost predicate Is64(v: int, b: seq<byte>, at: nat) {
    && at + 8 <= |b|
    && v == At(b, at) + 0x100 * At(b, at + 1) + 0x1_0000 * At(b, at + 2) + 0x100_0000 * At(b, at + 3)
            + 0x1_0000_0000 * At(b, at + 4) + 0x100_0000_0000 * At(b, at + 5)
            + 0x1_0000_0000_0000 * At(b, at + 6) + 0x100_0000_0000_0000 * At(b, at + 7)
  }

  lemma FirstTwo(b: seq<byte>)
    requires |b| >= 2
    ensures FromBytes(b) == b[0] + 256 * b[1] + 0x1_0000 * FromBytes(b[2..])
  {
    assert b[1..][1..] == b[2..];
  }

  lemma Read16(b: seq<byte>, at: nat)
    requires at + 2 <= |b|
    ensures Is16(Number16(b[at..at + 2]), b, at)
  {
    var s := b[at..at + 2];
    FirstTwo(s);
  }

  lemma Read32(b: seq<byte>, at: nat)
    requires at + 4 <= |b|
    ensures Is32(Number32(b[at..at + 4]), b, at)
  {
    var s := b[at..at + 4];
    FirstTwo(s);
    FirstTwo(s[2..]);
    assert s[2..][2..] == [];
  }

  lemma Read64(b: seq<byte>, at: nat)
    requires at + 8 <= |b|
    ensures Is64(Number64(b[at..at + 8]), b, at)
  {
    var s := b[at..at + 8];
    FirstTwo(s);
    FirstTwo(s[2..]);
    assert s[2..][2..] == s[4..];
    FirstTwo(s[4..]);
    assert s[4..][2..] == s[6..];
    FirstTwo(s[6..]);
    assert s[6..][2..] == [];
  }

  // ---------------------------------------------------------------- what the encoder writes

  /** A GUID cut or zero-padded to 22 bytes. */
  ghost function Padded(guid: seq<byte>): seq<byte> {
    (guid + seq(22, i => 0))[..22]
  }

  /** Bits, then modulation, then encryption. */
  ghost predicate FrequencyOnWire(f: Frequency, b: seq<byte>, at: nat) {
    at + 10 <= |b| && Is64(f.bits, b, at) && b[at + 8] == f.modulation && b[at + 9] == f.encryption
  }

  /** Unit ID, packet ID, hops, the relay's GUID and the origin's GUID. */
  ghost predicate FixedOnWire(p: VoicePacket, b: seq<byte>, at: nat) {
    && at + 57 <= |b|
    && Is32(p.unitID, b, at) && Is64(p.packetID, b, at + 4) && b[at + 12] == p.hops
    && b[at + 13..at + 35] == Padded(p.relayGUID) && b[at + 35..at + 57] == Padded(p.originGUID)
  }

  /** The three lengths, the audio, the frequencies, a zero byte and the fixed segment. */
  ghost predicate OnTheWire(p: VoicePacket, b: seq<byte>) {
    var a, n := |p.audioBytes|, |p.frequencies|;
    && |b| == 6 + a + 10 * n + 1 + 57
    && Is16(|b|, b, 0) && Is16(a, b, 2) && Is16(10 * n, b, 4)
    && b[6..6 + a] == p.audioBytes
    && (forall k :: 0 <= k < n ==> FrequencyOnWire(p.frequencies[k], b, 6 + a + 10 * k))
    && b[6 + a + 10 * n] == 0
    && FixedOnWire(p, b, 6 + a + 10 * n + 1)
  }

  lemma {:induction false} FrequencyAt(fs: seq<Frequency>, k: nat)
    requires k < |fs|
    ensures FrequenciesBytes(fs)[10 * k..10 * k + 10] == FrequencyBytes(fs[k])
  {
    hide FrequencyBytes;
    var n := |fs| - 1;
    if k < n {
      FrequencyAt(fs[..n], k);
      assert FrequenciesBytes(fs)[10 * k..10 * k + 10] == FrequenciesBytes(fs[..n])[10 * k..10 * k + 10];
    }
  }

  lemma FrequencyIsOnWire(f: Frequency, b: seq<byte>, at: nat)
    requires at + 10 <= |b| && b[at..at + 10] == FrequencyBytes(f)
    ensures FrequencyOnWire(f, b, at)
  {
    var s := b[at..at + 10];
    assert s[..8] == ToBytes(f.bits, 8) && b[at..at + 8] == s[..8];
    NumbersRoundTrip(0, 0, f.bits);
    Read64(b, at);
    assert b[at + 8] == s[8] && b[at + 9] == s[9];
  }

  lemma FitIsPadded(guid: seq<byte>)
    ensures Fit(guid) == Padded(guid)
  {
  }

  lemma Inner(b: seq<byte>, at: nat, n: nat, i: nat, j: nat)
    requires at + n <= |b| && i <= j <= n
    ensures b[at..at + n][i..j] == b[at + i..at + j]
  {
    var x, y := b[at..at + n][i..j], b[at + i..at + j];
    forall k | 0 <= k < j - i ensures x[k] == y[k] {
      assert x[k] == b[at..at + n][i + k];
    }
  }

  lemma FixedIsOnWire(p: VoicePacket, b: seq<byte>, at: nat)
    requires at + 57 <= |b| && b[at..at + 57] == FixedBytes(p)
    ensures FixedOnWire(p, b, at)
  {
    FixedSlices(p);
    hide FixedBytes, Number32, Number64, Fit, ToBytes;
    Inner(b, at, 57, 0, 4);
    Inner(b, at, 57, 4, 12);
    Inner(b, at, 57, 13, 35);
    Inner(b, at, 57, 35, 57);
    assert b[at + 12] == b[at..at + 57][12];
    NumbersRoundTrip(0, p.unitID, p.packetID);
    Read32(b, at);
    Read64(b, at + 4);
    FitIsPadded(p.relayGUID);
    FitIsPadded(p.originGUID);
  }

  /** The segments of a layout. */
  lemma LayoutSegments(p: VoicePacket)
    ensures var b, a, f := Layout(p), |p.audioBytes|, |p.frequencies| * FREQUENCY;
            && b[0..6] == HeaderBytes(p) && b[6..6 + a] == p.audioBytes
            && b[6 + a..6 + a + f] == FrequenciesBytes(p.frequencies)
            && b[6 + a + f] == 0 && b[6 + a + f + 1..6 + a + f + 58] == FixedBytes(p)
  {
    hide HeaderBytes, FixedBytes, FrequenciesBytes;
  }

  lemma HeaderIsOnWire(p: VoicePacket, b: seq<byte>)
    requires |b| >= 6 && b[0..6] == HeaderBytes(p)
    ensures Is16(p.packetLength, b, 0) && Is16(p.audioSegmentLength, b, 2) && Is16(p.frequenciesSegmentLength, b, 4)
  {
    var s := b[0..6];
    HeaderSlices(p);
    hide HeaderBytes, Number16, ToBytes;
    assert b[0..2] == s[0..2] && b[2..4] == s[2..4] && b[4..6] == s[4..6];
    NumbersRoundTrip(p.packetLength, 0, 0);
    NumbersRoundTrip(p.audioSegmentLength, 0, 0);
    NumbersRoundTrip(p.frequenciesSegmentLength, 0, 0);
    Read16(b, 0);
    Read16(b, 2);
    Read16(b, 4);
  }

  lemma FrequenciesAreOnWire(p: VoicePacket, k: nat)
    requires k < |p.frequencies|
    ensures FrequencyOnWire(p.frequencies[k], Layout(p), 6 + |p.audioBytes| + 10 * k)
  {
    LayoutSegments(p);
    var b, at, n := Layout(p), 6 + |p.audioBytes|, |p.frequencies| * FREQUENCY;
    hide Layout, FrequenciesBytes, FrequencyBytes;
    FrequencyAt(p.frequencies, k);
    var s := b[at..at + n];
    assert b[at + 10 * k..at + 10 * k + 10] == s[10 * k..10 * k + 10];
    FrequencyIsOnWire(p.frequencies[k], b, at + 10 * k);
  }

  /** The encoder's output, byte by byte. */
  lemma LayoutIsOnTheWire(p: VoicePacket)
    requires WellSized(p)
    ensures OnTheWire(p, Layout(p))
  {
    LayoutSegments(p);
    var b := Layout(p);
    hide Layout, HeaderBytes, FixedBytes, FrequenciesBytes;
    HeaderIsOnWire(p, b);
    FixedIsOnWire(p, b, 6 + |p.audioBytes| + 10 * |p.frequencies| + 1);
    forall k | 0 <= k < |p.frequencies|
      ensures FrequencyOnWire(p.frequencies[k], b, 6 + |p.audioBytes| + 10 * k)
    {
      FrequenciesAreOnWire(p, k);
    }
  }

  // ---------------------------------------------------------------- what the decoder reads

  /** Exactly these inputs decode: the first six bytes give three lengths that fit the input. */
  lemma AcceptableBytes(b: seq<byte>, length: int, a: int, f: int)
    requires |b| >= 6 && Is16(length, b, 0) && Is16(a, b, 2) && Is16(f, b, 4)
    ensures Acceptable(b) <==>
            && (57 <= length <= |b| || (length == 44 && |b| >= 65536))
            && 6 + a <= |b| && (6 + a) % 65536 + f <= |b| && f % 10 == 0
  {
    Read16(b, 0);
    Read16(b, 2);
    Read16(b, 4);
    hide Number16;
  }

  lemma {:induction false} FrequenciesRead(b: seq<byte>, k: nat)
    requires |b| % 10 == 0 && 10 * k < |b|
    ensures |FrequenciesFrom(b)| * 10 == |b|
    ensures FrequenciesFrom(b)[k] == FrequencyFrom(b[10 * k..10 * k + 10])
  {
    hide FrequencyFrom;
    var n := |b| - 10;
    if n == 0 {
      assert b[0..10] == b[n..] && FrequenciesFrom(b[..n]) == [];
    } else {
      var before := b[..n];
      if 10 * k < n {
        FrequenciesRead(before, k);
        assert before[10 * k..10 * k + 10] == b[10 * k..10 * k + 10];
      } else {
        FrequenciesRead(before, 0);
        assert b[n..] == b[10 * k..10 * k + 10];
      }
    }
  }

  lemma FrequencyReads(b: seq<byte>, at: nat)
    requires at + 10 <= |b|
    ensures FrequencyOnWire(FrequencyFrom(b[at..at + 10]), b, at)
  {
    var s := b[at..at + 10];
    assert s[..8] == b[at..at + 8];
    Read64(b, at);
    assert s[8] == b[at + 8] && s[9] == b[at + 9];
  }

  /** The frequencies that the decoder finds in a segment. */
  lemma DecodedFrequencies(b: seq<byte>, start: nat, f: nat, fs: seq<Frequency>)
    requires start + f <= |b| && f % 10 == 0 && fs == FrequenciesFrom(b[start..start + f])
    ensures |fs| * 10 == f
    ensures forall k :: 0 <= k < |fs| ==> FrequencyOnWire(fs[k], b, start + 10 * k)
  {
    hide FrequenciesFrom, FrequencyFrom, FrequencyOnWire;
    var s := b[start..start + f];
    if f == 0 {
      NoFrequencies(s);
    } else {
      FrequenciesRead(s, 0);
    }
    forall k | 0 <= k < |fs| ensures FrequencyOnWire(fs[k], b, start + 10 * k) {
      FrequenciesRead(s, k);
      Inner(b, start, f, 10 * k, 10 * k + 10);
      FrequencyReads(b, start + 10 * k);
    }
  }

  /** The frequencies start after the audio, counted in 16 bits. */
  ghost function FrequencyStart(a: nat): nat {
    (6 + a) % 65536
  }

  /** The header, audio and frequencies that the decoder finds in any input it accepts. */
  lemma DecodedSegments(b: seq<byte>)
    requires Acceptable(b)
    ensures var p := Fields(b);
            var a, f := p.audioSegmentLength, p.frequenciesSegmentLength;
            && Is16(p.packetLength, b, 0) && Is16(a, b, 2) && Is16(f, b, 4)
            && 6 + a <= |b| && p.audioBytes == b[6..6 + a]
            && |p.frequencies| * 10 == f
            && forall k :: 0 <= k < |p.frequencies| ==> FrequencyOnWire(p.frequencies[k], b, FrequencyStart(a) + 10 * k)
  {
    FieldsSegments(b);
    Read16(b, 0);
    Read16(b, 2);
    Read16(b, 4);
    hide *;
    var p := Fields(b);
    DecodedFrequencies(b, FrequencyStart(p.audioSegmentLength), p.frequenciesSegmentLength, p.frequencies);
  }

  lemma FieldsSegments(b: seq<byte>)
    requires Acceptable(b)
    ensures var p := Fields(b);
            var a, f := p.audioSegmentLength, p.frequenciesSegmentLength;
            var start := FrequencyStart(a);
            && |b| >= 6 && p.packetLength == Number16(b[0..2]) && a == Number16(b[2..4]) && f == Number16(b[4..6])
            && 6 + a <= |b| && p.audioBytes == b[6..6 + a]
            && start + f <= |b| && f % 10 == 0 && p.frequencies == FrequenciesFrom(b[start..start + f])
  {
    hide Number16, Number32, Number64, FrequenciesFrom, FixedFits, Back;
  }

  lemma NoFrequencies(b: seq<byte>)
    requires b == []
    ensures FrequenciesFrom(b) == []
  {
  }

  /** The fixed segment that the decoder finds: the last 57 bytes of the packet. Only in the odd case of
      length 44 it is torn apart by the 16-bit wrap-around. */
  lemma DecodedFixed(b: seq<byte>)
    requires Acceptable(b)
    ensures var p := Fields(b);
            && |p.relayGUID| == |p.originGUID| == 22
            && (p.packetLength >= 57 ==> FixedOnWire(p, b, p.packetLength - 57))
            && (p.packetLength == 44 ==>
                  && Is32(p.unitID, b, 65523) && Is64(p.packetID, b, 65527) && p.hops == b[65535]
                  && p.relayGUID == b[0..22] && p.originGUID == b[22..44])
  {
    FieldsFixed(b);
    hide Fields, Acceptable, Number32, Number64;
    var p := Fields(b);
    if p.packetLength >= 57 {
      var at := p.packetLength - 57;
      Read32(b, at);
      Read64(b, at + 4);
      PaddedFits(p.relayGUID);
      PaddedFits(p.originGUID);
    } else {
      Read32(b, 65523);
      Read64(b, 65527);
    }
  }

  lemma PaddedFits(guid: seq<byte>)
    requires |guid| == 22
    ensures Padded(guid) == guid
  {
  }

  lemma FieldsFixed(b: seq<byte>)
    requires Acceptable(b)
    ensures var p := Fields(b);
            var n := p.packetLength;
            && |p.relayGUID| == |p.originGUID| == 22
            && (57 <= n <= |b| || (n == 44 && |b| >= 65536))
            && (n >= 57 ==>
                  && p.unitID == Number32(b[n - 57..n - 57 + 4]) && p.packetID == Number64(b[n - 53..n - 53 + 8])
                  && p.hops == b[n - 45] && p.relayGUID == b[n - 44..n - 22] && p.originGUID == b[n - 22..n])
            && (n == 44 ==>
                  && p.unitID == Number32(b[65523..65523 + 4]) && p.packetID == Number64(b[65527..65527 + 8])
                  && p.hops == b[65535] && p.relayGUID == b[0..22] && p.originGUID == b[22..44])
  {
    hide Number16, Number32, Number64, FrequenciesFrom;
    FixedPointers(Fields(b).packetLength, |b|);
  }
}
