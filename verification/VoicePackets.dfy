/**
 The SRS voice packet codec. Encode writes segments into a zeroed buffer at offsets computed
 forwards; Decode finds the fixed segment by working backwards from the packet length. All offsets
 are 16-bit and wrap around. The fixed segment is given 58 bytes but fills 57, so one zero byte
 separates the frequencies from the unit ID.
 */
module VoicePackets {
  import opened Tracks

  type byte = x: int | 0 <= x < 256
  type u16 = x: int | 0 <= x < 0x1_0000
  type u32 = x: int | 0 <= x < 0x1_0000_0000
  type u64 = x: int | 0 <= x < 0x1_0000_0000_0000_0000

  /** A frequency is the 64-bit pattern of a floating-point number of hertz. */
  datatype Frequency = Frequency(bits: u64, modulation: byte, encryption: byte)

  datatype VoicePacket = VoicePacket(
    packetLength: u16,
    audioSegmentLength: u16,
    frequenciesSegmentLength: u16,
    audioBytes: seq<byte>,
    frequencies: seq<Frequency>,
    unitID: u32,
    packetID: u64,
    hops: byte,
    relayGUID: seq<byte>,
    originGUID: seq<byte>)

  const HEADER := 6
  const FIXED := 58
  const FREQUENCY := 10
  const GUID := 22
  const MAX_U16 := 0xFFFF

  function Wrap(x: int): u16 {
    x % 0x1_0000
  }

  function Min(x: int, y: int): int {
    if x < y then x else y
  }

  function NewVoicePacket(audio: seq<byte>, frequencies: seq<Frequency>, unitID: u32, packetID: u64,
      hops: byte, relay: seq<byte>, origin: seq<byte>): VoicePacket {
    var a := Min(|audio|, MAX_U16);
    var f := Min(|frequencies| * FREQUENCY, MAX_U16);
    VoicePacket(Wrap(HEADER + a + f + FIXED), a, f, audio, frequencies, unitID, packetID, hops, relay, origin)
  }

  // ---------------------------------------------------------------- little-endian numbers

  function Pow256(n: nat): (r: nat)
    ensures r > 0
  {
    if n == 0 then 1 else 256 * Pow256(n - 1)
  }

  function ToBytes(v: nat, n: nat): (r: seq<byte>)
    ensures |r| == n
  {
    if n == 0 then [] else [v % 256] + ToBytes(v / 256, n - 1)
  }

  function FromBytes(b: seq<byte>): nat {
    if b == [] then 0 else b[0] + 256 * FromBytes(b[1..])
  }

  lemma {:induction false} NumberRoundTrip(v: nat, n: nat)
    requires v < Pow256(n)
    ensures FromBytes(ToBytes(v, n)) == v
  {
    if n > 0 {
      NumberRoundTrip(v / 256, n - 1);
      assert ToBytes(v, n)[1..] == ToBytes(v / 256, n - 1);
    }
  }

  lemma {:induction false} FromBytesBound(b: seq<byte>)
    ensures FromBytes(b) < Pow256(|b|)
  {
    if b != [] {
      FromBytesBound(b[1..]);
    }
  }

  lemma Powers()
    ensures Pow256(2) == 0x1_0000
    ensures Pow256(4) == 0x1_0000_0000
    ensures Pow256(8) == 0x1_0000_0000_0000_0000
  {
    assert Pow256(1) == 256;
    assert Pow256(3) == 256 * Pow256(2);
    assert Pow256(5) == 256 * Pow256(4);
    assert Pow256(6) == 256 * Pow256(5);
    assert Pow256(7) == 256 * Pow256(6);
  }

  function Number16(b: seq<byte>): u16
    requires |b| == 2
  {
    FromBytesBound(b); Powers();
    FromBytes(b)
  }

  function Number32(b: seq<byte>): u32
    requires |b| == 4
  {
    FromBytesBound(b); Powers();
    FromBytes(b)
  }

  function Number64(b: seq<byte>): u64
    requires |b| == 8
  {
    FromBytesBound(b); Powers();
    FromBytes(b)
  }

  // ---------------------------------------------------------------- layout

  function Zeros(n: nat): (r: seq<byte>)
    ensures |r| == n
  {
    seq(n, i => 0)
  }

  /** A GUID as the packet holds it: cut or zero-padded to 22 bytes. */
  function Fit(guid: seq<byte>): (r: seq<byte>)
    ensures |r| == GUID
    ensures r == guid <==> |guid| == GUID
  {
    if |guid| >= GUID then guid[..GUID] else guid + Zeros(GUID - |guid|)
  }

  function FrequencyBytes(f: Frequency): (r: seq<byte>)
    ensures |r| == FREQUENCY
  {
    ToBytes(f.bits, 8) + [f.modulation, f.encryption]
  }

  function FrequenciesBytes(fs: seq<Frequency>): (r: seq<byte>)
    ensures |r| == |fs| * FREQUENCY
  {
    if fs == [] then [] else FrequenciesBytes(fs[..|fs| - 1]) + FrequencyBytes(fs[|fs| - 1])
  }

  function HeaderBytes(p: VoicePacket): (r: seq<byte>)
    ensures |r| == HEADER
  {
    ToBytes(p.packetLength, 2) + ToBytes(p.audioSegmentLength, 2) + ToBytes(p.frequenciesSegmentLength, 2)
  }

  function FixedBytes(p: VoicePacket): (r: seq<byte>)
    ensures |r| == FIXED - 1
  {
    ToBytes(p.unitID, 4) + ToBytes(p.packetID, 8) + [p.hops] + Fit(p.relayGUID) + Fit(p.originGUID)
  }

  function Layout(p: VoicePacket): (r: seq<byte>)
    ensures |r| == HEADER + |p.audioBytes| + |p.frequencies| * FREQUENCY + FIXED
  {
    HeaderBytes(p) + p.audioBytes + FrequenciesBytes(p.frequencies) + [0] + FixedBytes(p)
  }

  /** The length fields tell the true lengths. */
  predicate WellSized(p: VoicePacket) {
    && p.audioSegmentLength == |p.audioBytes|
    && p.frequenciesSegmentLength == |p.frequencies| * FREQUENCY
    && p.packetLength == HEADER + p.audioSegmentLength + p.frequenciesSegmentLength + FIXED
  }

  /** The length fields are as the constructor sets them. */
  predicate Constructed(p: VoicePacket) {
    && p.audioSegmentLength == Min(|p.audioBytes|, MAX_U16)
    && p.frequenciesSegmentLength == Min(|p.frequencies| * FREQUENCY, MAX_U16)
    && p.packetLength == Wrap(HEADER + p.audioSegmentLength + p.frequenciesSegmentLength + FIXED)
  }

  // ---------------------------------------------------------------- encoding

  /** The buffer starts with `prefix` and is still zero after it. */
  ghost predicate Written(s: seq<byte>, prefix: seq<byte>) {
    && |prefix| <= |s|
    && s[..|prefix|] == prefix
    && forall i :: |prefix| <= i < |s| ==> s[i] == 0
  }

  /** Copies bytes into the buffer. */
  method Put(b: array<byte>, at: nat, bytes: seq<byte>)
    requires at + |bytes| <= b.Length
    modifies b
    ensures b[..] == old(b[..])[..at] + bytes + old(b[..])[at + |bytes|..]
  {
    for i := 0 to |bytes|
      invariant forall k :: 0 <= k < b.Length ==> b[k] == if at <= k < at + i then bytes[k - at] else old(b[k])
    {
      b[at + i] := bytes[i];
    }
  }

  lemma PutExtends(s: seq<byte>, prefix: seq<byte>, bytes: seq<byte>, t: seq<byte>)
    requires Written(s, prefix) && |prefix| + |bytes| <= |s|
    requires t == s[..|prefix|] + bytes + s[|prefix| + |bytes|..]
    ensures Written(t, prefix + bytes)
  {
  }

  lemma ZeroExtends(s: seq<byte>, prefix: seq<byte>, n: nat)
    requires Written(s, prefix) && |prefix| + n <= |s|
    ensures Written(s, prefix + Zeros(n))
  {
  }

  lemma FullyWritten(s: seq<byte>, prefix: seq<byte>)
    requires Written(s, prefix) && |prefix| == |s|
    ensures s == prefix
  {
  }

  /** A slice expression `b[lo:hi]` that does not panic. */
  predicate InBounds(lo: int, hi: int, length: int) {
    0 <= lo <= hi <= length
  }

  method PutFrequencies(b: array<byte>, p: VoicePacket, ghost prefix: seq<byte>) returns (ok: bool)
    modifies b
    ensures ok <==> |p.frequencies| == 0 || HEADER + p.audioSegmentLength + |p.frequencies| * FREQUENCY <= b.Length
    ensures ok && |prefix| == HEADER + p.audioSegmentLength && Written(old(b[..]), prefix) ==>
              Written(b[..], prefix + FrequenciesBytes(p.frequencies))
  {
    ghost var good := |prefix| == HEADER + p.audioSegmentLength && Written(old(b[..]), prefix);
    assert prefix + FrequenciesBytes([]) == prefix;
    for i := 0 to |p.frequencies|
      invariant i == 0 || HEADER + p.audioSegmentLength + i * FREQUENCY <= b.Length
      invariant good ==> Written(b[..], prefix + FrequenciesBytes(p.frequencies[..i]))
    {
      var offset := HEADER + p.audioSegmentLength + i * FREQUENCY;
      if !(offset + FREQUENCY <= b.Length) {
        return false;
      }
      ghost var before := b[..];
      var f := p.frequencies[i];
      Put(b, offset, FrequencyBytes(f));
      if good {
        var done := prefix + FrequenciesBytes(p.frequencies[..i]);
        PutExtends(before, done, FrequencyBytes(f), b[..]);
        assert p.frequencies[..i + 1][..i] == p.frequencies[..i];
        assert done + FrequencyBytes(f) == prefix + FrequenciesBytes(p.frequencies[..i + 1]);
      }
    }
    assert p.frequencies[..|p.frequencies|] == p.frequencies;
    ok := true;
  }

  /** Writes the bytes of a GUID; a short one leaves zeros, a long one is cut. */
  method PutGuid(b: array<byte>, at: nat, guid: seq<byte>, ghost prefix: seq<byte>)
    requires at + GUID <= b.Length
    modifies b
    ensures at == |prefix| && Written(old(b[..]), prefix) ==> Written(b[..], prefix + Fit(guid))
  {
    var n := Min(GUID, |guid|);
    Put(b, at, guid[..n]);
    if at == |prefix| && Written(old(b[..]), prefix) {
      PutExtends(old(b[..]), prefix, guid[..n], b[..]);
      ZeroExtends(b[..], prefix + guid[..n], GUID - n);
      assert prefix + guid[..n] + Zeros(GUID - n) == prefix + Fit(guid);
    }
  }

  method PutHeader(b: array<byte>, p: VoicePacket)
    requires HEADER <= b.Length && Written(b[..], [])
    modifies b
    ensures Written(b[..], HeaderBytes(p))
  {
    hide Written;
    ghost var s0 := b[..];
    Put(b, 0, ToBytes(p.packetLength, 2));
    ghost var s1, p1 := b[..], ToBytes(p.packetLength, 2);
    PutExtends(s0, [], p1, s1);
    assert [] + p1 == p1;
    Put(b, 2, ToBytes(p.audioSegmentLength, 2));
    ghost var s2, p2 := b[..], p1 + ToBytes(p.audioSegmentLength, 2);
    PutExtends(s1, p1, ToBytes(p.audioSegmentLength, 2), s2);
    Put(b, 4, ToBytes(p.frequenciesSegmentLength, 2));
    PutExtends(s2, p2, ToBytes(p.frequenciesSegmentLength, 2), b[..]);
  }

  /** Unit ID, packet ID and hop count, one after the other. */
  method PutNumbers(b: array<byte>, at: nat, p: VoicePacket, ghost prefix: seq<byte>)
    requires at + 13 <= b.Length
    modifies b
    ensures at == |prefix| && Written(old(b[..]), prefix) ==>
              Written(b[..], prefix + ToBytes(p.unitID, 4) + ToBytes(p.packetID, 8) + [p.hops])
  {
    hide Written;
    ghost var s0, p0 := b[..], prefix;
    Put(b, at, ToBytes(p.unitID, 4));
    ghost var s1, p1 := b[..], p0 + ToBytes(p.unitID, 4);
    Put(b, at + 4, ToBytes(p.packetID, 8));
    ghost var s2, p2 := b[..], p1 + ToBytes(p.packetID, 8);
    Put(b, at + 12, [p.hops]);
    if at == |prefix| && Written(s0, prefix) {
      PutExtends(s0, p0, ToBytes(p.unitID, 4), s1);
      PutExtends(s1, p1, ToBytes(p.packetID, 8), s2);
      PutExtends(s2, p2, [p.hops], b[..]);
    }
  }

  lemma ForwardPointers(length: u16)
    ensures var unitIDPtr: int := Wrap(length - FIXED + 1);
            var packetIDPtr: int := Wrap(unitIDPtr + 4);
            var hopsPtr: int := Wrap(packetIDPtr + 8);
            var relayIDPtr: int := Wrap(hopsPtr + 1);
            var originIDPtr: int := Wrap(relayIDPtr + GUID);
            if FIXED - 1 <= length then
              && InBounds(unitIDPtr, packetIDPtr, length) && InBounds(packetIDPtr, hopsPtr, length) && hopsPtr < length
              && InBounds(relayIDPtr, originIDPtr, length) && InBounds(originIDPtr, length, length)
              && unitIDPtr == length - FIXED + 1 && relayIDPtr == unitIDPtr + 13
              && originIDPtr == relayIDPtr + GUID && originIDPtr + GUID == length
            else !InBounds(unitIDPtr, packetIDPtr, length)
  {
  }

  /** The fixed segment starts one byte late. */
  method PutFixed(b: array<byte>, p: VoicePacket, ghost prefix: seq<byte>) returns (ok: bool)
    requires b.Length == p.packetLength
    modifies b
    ensures ok <==> FIXED - 1 <= p.packetLength
    ensures ok && |prefix| == p.packetLength - FIXED + 1 && Written(old(b[..]), prefix) ==>
              b[..] == prefix + FixedBytes(p)
  {
    hide Wrap, InBounds, Written, ToBytes, Fit;
    ForwardPointers(p.packetLength);
    var unitIDPtr: int := Wrap(p.packetLength - FIXED + 1);
    var packetIDPtr: int := Wrap(unitIDPtr + 4);
    var hopsPtr: int := Wrap(packetIDPtr + 8);
    var relayIDPtr: int := Wrap(hopsPtr + 1);
    var originIDPtr: int := Wrap(relayIDPtr + GUID);
    if !InBounds(unitIDPtr, packetIDPtr, b.Length) || !InBounds(packetIDPtr, hopsPtr, b.Length) || hopsPtr >= b.Length {
      return false;
    }
    if !InBounds(relayIDPtr, originIDPtr, b.Length) || !InBounds(originIDPtr, p.packetLength, b.Length) {
      return false;
    }
    PutNumbers(b, unitIDPtr, p, prefix);
    ghost var numbers := prefix + ToBytes(p.unitID, 4) + ToBytes(p.packetID, 8) + [p.hops];
    PutGuid(b, relayIDPtr, p.relayGUID, numbers);
    PutGuid(b, originIDPtr, p.originGUID, numbers + Fit(p.relayGUID));
    if |prefix| == unitIDPtr && Written(old(b[..]), prefix) {
      assert numbers + Fit(p.relayGUID) + Fit(p.originGUID) == prefix + FixedBytes(p);
      FullyWritten(b[..], prefix + FixedBytes(p));
    }
    ok := true;
  }

  /** A well-sized packet is written out segment by segment with nothing overwritten. A constructed
      packet that is too large for its length field makes the encoder panic. */
  method Encode(p: VoicePacket) returns (panicked: bool, b: array<byte>)
    ensures WellSized(p) ==> !panicked && b[..] == Layout(p)
    ensures Constructed(p) && !WellSized(p) ==> panicked
  {
    b := new byte[p.packetLength](i => 0);
    if b.Length < HEADER {
      return true, b;
    }
    PutHeader(b, p);
    if !InBounds(HEADER, HEADER + |p.audioBytes|, b.Length) {
      return true, b;
    }
    ghost var before := b[..];
    Put(b, HEADER, p.audioBytes);
    ghost var upToAudio := HeaderBytes(p) + p.audioBytes;
    PutExtends(before, HeaderBytes(p), p.audioBytes, b[..]);
    var ok := PutFrequencies(b, p, upToAudio);
    if !ok {
      return true, b;
    }
    ghost var upToFrequencies := upToAudio + FrequenciesBytes(p.frequencies);
    if WellSized(p) {
      ZeroExtends(b[..], upToFrequencies, 1);
      assert Zeros(1) == [0];
    }
    ok := PutFixed(b, p, upToFrequencies + [0]);
    panicked := !ok;
  }

  // ---------------------------------------------------------------- decoding

  /** An offset counted back from the packet length, in 16 bits. */
  function Back(length: u16, n: nat): u16 {
    Wrap(length - n)
  }

  /** The slices of the fixed segment stay inside the packet. With 16-bit wrap-around a length of 44
      also passes, in a buffer of at least 65536 bytes. */
  predicate FixedFits(length: int, size: nat) {
    57 <= length <= size || (length == 44 && size >= 0x1_0000)
  }

  /** Exactly the inputs that decode. */
  predicate Acceptable(b: seq<byte>) {
    && |b| >= HEADER
    && var length, a, f := Number16(b[0..2]), Number16(b[2..4]), Number16(b[4..6]);
    && FixedFits(length, |b|)
    && HEADER + a <= |b|
    && Wrap(HEADER + a) + f <= |b|
    && f % FREQUENCY == 0
  }

  function FrequencyFrom(b: seq<byte>): Frequency
    requires |b| == FREQUENCY
  {
    Frequency(Number64(b[..8]), b[8], b[9])
  }

  function FrequenciesFrom(b: seq<byte>): seq<Frequency>
    requires |b| % FREQUENCY == 0
  {
    if |b| == 0 then []
    else
      var n := |b| - FREQUENCY;
      FrequenciesFrom(b[..n]) + [FrequencyFrom(b[n..])]
  }

  lemma FixedPointers(length: u16, size: nat)
    ensures FixedFits(length, size) <==>
            && InBounds(Back(length, 57), Back(length, 53), size)
            && InBounds(Back(length, 53), Back(length, 45), size)
            && Back(length, 45) < size
            && InBounds(Back(length, 44), Wrap(Back(length, 44) as int + GUID), size)
            && InBounds(Back(length, 22), Wrap(Back(length, 22) as int + GUID), size)
    ensures FixedFits(length, size) ==>
              && Back(length, 57) as int + 4 == Back(length, 53)
              && Back(length, 53) as int + 8 == Back(length, 45)
              && Back(length, 44) as int + GUID == Back(length, 22)
              && Back(length, 22) as int + GUID == length
  {
  }

  /** The packet that an acceptable input holds. */
  function Fields(b: seq<byte>): (p: VoicePacket)
    requires Acceptable(b)
    ensures |p.relayGUID| == |p.originGUID| == GUID
  {
    var length, a, f := Number16(b[0..2]), Number16(b[2..4]), Number16(b[4..6]);
    FixedPointers(length, |b|);
    var start := Wrap(HEADER + a) as int;
    VoicePacket(
      length, a, f,
      b[HEADER..HEADER + a],
      FrequenciesFrom(b[start..start + f]),
      Number32(b[Back(length, 57)..Back(length, 53)]),
      Number64(b[Back(length, 53)..Back(length, 45)]),
      b[Back(length, 45)],
      b[Back(length, 44)..Back(length, 22)],
      b[Back(length, 22)..length])
  }

  /** The frequency loop; a segment that is not a multiple of ten bytes makes it panic. */
  method DecodeFrequencies(b: seq<byte>) returns (r: Option<seq<Frequency>>)
    ensures r == if |b| % FREQUENCY == 0 then Some(FrequenciesFrom(b)) else None
  {
    hide FrequencyFrom;
    var fs: seq<Frequency> := [];
    var i := 0;
    ghost var k := 0;
    while i < |b|
      invariant i == 10 * k && i <= |b|
      invariant i % FREQUENCY == 0 && fs == FrequenciesFrom(b[..i])
    {
      Tens(k, |b| - i);
      if i + FREQUENCY > |b| {
        return None;
      }
      var next := b[i..i + FREQUENCY];
      assert b[..i + FREQUENCY][..i] == b[..i] && b[..i + FREQUENCY][i..] == next;
      Tens(k + 1, 0);
      fs := fs + [FrequencyFrom(next)];
      i, k := i + FREQUENCY, k + 1;
    }
    assert b[..i] == b;
    r := Some(fs);
  }

  lemma Tens(k: nat, r: nat)
    ensures r < 10 ==> (10 * k + r) % 10 == r
  {
  }

  /** Decoding fails, by a recovered panic in the source, exactly on the unacceptable inputs. */
  method Decode(b: seq<byte>) returns (r: Option<VoicePacket>)
    ensures r == if Acceptable(b) then Some(Fields(b)) else None
  {
    hide Wrap, Back, FromBytes, FrequenciesFrom;
    if |b| < HEADER {
      return None;
    }
    var packetLength := Number16(b[0..2]);
    var originIDPtr := Back(packetLength, 22);
    var relayIDPtr := Back(packetLength, 44);
    var hopsPtr := Back(packetLength, 45);
    var packetIDPtr := Back(packetLength, 53);
    var unitIDPtr := Back(packetLength, 57);
    var a, f := Number16(b[2..4]), Number16(b[4..6]);
    FixedPointers(packetLength, |b|);
    if !InBounds(unitIDPtr, packetIDPtr, |b|) || !InBounds(packetIDPtr, hopsPtr, |b|) || hopsPtr >= |b| {
      return None;
    }
    if !InBounds(relayIDPtr, Wrap(relayIDPtr as int + GUID), |b|)
       || !InBounds(originIDPtr, Wrap(originIDPtr as int + GUID), |b|) {
      return None;
    }
    if !InBounds(HEADER, HEADER + a, |b|) {
      return None;
    }
    var start: int := Wrap(HEADER + a);
    if !InBounds(start, start + f, |b|) {
      return None;
    }
    var frequencies := DecodeFrequencies(b[start..start + f]);
    if frequencies.None? {
      return None;
    }
    r := Some(VoicePacket(
      packetLength, a, f, b[HEADER..HEADER + a], frequencies.value,
      Number32(b[unitIDPtr..packetIDPtr]), Number64(b[packetIDPtr..hopsPtr]), b[hopsPtr],
      b[relayIDPtr..originIDPtr], b[originIDPtr..packetLength]));
  }

  // ---------------------------------------------------------------- round trip

  lemma NumbersRoundTrip(x: u16, y: u32, z: u64)
    ensures Number16(ToBytes(x, 2)) == x
    ensures Number32(ToBytes(y, 4)) == y
    ensures Number64(ToBytes(z, 8)) == z
  {
    Powers();
    NumberRoundTrip(x, 2);
    NumberRoundTrip(y, 4);
    NumberRoundTrip(z, 8);
  }

  lemma FrequencyRoundTrip(f: Frequency)
    ensures FrequencyFrom(FrequencyBytes(f)) == f
  {
    assert FrequencyBytes(f)[..8] == ToBytes(f.bits, 8);
    NumbersRoundTrip(0, 0, f.bits);
  }

  lemma FrequenciesFromAppend(b: seq<byte>, last: seq<byte>)
    requires |b| % FREQUENCY == 0 && |b + last| % FREQUENCY == 0 && |last| == FREQUENCY
    ensures FrequenciesFrom(b + last) == FrequenciesFrom(b) + [FrequencyFrom(last)]
  {
    hide FrequencyFrom;
    assert (b + last)[..|b|] == b && (b + last)[|b|..] == last;
  }

  lemma LastFrequency(fs: seq<Frequency>, f: Frequency)
    requires |FrequenciesBytes(fs)| % FREQUENCY == 0 && |FrequenciesBytes(fs) + FrequencyBytes(f)| % FREQUENCY == 0
    ensures FrequenciesFrom(FrequenciesBytes(fs) + FrequencyBytes(f)) == FrequenciesFrom(FrequenciesBytes(fs)) + [f]
  {
    hide FrequenciesBytes, FrequenciesFrom, FrequencyFrom, FrequencyBytes;
    FrequencyRoundTrip(f);
    FrequenciesFromAppend(FrequenciesBytes(fs), FrequencyBytes(f));
  }

  lemma {:induction false} FrequenciesRoundTrip(fs: seq<Frequency>)
    ensures |FrequenciesBytes(fs)| % FREQUENCY == 0
    ensures FrequenciesFrom(FrequenciesBytes(fs)) == fs
  {
    hide FrequencyFrom, FrequencyBytes;
    Tens(|fs|, 0);
    if fs != [] {
      var n := |fs| - 1;
      FrequenciesRoundTrip(fs[..n]);
      LastFrequency(fs[..n], fs[n]);
      assert fs[..n] + [fs[n]] == fs;
    }
  }

  lemma Middle(x: seq<byte>, y: seq<byte>, z: seq<byte>, i: nat, j: nat)
    requires i <= j <= |y|
    ensures (x + y + z)[|x| + i..|x| + j] == y[i..j]
    ensures i < |y| ==> (x + y + z)[|x| + i] == y[i]
  {
  }

  lemma Regroup(h: seq<byte>, a: seq<byte>, f: seq<byte>, z: seq<byte>, x: seq<byte>, t: seq<byte>)
    ensures (h + a + f + z + x) + t == h + (a + f + z + x + t)
    ensures (h + a + f + z + x) + t == h + a + (f + z + x + t)
    ensures (h + a + f + z + x) + t == (h + a) + f + (z + x + t)
  {
  }

  lemma FixedSlices(p: VoicePacket)
    ensures var b := FixedBytes(p);
            && b[0..4] == ToBytes(p.unitID, 4) && b[4..12] == ToBytes(p.packetID, 8) && b[12] == p.hops
            && b[13..35] == Fit(p.relayGUID) && b[35..57] == Fit(p.originGUID)
  {
    hide ToBytes, Fit;
  }

  lemma HeaderSlices(p: VoicePacket)
    ensures var b := HeaderBytes(p);
            && b[0..2] == ToBytes(p.packetLength, 2) && b[2..4] == ToBytes(p.audioSegmentLength, 2)
            && b[4..6] == ToBytes(p.frequenciesSegmentLength, 2)
  {
    hide ToBytes;
  }

  /** The header of a laid-out packet reads back. */
  lemma HeaderReadsBack(p: VoicePacket, rest: seq<byte>)
    ensures var b := HeaderBytes(p) + rest;
            && Number16(b[0..2]) == p.packetLength
            && Number16(b[2..4]) == p.audioSegmentLength
            && Number16(b[4..6]) == p.frequenciesSegmentLength
  {
    var b := HeaderBytes(p) + rest;
    assert b[0..2] == HeaderBytes(p)[0..2] && b[2..4] == HeaderBytes(p)[2..4] && b[4..6] == HeaderBytes(p)[4..6];
    HeaderSlices(p);
    NumbersRoundTrip(p.packetLength, 0, 0);
    NumbersRoundTrip(p.audioSegmentLength, 0, 0);
    NumbersRoundTrip(p.frequenciesSegmentLength, 0, 0);
  }

  /** What a packet becomes on the wire and back: the GUIDs are fitted, nothing else changes. */
  function Fitted(p: VoicePacket): VoicePacket {
    p.(relayGUID := Fit(p.relayGUID), originGUID := Fit(p.originGUID))
  }

  /** Header, audio and frequencies of a laid-out packet. */
  lemma SegmentsReadBack(p: VoicePacket, trailing: seq<byte>)
    ensures var b, a, f := Layout(p) + trailing, |p.audioBytes|, |p.frequencies| * FREQUENCY;
            && Number16(b[0..2]) == p.packetLength
            && Number16(b[2..4]) == p.audioSegmentLength
            && Number16(b[4..6]) == p.frequenciesSegmentLength
            && b[HEADER..HEADER + a] == p.audioBytes
            && b[HEADER + a..HEADER + a + f] == FrequenciesBytes(p.frequencies)
  {
    hide FrequenciesBytes, Number16, HeaderBytes, FixedBytes;
    var header, audio, freqs, fixed := HeaderBytes(p), p.audioBytes, FrequenciesBytes(p.frequencies), FixedBytes(p);
    Regroup(header, audio, freqs, [0], fixed, trailing);
    HeaderReadsBack(p, audio + freqs + [0] + fixed + trailing);
    Middle(header, audio, freqs + [0] + fixed + trailing, 0, |audio|);
    Middle(header + audio, freqs, [0] + fixed + trailing, 0, |freqs|);
  }

  lemma FixedIsLast(p: VoicePacket, trailing: seq<byte>)
    requires WellSized(p)
    ensures var b, length := Layout(p) + trailing, p.packetLength;
            && FixedFits(length, |b|)
            && Back(length, 57) + 4 == Back(length, 53) && Back(length, 53) + 8 == Back(length, 45)
            && Back(length, 44) + GUID == Back(length, 22) && Back(length, 22) + GUID == length <= |b|
            && Number32(b[Back(length, 57)..Back(length, 53)]) == p.unitID
            && Number64(b[Back(length, 53)..Back(length, 45)]) == p.packetID
            && b[Back(length, 45)] == p.hops
            && b[Back(length, 44)..Back(length, 22)] == Fit(p.relayGUID)
            && b[Back(length, 22)..length] == Fit(p.originGUID)
  {
    hide FixedBytes, HeaderBytes, FrequenciesBytes, Back, FixedFits, Fit, Number32, Number64;
    var before := HeaderBytes(p) + p.audioBytes + FrequenciesBytes(p.frequencies) + [0];
    assert Layout(p) + trailing == before + FixedBytes(p) + trailing;
    FixedReadsBack(p, before, trailing, Layout(p) + trailing);
  }

  /** Decoding undoes encoding, whatever bytes follow the packet. */
  lemma LayoutReadsBack(p: VoicePacket, trailing: seq<byte>)
    requires WellSized(p)
    ensures Acceptable(Layout(p) + trailing)
    ensures Fields(Layout(p) + trailing) == Fitted(p)
  {
    hide Layout, FrequenciesFrom, FrequenciesBytes, Fit, Number16, Number32, Number64, Back, FixedFits;
    SegmentsReadBack(p, trailing);
    FrequenciesRoundTrip(p.frequencies);
    FixedIsLast(p, trailing);
    assert Wrap(HEADER + p.audioSegmentLength) == HEADER + p.audioSegmentLength;
  }

  lemma FixedReadsBack(p: VoicePacket, before: seq<byte>, trailing: seq<byte>, b: seq<byte>)
    requires b == before + FixedBytes(p) + trailing && p.packetLength == |before| + 57
    ensures var length := p.packetLength;
            && FixedFits(length, |b|)
            && Back(length, 57) + 4 == Back(length, 53) && Back(length, 53) + 8 == Back(length, 45)
            && Back(length, 44) + GUID == Back(length, 22) && Back(length, 22) + GUID == length <= |b|
            && Number32(b[Back(length, 57)..Back(length, 53)]) == p.unitID
            && Number64(b[Back(length, 53)..Back(length, 45)]) == p.packetID
            && b[Back(length, 45)] == p.hops
            && b[Back(length, 44)..Back(length, 22)] == Fit(p.relayGUID)
            && b[Back(length, 22)..length] == Fit(p.originGUID)
  {
    hide ToBytes, Fit, FromBytes, Number32, Number64, FixedBytes;
    var fixed := FixedBytes(p);
    Middle(before, fixed, trailing, 0, 4);
    Middle(before, fixed, trailing, 4, 12);
    Middle(before, fixed, trailing, 12, 13);
    Middle(before, fixed, trailing, 13, 35);
    Middle(before, fixed, trailing, 35, 57);
    FixedSlices(p);
    NumbersRoundTrip(0, p.unitID, p.packetID);
  }

  /** A packet from the constructor can be encoded exactly if 64 + audio + 10 * frequencies fits in 16
      bits. It then decodes to itself, up to the fitting of GUIDs that are not 22 bytes long. */
  lemma ConstructedRoundTrip(audio: seq<byte>, frequencies: seq<Frequency>, unitID: u32, packetID: u64,
      hops: byte, relay: seq<byte>, origin: seq<byte>, trailing: seq<byte>)
    ensures var p := NewVoicePacket(audio, frequencies, unitID, packetID, hops, relay, origin);
            && p.audioBytes == audio && p.frequencies == frequencies && p.unitID == unitID && p.packetID == packetID
            && p.hops == hops && p.relayGUID == relay && p.originGUID == origin
            && Constructed(p)
            && (WellSized(p) <==> 64 + |audio| + 10 * |frequencies| <= MAX_U16)
            && (WellSized(p) ==> Acceptable(Layout(p) + trailing) && Fields(Layout(p) + trailing) == Fitted(p))
            && (Fitted(p) == p <==> |relay| == |origin| == GUID)
  {
    hide Layout, Acceptable, Fields;
    var p := NewVoicePacket(audio, frequencies, unitID, packetID, hops, relay, origin);
    if WellSized(p) {
      LayoutReadsBack(p, trailing);
    }
  }
}
