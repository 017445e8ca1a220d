/** AudioOutPacket and AudioOutTransferBatch: the byte buffers filled from ring and policy. */
module AudioOutTransfer {
  import opened Resampling
  import opened Samples24
  import opened Runs
  import opened OutputPackets
  import AudioOutputRing
  import AudioPacketPolicy

  const PACKET_BYTES: nat := 156
  const BATCH_BYTES: nat := 4992

  ghost function SourceOf(ring: AudioOutputRing.Ring, policy: AudioPacketPolicy.Policy): Source
    requires ring.released <= |ring.accepted|
    reads ring, policy
  {
    Source(policy.Abs(), ring.Queue(), ring.readFraction)
  }

  /** The drawer of the policy's own rates. */
  ghost predicate DrawerOf(next: Drawer, policy: AudioPacketPolicy.Policy)
    reads policy`measuredClockMilliHz
  {
    policy.service > 0 && Draws(next, policy.sampleRateHz, policy.service, policy.measuredClockMilliHz)
  }

  ghost predicate AllFourChannels(frames: seq<Frame>) {
    forall i | 0 <= i < |frames| :: FourChannels(frames[i])
  }

  /** Resampling four-channel frames gives four-channel frames. */
  lemma ReadKeepsChannels(q: seq<Frame>, fraction: real, n: nat, step: real)
    requires AllFourChannels(q) && fraction >= 0.0 && step >= 0.0
    ensures AllFourChannels(Taken(LerpAt, false, q, fraction, step, n))
  {
    var out := Taken(LerpAt, false, q, fraction, step, n);
    forall i | 0 <= i < |out| ensures FourChannels(out[i]) {
      TakenAt(LerpAt, false, q, fraction, step, n, i);
    }
  }

  lemma {:induction false} PhaseIsShort(fraction: real, step: real, n: nat)
    requires 0.0 <= fraction < 1.0 && 0.0 <= step <= 1.5
    ensures PhaseAt(fraction, step, n) < 1.0 + 1.5 * n as real
  {
    if n > 0 { PhaseIsShort(fraction, step, n - 1); }
  }

  /** s with x written over it from `offset` on. */
  function Put(s: seq<Byte>, offset: nat, x: seq<Byte>): seq<Byte>
    requires offset + |x| <= |s|
  {
    s[..offset] + x + s[offset + |x|..]
  }

  lemma PutTwice(s: seq<Byte>, offset: nat, x: seq<Byte>, y: seq<Byte>)
    requires offset + |x| + |y| <= |s|
    ensures Put(Put(s, offset, x), offset + |x|, y) == Put(s, offset, x + y)
  {
  }

  lemma ZerosSplit(n: nat, m: nat)
    ensures Zeros(n + m) == Zeros(n) + Zeros(m)
  {
  }

  /** Writing the next frame over the silence after the frames already packed. */
  lemma PutNext(frames: seq<Frame>, i: nat)
    requires i < |frames| <= MAX_FRAMES
    ensures Put(EncodeFrames(frames[..i]) + Zeros(PACKET_BYTES - FRAME_BYTES * i), FRAME_BYTES * i, EncodeFrame(frames[i]))
            == EncodeFrames(frames[..i + 1]) + Zeros(PACKET_BYTES - FRAME_BYTES * (i + 1))
  {
    assert frames[..i + 1] == frames[..i] + [frames[i]];
    ConcatAppend(EncodeFrame, frames[..i], frames[i]);
    PutOverZeros(EncodeFrames(frames[..i]), EncodeFrame(frames[i]), PACKET_BYTES - FRAME_BYTES * (i + 1));
  }

  lemma PutOverZeros(s: seq<Byte>, x: seq<Byte>, rest: nat)
    ensures Put(s + Zeros(|x| + rest), |s|, x) == s + x + Zeros(rest)
  {
  }

  class OutPacket {
    const bytes: array<Byte>
    var byteCount: nat
    var missingFrames: nat

    constructor ()
      ensures fresh(bytes) && bytes.Length == PACKET_BYTES && byteCount == 0
    {
      bytes := new Byte[PACKET_BYTES](_ => 0);
      byteCount, missingFrames := 0, 0;
    }

    method Clear()
      requires bytes.Length == PACKET_BYTES
      modifies this, bytes
      ensures bytes[..] == Zeros(PACKET_BYTES) && byteCount == 0 && missingFrames == 0
    {
      for i := 0 to PACKET_BYTES
        invariant forall j | 0 <= j < i :: bytes[j] == 0
      {
        bytes[i] := 0;
      }
      byteCount, missingFrames := 0, 0;
    }

    method PutSample(offset: nat, sample: real)
      requires offset + 3 <= bytes.Length
      modifies bytes
      ensures bytes[..] == Put(old(bytes[..]), offset, Pack24(Quantize(sample)))
    {
      var packed := Pack24(Quantize(sample));
      bytes[offset] := packed[0];
      bytes[offset + 1] := packed[1];
      bytes[offset + 2] := packed[2];
    }

    method PutFrame(offset: nat, f: Frame)
      requires offset + FRAME_BYTES <= bytes.Length && FourChannels(f)
      modifies bytes
      ensures bytes[..] == Put(old(bytes[..]), offset, EncodeFrame(f))
    {
      ghost var before := bytes[..];
      PutSample(offset, f[0]);
      PutSample(offset + 3, f[1]);
      PutTwice(before, offset, EncodeSample(f, 0), EncodeSample(f, 1));
      PutSample(offset + 6, f[2]);
      PutTwice(before, offset, EncodeSample(f, 0) + EncodeSample(f, 1), EncodeSample(f, 2));
      PutSample(offset + 9, f[3]);
      PutTwice(before, offset, EncodeSample(f, 0) + EncodeSample(f, 1) + EncodeSample(f, 2), EncodeSample(f, 3));
    }

    /** Packs the frames read; the rest of the buffer stays silent. */
    method PutFrames(frames: seq<Frame>)
      requires bytes.Length == PACKET_BYTES && |frames| <= MAX_FRAMES && AllFourChannels(frames)
      requires bytes[..] == Zeros(PACKET_BYTES)
      modifies bytes
      ensures bytes[..] == EncodeFrames(frames) + Zeros(PACKET_BYTES - FRAME_BYTES * |frames|)
    {
      for i := 0 to |frames|
        invariant bytes[..] == EncodeFrames(frames[..i]) + Zeros(PACKET_BYTES - FRAME_BYTES * i)
      {
        PutFrame(FRAME_BYTES * i, frames[i]);
        PutNext(frames, i);
      }
      assert frames[..|frames|] == frames;
    }

    method ReadFrames(ring: AudioOutputRing.Ring, frames: nat, step: real) returns (samples: seq<Frame>)
      requires ring.Valid() && ring.channels == CHANNELS && frames <= MAX_FRAMES
      modifies ring`readFrame, ring`released, ring`readFraction
      ensures ring.Valid() && AllFourChannels(samples)
      ensures Pull(samples, ring.Queue(), ring.readFraction)
              == ReadResampled(old(ring.Queue()), old(ring.readFraction), frames, EffectiveStep(step))
    {
      ReadKeepsChannels(ring.Queue(), ring.readFraction, frames, EffectiveStep(step));
      samples := ring.ReadResampled(frames, step);
    }

    method SkipRest(ring: AudioOutputRing.Ring, samples: seq<Frame>, frames: nat, step: real, ghost r: Pull<Frame>)
      requires ring.Valid() && frames <= MAX_FRAMES && r == Pull(samples, ring.Queue(), ring.readFraction)
      modifies ring`readFrame, ring`released, ring`readFraction
      ensures ring.Valid()
      ensures Pull(samples, ring.Queue(), ring.readFraction) == SkipMissing(r, frames, EffectiveStep(step))
    {
      if |samples| < frames {
        PhaseIsShort(ring.readFraction, EffectiveStep(step), frames - |samples|);
        ring.AdvanceResampled(frames - |samples|, step);
      }
    }

    /** Reads the frames of one packet and skips the source frames of those that are missing. */
    method DrawFrames(ring: AudioOutputRing.Ring, frames: nat, step: real) returns (samples: seq<Frame>)
      requires ring.Valid() && ring.channels == CHANNELS && frames <= MAX_FRAMES
      modifies ring`readFrame, ring`released, ring`readFraction
      ensures ring.Valid() && AllFourChannels(samples)
      ensures Pull(samples, ring.Queue(), ring.readFraction)
              == Draw(old(ring.Queue()), old(ring.readFraction), frames, EffectiveStep(step))
    {
      samples := ReadFrames(ring, frames, step);
      SkipRest(ring, samples, frames, step, Pull(samples, ring.Queue(), ring.readFraction));
    }

    /** Packs what was read and accounts for what was missing. */
    method Pack(samples: seq<Frame>, frames: nat)
      requires |samples| <= frames <= MAX_FRAMES && AllFourChannels(samples)
      requires bytes.Length == PACKET_BYTES && bytes[..] == Zeros(PACKET_BYTES)
      modifies this, bytes
      ensures byteCount == FRAME_BYTES * frames && missingFrames == frames - |samples|
      ensures bytes[..byteCount] == EncodeFrames(samples) + Zeros(FRAME_BYTES * (frames - |samples|))
    {
      missingFrames := frames - |samples|;
      PutFrames(samples);
      byteCount := frames * FRAME_BYTES;
      ZerosSplit(FRAME_BYTES * missingFrames, PACKET_BYTES - byteCount);
    }

    method Fill(ring: AudioOutputRing.Ring, frames: nat, step: real)
      requires ring.Valid() && ring.channels == CHANNELS && frames <= MAX_FRAMES
      requires bytes.Length == PACKET_BYTES && bytes[..] == Zeros(PACKET_BYTES)
      modifies this, bytes, ring`readFrame, ring`released, ring`readFraction
      ensures ring.Valid()
      ensures var end := Draw(old(ring.Queue()), old(ring.readFraction), frames, EffectiveStep(step));
              && ring.Queue() == end.rest && ring.readFraction == end.fraction
              && byteCount == FRAME_BYTES * frames && missingFrames == frames - |end.frames|
              && bytes[..byteCount] == EncodeFrames(end.frames) + Zeros(FRAME_BYTES * (frames - |end.frames|))
    {
      var samples := DrawFrames(ring, frames, step);
      Pack(samples, frames);
    }

    /** The part of `build` after the packet size is known. */
    method Send(ring: AudioOutputRing.Ring, policy: AudioPacketPolicy.Policy, frames: nat)
      requires ring.Valid() && policy.Valid() && ring.channels == CHANNELS && frames <= MAX_FRAMES
      requires bytes.Length == PACKET_BYTES && bytes[..] == Zeros(PACKET_BYTES)
      modifies this, bytes, ring`readFrame, ring`released, ring`readFraction
      ensures ring.Valid() && byteCount == FRAME_BYTES * frames
      ensures (Source(policy.Abs(), ring.Queue(), ring.readFraction), Packet(frames, missingFrames, bytes[..byteCount]))
              == PacketFrom(policy.Abs(), old(ring.Queue()), old(ring.readFraction), frames,
                            policy.sampleRateHz, policy.measuredClockMilliHz)
    {
      var queued := ring.AvailableFrames();
      var step := policy.SourceFramesPerOutputFrame(queued);
      Fill(ring, frames, step);
    }

    /** AudioOutPacket::build. */
    method Build(ring: AudioOutputRing.Ring, policy: AudioPacketPolicy.Policy) returns (frames: nat)
      requires ring.Valid() && policy.Valid() && bytes.Length == PACKET_BYTES
      modifies this, bytes, policy, ring`readFrame, ring`released, ring`readFraction
      ensures ring.Valid() && policy.Valid() && policy.measuredClockMilliHz == old(policy.measuredClockMilliHz)
      ensures byteCount <= PACKET_BYTES
      ensures ring.channels != CHANNELS ==> frames == 0 && byteCount == 0 && SourceOf(ring, policy) == old(SourceOf(ring, policy))
      ensures ring.channels == CHANNELS ==>
                (SourceOf(ring, policy), Packet(frames, missingFrames, bytes[..byteCount]))
                == PacketOf(old(SourceOf(ring, policy)), policy.sampleRateHz, policy.service, policy.measuredClockMilliHz)
    {
      Clear();
      if ring.channels != CHANNELS { return 0; }
      frames := policy.NextPacketFrames();
      if frames > MAX_FRAMES { return 0; }
      Send(ring, policy, frames);
    }
  }

  lemma AppendPacket(packets: seq<Packet>, p: Packet)
    ensures Bytes(packets + [p]) == Bytes(packets) + p.bytes
    ensures Sizes(packets + [p]) == Sizes(packets) + [|p.bytes|]
    ensures Missing(packets + [p]) == Missing(packets) + p.missing
  {
    assert (packets + [p])[..|packets|] == packets;
  }

  class TransferBatch {
    const bytes: array<Byte>
    const packetByteCounts: array<nat>
    var byteCount: nat
    var missingFrames: nat

    predicate Sized() {
      bytes.Length == BATCH_BYTES && packetByteCounts.Length == SERVICE_INTERVALS
    }

    predicate SilentFrom(n: nat)
      reads bytes
    {
      forall k | n <= k < bytes.Length :: bytes[k] == 0
    }

    /** The buffer holds these packets back to back, and zeros after them. */
    ghost predicate Holds(packets: seq<Packet>)
      requires Sized()
      reads this, bytes, packetByteCounts
    {
      && |packets| <= SERVICE_INTERVALS && byteCount <= PACKET_BYTES * |packets|
      && bytes[..byteCount] == Bytes(packets) && SilentFrom(byteCount)
      && packetByteCounts[..|packets|] == Sizes(packets)
      && missingFrames == Missing(packets)
    }

    constructor ()
      ensures Sized() && fresh(bytes) && fresh(packetByteCounts) && byteCount == 0
    {
      bytes := new Byte[BATCH_BYTES](_ => 0);
      packetByteCounts := new nat[SERVICE_INTERVALS](_ => 0);
      byteCount, missingFrames := 0, 0;
    }

    method Blank()
      modifies bytes
      ensures SilentFrom(0)
    {
      for i := 0 to bytes.Length
        invariant forall j | 0 <= j < i :: bytes[j] == 0
      {
        bytes[i] := 0;
      }
    }

    method Forget()
      requires Sized()
      modifies this`byteCount, packetByteCounts
      ensures byteCount == 0 && forall i | 0 <= i < SERVICE_INTERVALS :: packetByteCounts[i] == 0
    {
      byteCount := 0;
      for i := 0 to SERVICE_INTERVALS
        invariant byteCount == 0 && forall j | 0 <= j < i :: packetByteCounts[j] == 0
      {
        packetByteCounts[i] := 0;
      }
    }

    method Append(packet: OutPacket, i: nat, ghost packets: seq<Packet>, ghost frames: nat)
      requires Sized() && Holds(packets) && i == |packets| < SERVICE_INTERVALS
      requires packet.bytes.Length == PACKET_BYTES && packet.byteCount <= PACKET_BYTES && packet.bytes != bytes
      modifies this, bytes, packetByteCounts
      ensures Holds(packets + [Packet(frames, packet.missingFrames, packet.bytes[..packet.byteCount])])
    {
      AppendPacket(packets, Packet(frames, packet.missingFrames, packet.bytes[..packet.byteCount]));
      Copy(packet.bytes, packet.byteCount);
      missingFrames := missingFrames + packet.missingFrames;
      packetByteCounts[i] := packet.byteCount;
      byteCount := byteCount + packet.byteCount;
    }

    /** Appends the first `count` bytes of `from` behind the bytes already held. */
    method Copy(from: array<Byte>, count: nat)
      requires from != bytes && count <= from.Length && byteCount + count <= bytes.Length && SilentFrom(byteCount)
      modifies bytes
      ensures bytes[..byteCount + count] == old(bytes[..byteCount]) + from[..count] && SilentFrom(byteCount + count)
    {
      for k := 0 to count
        invariant bytes[..byteCount + k] == old(bytes[..byteCount]) + from[..k] && SilentFrom(byteCount + k)
      {
        bytes[byteCount + k] := from[k];
      }
    }

    /** Builds the next packet and appends it unless it came back empty. */
    method AddPacket(packet: OutPacket, ring: AudioOutputRing.Ring, policy: AudioPacketPolicy.Policy, i: nat,
                     ghost packets: seq<Packet>, ghost next: Drawer)
      returns (more: bool, ghost p: Packet)
      requires ring.Valid() && policy.Valid() && DrawerOf(next, policy)
      requires Sized() && Holds(packets) && i == |packets| < SERVICE_INTERVALS
      requires packet.bytes.Length == PACKET_BYTES && packet.bytes != bytes
      modifies this, bytes, packetByteCounts
      modifies packet, packet.bytes, policy, ring`readFrame, ring`released, ring`readFraction
      ensures ring.Valid() && policy.Valid() && policy.measuredClockMilliHz == old(policy.measuredClockMilliHz)
      ensures ring.channels != CHANNELS ==> !more && SourceOf(ring, policy) == old(SourceOf(ring, policy))
      ensures ring.channels == CHANNELS ==>
                more == (p.frames != 0) && (SourceOf(ring, policy), p) == next(old(SourceOf(ring, policy)))
      ensures more ==> Holds(packets + [p])
    {
      var frames := packet.Build(ring, policy);
      p := Packet(frames, packet.missingFrames, packet.bytes[..packet.byteCount]);
      more := frames != 0;
      if more { Append(packet, i, packets, frames); }
    }

    /** Where the batch stands after i packets: all added so far, or failed for good, or never started. */
    ghost predicate Progress(now: Source, channels: nat, next: Drawer, s: Source, i: nat, total: nat, ok: bool, packets: seq<Packet>)
      requires Sized()
      reads this, bytes, packetByteCounts
    {
      && (channels != CHANNELS ==> now == s && (ok ==> i == 0))
      && (channels == CHANNELS ==>
            if ok then BatchOf(next, s, i) == (now, Batch(packets)) else BatchOf(next, s, total) == (now, Failed))
      && (ok ==> i == |packets| && Holds(packets))
    }

    /** One turn of the batch loop: packet i is added, or the whole batch has failed. */
    method Turn(packet: OutPacket, ring: AudioOutputRing.Ring, policy: AudioPacketPolicy.Policy, i: nat,
                ghost total: nat, ghost packets: seq<Packet>, ghost next: Drawer, ghost s: Source)
      returns (more: bool, ghost packets': seq<Packet>)
      requires ring.Valid() && policy.Valid() && DrawerOf(next, policy) && Sized() && i < total <= SERVICE_INTERVALS
      requires Progress(SourceOf(ring, policy), ring.channels, next, s, i, total, true, packets)
      requires packet.bytes.Length == PACKET_BYTES && packet.bytes != bytes
      modifies this, bytes, packetByteCounts
      modifies packet, packet.bytes, policy, ring`readFrame, ring`released, ring`readFraction
      ensures ring.Valid() && policy.Valid() && policy.measuredClockMilliHz == old(policy.measuredClockMilliHz)
      ensures Progress(SourceOf(ring, policy), ring.channels, next, s, i + 1, total, more, packets')
    {
      ghost var p;
      more, p := AddPacket(packet, ring, policy, i, packets, next);
      packets' := packets + [p];
      if !more && ring.channels == CHANNELS { FailureIsFinal(next, s, i + 1, total); }
    }

    /** The batch loop. */
    method Collect(packet: OutPacket, ring: AudioOutputRing.Ring, policy: AudioPacketPolicy.Policy, total: nat, ghost next: Drawer)
      returns (ok: bool, ghost packets: seq<Packet>)
      requires ring.Valid() && policy.Valid() && DrawerOf(next, policy)
      requires Sized() && Holds([]) && 0 < total <= SERVICE_INTERVALS
      requires packet.bytes.Length == PACKET_BYTES && packet.bytes != bytes
      modifies this, bytes, packetByteCounts
      modifies packet, packet.bytes, policy, ring`readFrame, ring`released, ring`readFraction
      ensures ring.Valid() && policy.Valid() && policy.measuredClockMilliHz == old(policy.measuredClockMilliHz)
      ensures Progress(SourceOf(ring, policy), ring.channels, next, old(SourceOf(ring, policy)), total, total, ok, packets)
    {
      ghost var s := SourceOf(ring, policy);
      var i := 0;
      ok, packets := true, [];
      while i < total && ok
        invariant i <= total && policy.measuredClockMilliHz == old(policy.measuredClockMilliHz)
        invariant ring.Valid() && policy.Valid()
        invariant Progress(SourceOf(ring, policy), ring.channels, next, s, i, total, ok, packets)
        decreases ok, total - i
      {
        ok, packets := Turn(packet, ring, policy, i, total, packets, next, s);
        i := i + 1;
      }
    }

    /** `build` with the number of packets as a parameter. */
    method Gather(packet: OutPacket, ring: AudioOutputRing.Ring, policy: AudioPacketPolicy.Policy, total: nat, ghost next: Drawer)
      returns (ok: bool)
      requires ring.Valid() && policy.Valid() && DrawerOf(next, policy) && Sized() && 0 < total <= SERVICE_INTERVALS
      requires packet.bytes.Length == PACKET_BYTES && packet.bytes != bytes
      modifies this, bytes, packetByteCounts
      modifies packet, packet.bytes, policy, ring`readFrame, ring`released, ring`readFraction
      ensures ring.Valid() && policy.Valid() && policy.measuredClockMilliHz == old(policy.measuredClockMilliHz)
      ensures ring.channels != CHANNELS ==> !ok && SourceOf(ring, policy) == old(SourceOf(ring, policy))
      ensures ring.channels == CHANNELS ==>
                var (source, batch) := BatchOf(next, old(SourceOf(ring, policy)), total);
                SourceOf(ring, policy) == source && ok == batch.Batch? && (ok ==> Holds(batch.packets))
      ensures !ok ==> byteCount == 0 && forall i | 0 <= i < SERVICE_INTERVALS :: packetByteCounts[i] == 0
    {
      Blank();
      Forget();
      missingFrames := 0;
      ghost var packets;
      ok, packets := Collect(packet, ring, policy, total, next);
      if !ok { Forget(); }
    }

    /** AudioOutTransferBatch::build. */
    method Build(ring: AudioOutputRing.Ring, policy: AudioPacketPolicy.Policy) returns (ok: bool)
      requires ring.Valid() && policy.Valid() && Sized()
      modifies this, bytes, packetByteCounts, policy, ring`readFrame, ring`released, ring`readFraction
      ensures ring.Valid() && policy.Valid() && policy.measuredClockMilliHz == old(policy.measuredClockMilliHz)
      ensures ring.channels != CHANNELS ==> !ok && SourceOf(ring, policy) == old(SourceOf(ring, policy))
      ensures ring.channels == CHANNELS ==>
                var next := DrawerAt(policy.sampleRateHz, policy.service, policy.measuredClockMilliHz);
                var (source, batch) := BatchOf(next, old(SourceOf(ring, policy)), SERVICE_INTERVALS);
                SourceOf(ring, policy) == source && ok == batch.Batch? && (ok ==> Holds(batch.packets))
      ensures !ok ==> byteCount == 0 && forall i | 0 <= i < SERVICE_INTERVALS :: packetByteCounts[i] == 0
    {
      var packet := new OutPacket();
      ghost var next := DrawerAt(policy.sampleRateHz, policy.service, policy.measuredClockMilliHz);
      ok := Gather(packet, ring, policy, SERVICE_INTERVALS, next);
    }
  }
}
