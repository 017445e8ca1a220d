/** AudioOutPacket and AudioOutTransferBatch as functions: policy, ring and 24-bit packing composed. */
module OutputPackets {
  import opened Resampling
  import opened Samples24
  import opened FeedbackWindow
  import opened PacketSchedule
  import opened Runs
  import AudioPacketPolicy

  const MAX_FRAMES: nat := 13
  const CHANNELS: nat := 4
  const FRAME_BYTES: nat := 12
  const SERVICE_INTERVALS: nat := 32

  /** Full scale is 2^23; the positive end is clipped by one step. */
  function Quantize(x: real): (v: int)
    ensures InRange24(v)
    ensures -1.0 <= x <= 8388607.0 / 8388608.0 ==> -0.5 <= x * 8388608.0 - v as real <= 0.5
    ensures (x >= 8388607.0 / 8388608.0 ==> v == 8388607) && (x <= -1.0 ==> v == -8388608)
  {
    var scaled := AudioPacketPolicy.Clamp(x, -1.0, 1.0) * 8388608.0;
    Saturate24(RoundAway(scaled))
  }

  predicate FourChannels(f: Frame) { |f| == CHANNELS }

  function EncodeFrame(f: Frame): (b: seq<Byte>)
    ensures |b| == FRAME_BYTES
  {
    EncodeSample(f, 0) + EncodeSample(f, 1) + EncodeSample(f, 2) + EncodeSample(f, 3)
  }

  function EncodeSample(f: Frame, c: nat): (b: seq<Byte>)
    ensures |b| == 3
  {
    Pack24(if c < |f| then Quantize(f[c]) else 0)
  }

  function EncodeFrames(frames: seq<Frame>): (b: seq<Byte>)
    ensures |b| == FRAME_BYTES * |frames|
  {
    ConcatLength(EncodeFrame, frames, FRAME_BYTES);
    Concat(EncodeFrame, frames)
  }

  function Zeros(n: nat): (b: seq<Byte>)
    ensures |b| == n && forall i | 0 <= i < n :: b[i] == 0
  {
    seq(n, _ => 0)
  }

  /** Decoding the bytes of a frame gives back the quantised samples. */
  lemma FrameDecodes(f: Frame, c: nat)
    requires FourChannels(f) && c < CHANNELS
    ensures Unpack24(EncodeFrame(f)[3 * c..3 * c + 3]) == Quantize(f[c])
  {
    UnpackOfPack(Quantize(f[c]));
    FourParts(EncodeSample(f, 0), EncodeSample(f, 1), EncodeSample(f, 2), EncodeSample(f, 3), c);
  }

  lemma FourParts(p: seq<Byte>, q: seq<Byte>, r: seq<Byte>, s: seq<Byte>, c: nat)
    requires |p| == 3 && |q| == 3 && |r| == 3 && |s| == 3 && c < 4
    ensures (p + q + r + s)[3 * c..3 * c + 3] == if c == 0 then p else if c == 1 then q else if c == 2 then r else s
  {
    if c == 0 { Middle([], p, q + r + s); assert [] + p + (q + r + s) == p + q + r + s; }
    else if c == 1 { Middle(p, q, r + s); assert p + q + (r + s) == p + q + r + s; }
    else if c == 2 { Middle(p + q, r, s); }
    else { Middle(p + q + r, s, []); assert p + q + r + s + [] == p + q + r + s; }
  }

  /** Frame i of an encoded packet sits at byte 12 * i. */
  lemma FramesDecode(frames: seq<Frame>, i: nat)
    requires i < |frames|
    ensures EncodeFrames(frames)[FRAME_BYTES * i..FRAME_BYTES * i + FRAME_BYTES] == EncodeFrame(frames[i])
  {
    assert frames == frames[..i] + [frames[i]] + frames[i + 1..];
    ConcatSplit(EncodeFrame, frames[..i] + [frames[i]], frames[i + 1..]);
    ConcatAppend(EncodeFrame, frames[..i], frames[i]);
    Middle(EncodeFrames(frames[..i]), EncodeFrame(frames[i]), EncodeFrames(frames[i + 1..]));
  }

  lemma Middle(a: seq<Byte>, b: seq<Byte>, c: seq<Byte>)
    ensures (a + b + c)[|a|..|a| + |b|] == b
  {
  }

  /** What the packetizer draws on: the packet schedule and the queue with its phase. */
  datatype Source = Source(schedule: Schedule, queue: seq<Frame>, fraction: real)

  predicate GoodSource(s: Source) {
    s.schedule.index < 8 && 0.0 <= s.fraction < 1.0
  }

  datatype Packet = Packet(frames: nat, missing: nat, bytes: seq<Byte>)

  /** After a read that came up short, the source frames of the missing output frames are skipped. */
  function SkipMissing(r: Pull<Frame>, n: nat, step: real): Pull<Frame>
    requires r.fraction >= 0.0 && step >= 0.0
  {
    if |r.frames| < n then Skip(r.rest, r.fraction, n - |r.frames|, step).(frames := r.frames) else r
  }

  /** What happens to queue and phase when a packet of n frames is drawn: read, then skip what was missing. */
  function Draw(q: seq<Frame>, fraction: real, n: nat, step: real): (end: Pull<Frame>)
    requires fraction >= 0.0 && step >= 0.0
    ensures |end.frames| <= n && 0.0 <= end.fraction < 1.0
  {
    SkipMissing(ReadResampled(q, fraction, n, step), n, step)
  }

  /** Full or not, a packet moves queue and phase by the steps of all its frames. */
  lemma DrawMovesByAllSteps(q: seq<Frame>, fraction: real, n: nat, step: real)
    requires fraction >= 0.0 && step >= 0.0
    ensures var end := Draw(q, fraction, n, step);
            Pull([], end.rest, end.fraction) == Skip(q, fraction, n, step)
  {
    var k := |ReadResampled(q, fraction, n, step).frames|;
    if k < n { RestInChunks([], q, fraction, step, k, n - k); }
  }

  /** One packet of n frames drawn from the queue; missing frames are silent. */
  function PacketFrom(schedule: Schedule, q: seq<Frame>, fraction: real, n: nat, rate: nat, measured: nat): (Source, Packet)
    requires fraction >= 0.0
  {
    var end := Draw(q, fraction, n, EffectiveStep(AudioPacketPolicy.SourceStep(rate, measured, |q|)));
    (Source(schedule, end.rest, end.fraction),
     Packet(n, n - |end.frames|, EncodeFrames(end.frames) + Zeros(FRAME_BYTES * (n - |end.frames|))))
  }

  /** AudioOutPacket::build on a four-channel ring; a packet over 13 frames is refused and reads nothing. */
  function PacketOf(s: Source, rate: nat, service: nat, measured: nat): (r: (Source, Packet))
    requires service > 0 && GoodSource(s)
    ensures GoodSource(r.0)
  {
    var (schedule, n) := Next(s.schedule, rate, service);
    if n > MAX_FRAMES then (s.(schedule := schedule), Packet(0, 0, []))
    else PacketFrom(schedule, s.queue, s.fraction, n, rate, measured)
  }

  /** A packet of at most 13 frames is sent; a larger one is refused, and then the schedule moves on and the queue does not. */
  lemma PacketIsSentIff(s: Source, rate: nat, service: nat, measured: nat)
    requires service > 0 && GoodSource(s)
    ensures var (schedule, n) := Next(s.schedule, rate, service);
            var (s', p) := PacketOf(s, rate, service, measured);
            && s'.schedule == schedule && p.frames == (if n <= 13 then n else 0) && |p.bytes| == 12 * p.frames
            && (n > 13 ==> s'.queue == s.queue && s'.fraction == s.fraction && p.missing == 0)
  {
  }

  /**
   * A packet of n frames carries the frames read off the queue at the policy's step, one every 12 bytes, and silence for
   * those that were missing, which it counts.
   */
  lemma PacketCarriesTheFramesRead(schedule: Schedule, q: seq<Frame>, fraction: real, n: nat, rate: nat, measured: nat, i: nat)
    requires 0.0 <= fraction < 1.0 && i < n
    ensures var read := ReadResampled(q, fraction, n, AudioPacketPolicy.SourceStep(rate, measured, |q|)).frames;
            var (_, p) := PacketFrom(schedule, q, fraction, n, rate, measured);
            && p.frames == n && p.missing == n - |read| && |p.bytes| == 12 * n
            && p.bytes[12 * i..12 * i + 12] == if i < |read| then EncodeFrame(read[i]) else Zeros(12)
  {
    var step := AudioPacketPolicy.SourceStep(rate, measured, |q|);
    GivenStep(step);
    var read := ReadResampled(q, fraction, n, step).frames;
    var code, silence := EncodeFrames(read), Zeros(FRAME_BYTES * (n - |read|));
    if i < |read| {
      FramesDecode(read, i);
      assert (code + silence)[12 * i..12 * i + 12] == code[12 * i..12 * i + 12];
    } else {
      SilenceAt(code, silence, 12 * i);
    }
  }

  lemma SilenceAt(code: seq<Byte>, silence: seq<Byte>, at: nat)
    requires |code| <= at && at + 12 <= |code| + |silence| && silence == Zeros(|silence|)
    ensures (code + silence)[at..at + 12] == Zeros(12)
  {
  }

  datatype Batch = Failed | Batch(packets: seq<Packet>)

  /** Where the next packet comes from. */
  type Drawer = Source -> (Source, Packet)

  /** The drawer is AudioOutPacket::build at these rates. */
  ghost predicate Draws(next: Drawer, rate: nat, service: nat, measured: nat)
    requires service > 0
  {
    forall s {:trigger PacketOf(s, rate, service, measured)} | GoodSource(s) :: next(s) == PacketOf(s, rate, service, measured)
  }

  function DrawerAt(rate: nat, service: nat, measured: nat): (next: Drawer)
    requires service > 0
    ensures Draws(next, rate, service, measured)
  {
    (s: Source) => if GoodSource(s) then PacketOf(s, rate, service, measured) else (s, Packet(0, 0, []))
  }

  /** AudioOutTransferBatch::build: n packets, or failure at the first one that comes back empty. */
  function BatchOf(next: Drawer, s: Source, n: nat): (r: (Source, Batch))
    ensures r.1.Batch? ==> |r.1.packets| == n
  {
    if n == 0 then (s, Batch([]))
    else
      var (s1, before) := BatchOf(next, s, n - 1);
      if before.Failed? then (s1, Failed)
      else
        var (s2, p) := next(s1);
        if p.frames == 0 then (s2, Failed) else (s2, Batch(before.packets + [p]))
  }

  /** A failed batch stops drawing at its failed packet. */
  lemma {:induction false} FailureIsFinal(next: Drawer, s: Source, n: nat, m: nat)
    requires n <= m && BatchOf(next, s, n).1.Failed?
    ensures BatchOf(next, s, m) == BatchOf(next, s, n)
    decreases m
  {
    if n < m { FailureIsFinal(next, s, n, m - 1); }
  }

  function Missing(packets: seq<Packet>): nat {
    if packets == [] then 0 else Missing(packets[..|packets| - 1]) + packets[|packets| - 1].missing
  }

  function Bytes(packets: seq<Packet>): seq<Byte> {
    if packets == [] then [] else Bytes(packets[..|packets| - 1]) + packets[|packets| - 1].bytes
  }

  function Sizes(packets: seq<Packet>): (r: seq<nat>) {
    seq(|packets|, i requires 0 <= i < |packets| => |packets[i].bytes|)
  }

  function FrameCounts(packets: seq<Packet>): (r: seq<nat>) {
    seq(|packets|, i requires 0 <= i < |packets| => packets[i].frames)
  }

  /** The transfer is as long as its packet sizes say. */
  lemma {:induction false} BytesAreSumOfSizes(packets: seq<Packet>)
    ensures |Bytes(packets)| == Sum(Sizes(packets))
  {
    if packets != [] {
      var n := |packets| - 1;
      BytesAreSumOfSizes(packets[..n]);
      assert Sizes(packets) == Sizes(packets[..n]) + [|packets[n].bytes|];
      SumAppend(Sizes(packets[..n]), |packets[n].bytes|);
    }
  }

  lemma MicroframePacket(s: Source, rate: nat, measured: nat)
    requires GoodSource(s) && Sound(s.schedule)
    ensures var (s', p) := PacketOf(s, rate, MICROFRAMES, measured);
            && GoodSource(s') && (s'.schedule, p.frames) == NextMicroframe(s.schedule) && Sound(s'.schedule)
            && |p.bytes| == FRAME_BYTES * p.frames && 5 <= p.frames <= 6
  {
    RequestIsSound(s.schedule);
  }

  /** The packets built are those the schedule asked for, 5 or 6 frames each, and the schedule is left as it says. */
  ghost predicate Follows(s: Source, packets: seq<Packet>, schedule: Schedule, counts: seq<nat>) {
    && GoodSource(s) && s.schedule == schedule && Sound(schedule) && FrameCounts(packets) == counts
    && (forall i | 0 <= i < |packets| :: |packets[i].bytes| == FRAME_BYTES * packets[i].frames && 5 <= packets[i].frames <= 6)
  }

  lemma FollowsNext(next: Drawer, s: Source, packets: seq<Packet>, counts: seq<nat>, rate: nat, measured: nat)
    requires Draws(next, rate, MICROFRAMES, measured) && Follows(s, packets, s.schedule, counts)
    ensures var (s', p) := next(s);
            var (schedule, n) := Next1(s.schedule);
            p.frames != 0 && Follows(s', packets + [p], schedule, counts + [n])
  {
    MicroframePacket(s, rate, measured);
    var p := next(s).1;
    assert p == PacketOf(s, rate, MICROFRAMES, measured).1;
    assert FrameCounts(packets + [p]) == FrameCounts(packets) + [p.frames];
  }

  /** A batch at one packet per microframe takes the schedule's packets one for one and cannot fail. */
  lemma {:induction false} MicroframeBatchFollowsSchedule(next: Drawer, s: Source, rate: nat, measured: nat, n: nat)
    requires Draws(next, rate, MICROFRAMES, measured) && GoodSource(s) && Sound(s.schedule)
    ensures var (s', b) := BatchOf(next, s, n);
            var (schedule, counts) := Microframes(s.schedule, n);
            b.Batch? && Follows(s', b.packets, schedule, counts)
  {
    if n == 0 {
      assert FrameCounts([]) == [];
    } else {
      MicroframeBatchFollowsSchedule(next, s, rate, measured, n - 1);
      var (s1, before) := BatchOf(next, s, n - 1);
      FollowsNext(next, s1, before.packets, Microframes(s.schedule, n - 1).1, rate, measured);
    }
  }

  /** One whole group from a group boundary. */
  function NextGroup(s: Schedule): (Schedule, seq<nat>) { (Refill(s), Refill(s).group) }

  function Groups(s: Schedule, k: nat): (Schedule, seq<seq<nat>>) { Repeat(NextGroup, s, k) }

  predicate AtBoundary(s: Schedule) { Sound(s) && s.index == 0 }

  predicate GoodSizes(g: seq<nat>) { |g| == 8 && GoodGroup(g) }

  /** 8 * k requests from a group boundary send k whole groups, each good, and end at a boundary. */
  lemma RequestsAreWholeGroups(s: Schedule, k: nat)
    requires AtBoundary(s)
    ensures var (s', groups) := Groups(s, k);
            && AtBoundary(s') && Microframes(s, 8 * k) == (s', Flatten(groups))
            && |groups| == k && forall i | 0 <= i < k :: GoodSizes(groups[i])
  {
    OneGroupFromAnyBoundary(8);
    RepeatEights(Next1, NextGroup, AtBoundary, s, 8, k);
    RepeatAll(NextGroup, AtBoundary, GoodSizes, s, k);
  }

  lemma OneGroupFromAnyBoundary(n: nat)
    requires n == 8
    ensures forall t {:trigger NextGroup(t)} | AtBoundary(t) :: Repeat(Next1, t, n) == NextGroup(t) && AtBoundary(NextGroup(t).0)
    ensures forall t {:trigger NextGroup(t)} | AtBoundary(t) :: GoodSizes(NextGroup(t).1)
  {
    forall t | AtBoundary(t)
      ensures Repeat(Next1, t, n) == NextGroup(t) && AtBoundary(NextGroup(t).0) && GoodSizes(NextGroup(t).1)
    {
      EightPacketsAreOneGroup(t, n);
      RefillIsSound(t);
    }
  }

  lemma {:induction false} GroupsTotal(groups: seq<seq<nat>>)
    requires forall i | 0 <= i < |groups| :: GoodSizes(groups[i])
    ensures 42 * |groups| <= Sum(Flatten(groups)) <= 46 * |groups|
  {
    if groups != [] {
      var n := |groups| - 1;
      GroupsTotal(groups[..n]);
      SumConcat(Flatten(groups[..n]), groups[n]);
      SumOfGroup(groups[n]);
    }
  }

  lemma SumOfGroup(g: Group)
    ensures Sum(g) == Total(g)
  {
    assert g == [g[0]] + [g[1]] + [g[2]] + [g[3]] + [g[4]] + [g[5]] + [g[6]] + [g[7]];
    var a := [g[0]];
    SumAppend(a, g[1]); a := a + [g[1]];
    SumAppend(a, g[2]); a := a + [g[2]];
    SumAppend(a, g[3]); a := a + [g[3]];
    SumAppend(a, g[4]); a := a + [g[4]];
    SumAppend(a, g[5]); a := a + [g[5]];
    SumAppend(a, g[6]); a := a + [g[6]];
    SumAppend(a, g[7]);
  }

  lemma {:induction false} SizesAreTwelveTimesFrames(packets: seq<Packet>)
    requires forall i | 0 <= i < |packets| :: |packets[i].bytes| == FRAME_BYTES * packets[i].frames
    ensures |Bytes(packets)| == FRAME_BYTES * Sum(FrameCounts(packets))
  {
    if packets != [] {
      var n := |packets| - 1;
      SizesAreTwelveTimesFrames(packets[..n]);
      assert FrameCounts(packets) == FrameCounts(packets[..n]) + [packets[n].frames];
      SumAppend(FrameCounts(packets[..n]), packets[n].frames);
    }
  }

  /**
   * From a group boundary, whatever the reports and however full the ring, a batch never fails, is exactly
   * four whole groups, and has between 2016 and 2208 bytes, the sum of its packet sizes.
   */
  lemma EveryBatchIsFourWholeGroups(next: Drawer, s: Source, rate: nat, measured: nat)
    requires Draws(next, rate, MICROFRAMES, measured) && GoodSource(s) && AtBoundary(s.schedule)
    ensures var (s', b) := BatchOf(next, s, SERVICE_INTERVALS);
            && b.Batch? && GoodSource(s') && s'.schedule == Groups(s.schedule, 4).0 && AtBoundary(s'.schedule)
            && FrameCounts(b.packets) == Flatten(Groups(s.schedule, 4).1)
            && 2016 <= |Bytes(b.packets)| == Sum(Sizes(b.packets)) <= 2208
  {
    MicroframeBatchFollowsSchedule(next, s, rate, measured, SERVICE_INTERVALS);
    RequestsAreWholeGroups(s.schedule, 4);
    GroupsTotal(Groups(s.schedule, 4).1);
    var packets := BatchOf(next, s, SERVICE_INTERVALS).1.packets;
    BytesAreSumOfSizes(packets);
    SizesAreTwelveTimesFrames(packets);
  }

  // ------------------------------------------------------------------ without feedback

  predicate Quiet(s: Schedule) { s.queue == [] }

  function NominalGroups(s: Schedule): int { s.nominal }

  function NominalFrames(s: Schedule): int { NominalTotal(s.nominal) }

  function GroupFrames(g: seq<nat>): int { Sum(g) }

  predicate AddsNominalGroup(s: Schedule, s': Schedule, g: seq<nat>) {
    Quiet(s') && NominalGroups(s') == NominalGroups(s) + 1 && NominalFrames(s') == NominalFrames(s) + GroupFrames(g)
  }

  lemma NextGroupWithoutFeedback(s: Schedule)
    requires Quiet(s)
    ensures AddsNominalGroup(s, NextGroup(s).0, NextGroup(s).1)
  {
    var s', g := QuietRefill(s);
    NominalGroupAdds(s, s', s.nominal, g);
  }

  lemma QuietRefill(s: Schedule) returns (s': Schedule, g: seq<nat>)
    requires Quiet(s)
    ensures NextGroup(s) == (s', g) && Quiet(s') && s'.nominal == s.nominal + 1
    ensures Sum(g) + NominalTotal(s.nominal) == NominalTotal(s.nominal + 1)
  {
    s', g := NextGroup(s).0, NextGroup(s).1;
    QuietTotal(s);
    SumOfGroup(g);
  }

  lemma QuietTotal(s: Schedule)
    requires Quiet(s)
    ensures Quiet(Refill(s)) && Refill(s).nominal == s.nominal + 1
    ensures Total(Refill(s).group) + NominalTotal(s.nominal) == NominalTotal(s.nominal + 1)
  {
  }

  lemma NominalGroupAdds(s: Schedule, s': Schedule, k: nat, g: seq<nat>)
    requires s.nominal == k && s'.nominal == k + 1 && Quiet(s') && Sum(g) + NominalTotal(k) == NominalTotal(k + 1)
    ensures AddsNominalGroup(s, s', g)
  {
  }

  lemma EveryQuietGroup()
    ensures forall t {:trigger NextGroup(t)} | Quiet(t) ::
              Quiet(NextGroup(t).0) && NominalGroups(NextGroup(t).0) == NominalGroups(t) + 1
              && NominalFrames(NextGroup(t).0) == NominalFrames(t) + GroupFrames(NextGroup(t).1)
  {
    forall t | Quiet(t) ensures AddsNominalGroup(t, NextGroup(t).0, NextGroup(t).1) { NextGroupWithoutFeedback(t); }
  }

  lemma {:induction false} SumOfFlatten(groups: seq<seq<nat>>)
    ensures SumOf(GroupFrames, groups) == Sum(Flatten(groups))
  {
    if groups != [] {
      var n := |groups| - 1;
      SumOfFlatten(groups[..n]);
      SumConcat(Flatten(groups[..n]), groups[n]);
    }
  }

  lemma GroupsWithoutFeedback(s: Schedule, n: nat)
    requires Quiet(s)
    ensures var (s', groups) := Groups(s, n);
            Quiet(s') && NominalGroups(s') == NominalGroups(s) + n && NominalFrames(s') == NominalFrames(s) + SumOf(GroupFrames, groups)
  {
    EveryQuietGroup();
    RepeatAddsUp(NextGroup, Quiet, NominalFrames, NominalGroups, GroupFrames, s, n);
  }

  /** A schedule that never gets feedback sends exactly floor(441 n / 10) frames in n milliseconds of packets. */
  lemma ScheduleWithoutFeedbackIsExact(n: nat)
    ensures Sum(Microframes(Initial, 8 * n).1) == 441 * n / 10
  {
    assert Total(Initial.group) == 44;
    RequestsAreWholeGroups(Initial, n);
    GroupsWithoutFeedback(Initial, n);
    SumOfFlatten(Groups(Initial, n).1);
    NominalRateIsExact(n);
  }

  // ------------------------------------------------------------------ whole runs

  /** Feedback, mixed audio, and batches at whatever clock has been measured by then, in any order. */
  datatype LoopEvent = Feedback(v: nat) | BadFeedback | Mixed(frames: seq<Frame>) | SendBatch(measured: nat)

  function After(s: Source, rate: nat, e: LoopEvent): Source {
    match e
    case Feedback(v) => s.(schedule := ObserveValid(s.schedule, v))
    case BadFeedback => s.(schedule := ObserveInvalid(s.schedule))
    case Mixed(frames) => s.(queue := s.queue + frames)
    case SendBatch(measured) => BatchOf(DrawerAt(rate, MICROFRAMES, measured), s, SERVICE_INTERVALS).0
  }

  function AfterAll(s: Source, rate: nat, events: seq<LoopEvent>): Source {
    if events == [] then s else After(AfterAll(s, rate, events[..|events| - 1]), rate, events[|events| - 1])
  }

  predicate Fresh(s: Source) { s == Source(Initial, [], 0.0) }

  predicate Ready(s: Source) { GoodSource(s) && AtBoundary(s.schedule) }

  lemma SendBatchKeepsReady(s: Source, rate: nat, measured: nat)
    requires Ready(s)
    ensures Ready(After(s, rate, SendBatch(measured)))
  {
    EveryBatchIsFourWholeGroups(DrawerAt(rate, MICROFRAMES, measured), s, rate, measured);
  }

  lemma {:induction false} EveryRunStaysReady(rate: nat, s: Source, events: seq<LoopEvent>)
    requires Fresh(s)
    ensures Ready(AfterAll(s, rate, events))
  {
    if events != [] {
      var n := |events| - 1;
      EveryRunStaysReady(rate, s, events[..n]);
      if events[n].SendBatch? { SendBatchKeepsReady(AfterAll(s, rate, events[..n]), rate, events[n].measured); }
    }
  }

  /** On any run, a batch sent at any point is four whole groups of 2016 to 2208 bytes and never fails. */
  lemma EveryBatchOfEveryRun(rate: nat, s: Source, events: seq<LoopEvent>, measured: nat)
    requires Fresh(s)
    ensures var now := AfterAll(s, rate, events);
            var (s', b) := BatchOf(DrawerAt(rate, 8000, measured), now, 32);
            && b.Batch? && FrameCounts(b.packets) == Flatten(Groups(now.schedule, 4).1)
            && 2016 <= |Bytes(b.packets)| == Sum(Sizes(b.packets)) <= 2208
  {
    EveryRunStaysReady(rate, s, events);
    EveryBatchIsFourWholeGroups(DrawerAt(rate, MICROFRAMES, measured), AfterAll(s, rate, events), rate, measured);
  }
}
