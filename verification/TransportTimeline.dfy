/**
 * NS6Transport's shared ring as a timeline: which blocks were written at which positions since the last
 * reset, and where the reader stands. The tagged ring in Transport.dfy is proved to be this.
 */
module TransportTimeline {
  import opened RingIndex
  import opened Resampling
  import opened Samples24

  const RING: nat := 16384
  /** UINT64_MAX, which also marks an unused tag. */
  const LIMIT: nat := 0xFFFF_FFFF_FFFF_FFFF

  /** Four channels. */
  type Frame24 = f: seq<int> | |f| == 4 witness [0, 0, 0, 0]

  datatype Option<+T> = None | Some(value: T)

  datatype Block = Block(start: nat, frames: seq<Frame24>)

  predicate Covers(b: Block, p: nat) { b.start <= p < b.start + |b.frames| }

  function MixFrame(a: Frame24, b: Frame24): (r: Frame24) {
    seq(4, c requires 0 <= c < 4 => Saturate24(a[c] + b[c]))
  }

  /** What a position holds after one more block: a block covering it is mixed in, or starts it off. */
  function Put(before: Option<Frame24>, b: Block, p: nat): Option<Frame24> {
    if !Covers(b, p) then before
    else match before
      case None => Some(b.frames[p - b.start])
      case Some(f) => Some(MixFrame(f, b.frames[p - b.start]))
  }

  /** What position p holds: the saturating sum, in order, of the blocks covering it. */
  function SumAt(blocks: seq<Block>, p: nat): Option<Frame24> {
    if blocks == [] then None else Put(SumAt(blocks[..|blocks| - 1], p), blocks[|blocks| - 1], p)
  }

  datatype Timeline = Line(initialized: bool, cursor: nat, highWater: nat, fraction: real, blocks: seq<Block>)

  const Fresh := Line(false, 0, 0, 0.0, [])

  predicate Written(t: Timeline, p: nat) { SumAt(t.blocks, p).Some? }

  function Max(a: nat, b: nat): nat { if a >= b then a else b }

  predicate WellFormed(t: Timeline) {
    && 0.0 <= t.fraction < 1.0
    && t.highWater <= t.cursor + RING
    && (!t.initialized ==> t.cursor == 0 && t.highWater == 0 && t.blocks == [])
  }

  /**
   * ns6_transport_enqueue_at_shared: appends at the end of what is buffered; the caller's timestamp plays no part.
   * A block whose end passes 2^64 wraps behind the reader and is dropped.
   */
  function Enqueue(t: Timeline, valid: bool, frames: seq<Frame24>): (Timeline, bool) {
    if !valid then (t, false)
    else if frames == [] then (t, true)
    else if t.highWater + |frames| > LIMIT then (t, false)
    else
      var base := if t.initialized then t.cursor else t.highWater;
      var start := Max(t.highWater, base);
      var t' := t.(initialized := true, cursor := base, highWater := start);
      if start + |frames| > LIMIT then (t', true)
      else if start - base + |frames| > RING then (t', false)
      else (t'.(highWater := start + |frames|, blocks := t.blocks + [Block(start, frames)]), true)
  }

  /** Where the reader stands once a mix at `time` has aligned it: a far block rebases an empty ring. */
  function MixBase(t: Timeline, time: nat): nat {
    if !t.initialized then time
    else if (t.cursor + RING <= time || time + RING <= t.cursor) && !Written(t, t.cursor) then time
    else t.cursor
  }

  /** The reader once a mix at `time` has initialised or rebased it. */
  function Aligned(t: Timeline, time: nat): Timeline {
    var base := MixBase(t, time);
    t.(initialized := true, cursor := base, highWater := if !t.initialized || base != t.cursor then base else t.highWater)
  }

  /** ns6_transport_mix_at_shared. */
  function Mix(t: Timeline, valid: bool, time: nat, frames: seq<Frame24>): (Timeline, bool) {
    if !valid then (t, false)
    else if frames == [] then (t, true)
    else if time + |frames| > LIMIT then (t, false)
    else MixAligned(Aligned(t, time), time, frames)
  }

  /** A mix once the reader is aligned: what is late is dropped, what does not fit is refused. */
  function MixAligned(t: Timeline, time: nat, frames: seq<Frame24>): (Timeline, bool) {
    var late := if time < t.cursor then t.cursor - time else 0;
    if late >= |frames| then (t, true)
    else
      var start := time + late;
      if start - t.cursor >= RING || start - t.cursor + (|frames| - late) > RING then (t, false)
      else (t.(highWater := Max(t.highWater, time + |frames|), blocks := t.blocks + [Block(start, frames[late..])]), true)
  }

  datatype Stop = NoStop | Empty | MissingTag | RingLimit | Invalid

  function First(t: Timeline, phase: real): nat
    requires phase >= 0.0
  {
    t.cursor + phase.Floor
  }

  function Second(t: Timeline, phase: real): nat
    requires phase >= 0.0
  {
    First(t, phase) + if Frac(phase) > 0.0 then 1 else 0
  }

  function StopAt(t: Timeline, phase: real): Stop
    requires phase >= 0.0
  {
    if Second(t, phase) >= t.highWater then Empty
    else if Second(t, phase) - t.cursor >= RING then RingLimit
    else if !Written(t, First(t, phase)) || !Written(t, Second(t, phase)) then MissingTag
    else NoStop
  }

  function InterpolateSample(a: int, b: int, f: real): int {
    var v := a as real + (b as real - a as real) * f;
    RoundEven(if v > MAX24 as real then MAX24 as real else if v < MIN24 as real then MIN24 as real else v)
  }

  function Interpolate24(a: Frame24, b: Frame24, f: real): Frame24 {
    seq(4, c requires 0 <= c < 4 => InterpolateSample(a[c], b[c], f))
  }

  function FrameAt(t: Timeline, phase: real): Frame24
    requires phase >= 0.0 && StopAt(t, phase) == NoStop
  {
    Interpolate24(SumAt(t.blocks, First(t, phase)).value, SumAt(t.blocks, Second(t, phase)).value, Frac(phase))
  }

  /** The frames a dequeue produces from `phase` on. */
  function Output(t: Timeline, phase: real, step: real, n: nat): (out: seq<Frame24>)
    requires phase >= 0.0 && step >= 0.0
    ensures |out| <= n
    decreases n
  {
    if n == 0 || StopAt(t, phase) != NoStop then []
    else [FrameAt(t, phase)] + Output(t, phase + step, step, n - 1)
  }

  /** Moves the reader to a phase counted from its cursor. */
  function MoveTo(t: Timeline, phase: real): Timeline
    requires phase >= 0.0
  {
    t.(cursor := t.cursor + phase.Floor, fraction := Frac(phase))
  }

  /** ns6_transport_dequeue_resampled_shared_diagnostic. */
  function Dequeue(t: Timeline, n: nat, sourceStep: real): (Timeline, seq<Frame24>, Stop)
    requires t.fraction >= 0.0
  {
    if n == 0 || !t.initialized then (t, [], Invalid)
    else
      var step := EffectiveStep(sourceStep);
      var out := Output(t, t.fraction, step, n);
      var end := PhaseAt(t.fraction, step, |out|);
      (MoveTo(t, end), out, if |out| == n then NoStop else StopAt(t, end))
  }

  /** ns6_transport_advance_resampled_shared. */
  function Advance(t: Timeline, n: nat, sourceStep: real): (Timeline, nat)
    requires t.fraction >= 0.0
  {
    if !t.initialized then (t, 0)
    else
      var end := PhaseAt(t.fraction, EffectiveStep(sourceStep), n);
      (MoveTo(t, end), end.Floor)
  }

  /** ns6_transport_advance_shared. */
  function AdvanceWhole(t: Timeline, n: nat): (Timeline, nat) {
    if !t.initialized then (t, 0) else (t.(cursor := t.cursor + n), n)
  }

  /** ns6_transport_available_shared: the tag scan from the cursor. */
  function Available(t: Timeline): nat {
    if !t.initialized || t.highWater <= t.cursor then 0
    else Scan(t, t.cursor, Min(t.highWater - t.cursor, RING))
  }

  function Scan(t: Timeline, p: nat, limit: nat): (n: nat)
    ensures n <= limit
    decreases limit
  {
    if limit == 0 || !Written(t, p) then 0 else 1 + Scan(t, p + 1, limit - 1)
  }

  // ------------------------------------------------------------------ what mixing means

  lemma {:induction false} WrittenIffCovered(blocks: seq<Block>, p: nat)
    ensures SumAt(blocks, p).Some? <==> exists b :: b in blocks && Covers(b, p)
  {
    if blocks != [] {
      var rest, b := blocks[..|blocks| - 1], blocks[|blocks| - 1];
      WrittenIffCovered(rest, p);
      assert forall x :: x in blocks <==> x in rest || x == b;
    }
  }

  lemma SumAtAppend(blocks: seq<Block>, b: Block, p: nat)
    ensures SumAt(blocks + [b], p) == Put(SumAt(blocks, p), b, p)
  {
    assert (blocks + [b])[..|blocks|] == blocks;
  }

  lemma MixFrameCommutes(x: Frame24, y: Frame24)
    ensures MixFrame(x, y) == MixFrame(y, x)
  {
  }

  lemma PutTwoCommutes(a: Block, b: Block, p: nat)
    ensures Put(Put(None, a, p), b, p) == Put(Put(None, b, p), a, p)
  {
    if Covers(a, p) && Covers(b, p) { MixFrameCommutes(a.frames[p - a.start], b.frames[p - b.start]); }
  }

  /** Two blocks laid over silence give the same samples whichever came first. */
  lemma TwoBlocksCommute(blocks: seq<Block>, a: Block, b: Block, p: nat)
    requires SumAt(blocks, p).None?
    ensures SumAt(blocks + [a] + [b], p) == SumAt(blocks + [b] + [a], p)
  {
    SumAtAppend(blocks, a, p);
    SumAtAppend(blocks, b, p);
    SumAtAppend(blocks + [a], b, p);
    SumAtAppend(blocks + [b], a, p);
    PutTwoCommutes(a, b, p);
  }

  /** With a third block underneath, clipping makes the order audible. */
  lemma ThirdBlockBreaksCommutation()
    ensures var q: Frame24, loud: Frame24, neg: Frame24 := [1, 0, 0, 0], [MAX24, 0, 0, 0], [-2, 0, 0, 0];
            SumAt([Block(0, [q]), Block(0, [loud]), Block(0, [neg])], 0)
            != SumAt([Block(0, [q]), Block(0, [neg]), Block(0, [loud])], 0)
  {
    var q: Frame24, loud: Frame24, neg: Frame24 := [1, 0, 0, 0], [MAX24, 0, 0, 0], [-2, 0, 0, 0];
    var bq, bl, bn := Block(0, [q]), Block(0, [loud]), Block(0, [neg]);
    assert [bq, bl, bn] == [bq] + [bl] + [bn] && [bq, bn, bl] == [bq] + [bn] + [bl];
    SumAtAppend([], bq, 0);
    assert [] + [bq] == [bq];
    SumAtAppend([bq], bl, 0);
    SumAtAppend([bq] + [bl], bn, 0);
    SumAtAppend([bq], bn, 0);
    SumAtAppend([bq] + [bn], bl, 0);
    assert MixFrame(MixFrame(q, loud), neg)[0] == MAX24 - 2;
    assert MixFrame(MixFrame(q, neg), loud)[0] == MAX24 - 1;
  }

  /** An accepted mix drops only what lies behind the reader and adds the rest to what each position held. */
  lemma MixDropsOnlyTheLatePart(t: Timeline, time: nat, frames: seq<Frame24>, p: nat)
    requires WellFormed(t) && frames != [] && time + |frames| <= LIMIT
    requires Mix(t, true, time, frames).1
    ensures var t' := Mix(t, true, time, frames).0;
            if time <= p < time + |frames| && t'.cursor <= p then
              SumAt(t'.blocks, p) == Some(if Written(t, p) then MixFrame(SumAt(t.blocks, p).value, frames[p - time])
                                          else frames[p - time])
            else SumAt(t'.blocks, p) == SumAt(t.blocks, p)
  {
    var base := MixBase(t, time);
    var late := if time < base then base - time else 0;
    assert Mix(t, true, time, frames).0.cursor == base;
    if late < |frames| {
      SumAtAppend(t.blocks, Block(time + late, frames[late..]), p);
      PutLate(SumAt(t.blocks, p), time, late, frames, p);
    }
  }

  lemma PutLate(before: Option<Frame24>, time: nat, late: nat, frames: seq<Frame24>, p: nat)
    requires late < |frames|
    ensures Put(before, Block(time + late, frames[late..]), p)
            == if time + late <= p < time + |frames|
               then Some(if before.Some? then MixFrame(before.value, frames[p - time]) else frames[p - time])
               else before
  {
    if time + late <= p < time + |frames| { assert frames[late..][p - time - late] == frames[p - time]; }
  }

  /** A mix is refused exactly when it reaches beyond one ring ahead of the reader, and then adds nothing. */
  lemma MixTakenIffWithinTheRing(t: Timeline, time: nat, frames: seq<Frame24>)
    requires WellFormed(t) && frames != [] && time + |frames| <= LIMIT
    ensures var (t', ok) := Mix(t, true, time, frames);
            && (ok <==> time + |frames| <= t'.cursor + RING) && (!ok ==> t'.blocks == t.blocks)
            && (t.initialized && t.cursor <= time < t.cursor + RING ==> t'.cursor == t.cursor)
  {
    var base := MixBase(t, time);
    assert Mix(t, true, time, frames).0.cursor == base;
  }

  /** Each output frame is interpolated between two positions that were written and not yet passed. */
  lemma {:induction false} OutputComesFromWrittenPositions(t: Timeline, phase: real, step: real, n: nat, i: nat)
    requires phase >= 0.0 && step >= 0.0 && i < |Output(t, phase, step, n)|
    ensures var at := PhaseAt(phase, step, i);
            && t.cursor <= First(t, at) && Written(t, First(t, at)) && Written(t, Second(t, at))
            && Output(t, phase, step, n)[i] == Interpolate24(SumAt(t.blocks, First(t, at)).value,
                                                             SumAt(t.blocks, Second(t, at)).value, Frac(at))
    decreases n
  {
    if i > 0 {
      OutputComesFromWrittenPositions(t, phase + step, step, n - 1, i - 1);
      PhaseAtSucc(phase, step, i - 1);
    }
  }

  // ------------------------------------------------------------------ dequeuing in pieces

  /** The same timeline read from c frames further on. */
  predicate ReadFrom(t: Timeline, c: nat, t': Timeline) {
    t'.cursor == t.cursor + c && t'.highWater == t.highWater <= t.cursor + RING && t'.blocks == t.blocks
  }

  lemma StopAtShifts(t: Timeline, c: nat, t': Timeline, phase: real)
    requires ReadFrom(t, c, t') && phase >= 0.0
    ensures StopAt(t, phase + c as real) == StopAt(t', phase)
    ensures StopAt(t', phase) == NoStop ==> FrameAt(t, phase + c as real) == FrameAt(t', phase)
  {
    FloorShift(phase, c);
    assert First(t, phase + c as real) == First(t', phase) && Second(t, phase + c as real) == Second(t', phase);
  }

  lemma {:induction false} OutputShifts(t: Timeline, c: nat, t': Timeline, phase: real, step: real, n: nat)
    requires ReadFrom(t, c, t') && phase >= 0.0 && step >= 0.0
    ensures Output(t, phase + c as real, step, n) == Output(t', phase, step, n)
    decreases n
  {
    StopAtShifts(t, c, t', phase);
    if n > 0 && StopAt(t', phase) == NoStop {
      OutputShifts(t, c, t', phase + step, step, n - 1);
      assert phase + c as real + step == phase + step + c as real;
    }
  }

  lemma {:induction false} OutputInChunks(t: Timeline, phase: real, step: real, n: nat, m: nat)
    requires phase >= 0.0 && step >= 0.0
    ensures var a := Output(t, phase, step, n);
            Output(t, phase, step, n + m) == a + Output(t, PhaseAt(phase, step, |a|), step, m)
    decreases n
  {
    if n > 0 && StopAt(t, phase) == NoStop {
      var rest := Output(t, phase + step, step, n - 1);
      OutputInChunks(t, phase + step, step, n - 1, m);
      PhaseAtSucc(phase, step, |rest|);
      FirstOfOutput(FrameAt(t, phase), rest, Output(t, PhaseAt(phase, step, |rest| + 1), step, m));
    } else {
      assert [] + Output(t, phase, step, m) == Output(t, phase, step, m);
    }
  }

  lemma FirstOfOutput(f: Frame24, rest: seq<Frame24>, tail: seq<Frame24>)
    ensures [f] + (rest + tail) == [f] + rest + tail && |[f] + rest| == |rest| + 1
  {
  }

  /** Output that falls short ends where the reader is stopped. */
  lemma {:induction false} ShortOutputIsStopped(t: Timeline, phase: real, step: real, n: nat)
    requires phase >= 0.0 && step >= 0.0 && |Output(t, phase, step, n)| < n
    ensures StopAt(t, PhaseAt(phase, step, |Output(t, phase, step, n)|)) != NoStop
    decreases n
  {
    if StopAt(t, phase) == NoStop {
      ShortOutputIsStopped(t, phase + step, step, n - 1);
      PhaseAtSucc(phase, step, |Output(t, phase + step, step, n - 1)|);
    }
  }

  lemma MoveTwice(t: Timeline, step: real, k: nat, j: nat)
    requires t.fraction >= 0.0 && step >= 0.0
    ensures var t1 := MoveTo(t, PhaseAt(t.fraction, step, k));
            MoveTo(t1, PhaseAt(t1.fraction, step, j)) == MoveTo(t, PhaseAt(t.fraction, step, k + j))
  {
    var end := PhaseAt(t.fraction, step, k);
    PhaseSplit(t.fraction, step, k, j);
    FloorShift(PhaseAt(Frac(end), step, j), end.Floor);
  }

  lemma StopAfterMove(t: Timeline, step: real, k: nat, j: nat)
    requires t.fraction >= 0.0 && step >= 0.0 && t.highWater <= t.cursor + RING
    ensures var t1 := MoveTo(t, PhaseAt(t.fraction, step, k));
            StopAt(t1, PhaseAt(t1.fraction, step, j)) == StopAt(t, PhaseAt(t.fraction, step, k + j))
  {
    var end := PhaseAt(t.fraction, step, k);
    PhaseSplit(t.fraction, step, k, j);
    StopAtShifts(t, end.Floor, MoveTo(t, end), PhaseAt(Frac(end), step, j));
  }

  lemma ChunkOutputs(t: Timeline, step: real, n: nat, m: nat)
    requires t.fraction >= 0.0 && step >= 0.0 && t.highWater <= t.cursor + RING
    ensures var a := Output(t, t.fraction, step, n);
            var t1 := MoveTo(t, PhaseAt(t.fraction, step, |a|));
            Output(t, t.fraction, step, n + m) == a + Output(t1, t1.fraction, step, m)
  {
    OutputInChunks(t, t.fraction, step, n, m);
    var end := PhaseAt(t.fraction, step, |Output(t, t.fraction, step, n)|);
    OutputShifts(t, end.Floor, MoveTo(t, end), Frac(end), step, m);
  }

  /** A dequeue that has stopped short stays stopped, for the same reason, until the timeline changes. */
  lemma StoppedStaysStopped(t: Timeline, step: real, n: nat, m: nat)
    requires t.fraction >= 0.0 && step >= 0.0 && t.highWater <= t.cursor + RING && m > 0
    requires |Output(t, t.fraction, step, n)| < n
    ensures var t1 := MoveTo(t, PhaseAt(t.fraction, step, |Output(t, t.fraction, step, n)|));
            Output(t1, t1.fraction, step, m) == []
  {
    ShortOutputIsStopped(t, t.fraction, step, n);
    StopAfterMove(t, step, |Output(t, t.fraction, step, n)|, 0);
  }

  /** Dequeuing n and then m frames at one step is dequeuing n + m: the output, the final state and the reason it ended. */
  lemma DequeueInChunks(t: Timeline, n: nat, m: nat, sourceStep: real)
    requires WellFormed(t) && n > 0 && m > 0
    ensures var (t1, a, _) := Dequeue(t, n, sourceStep);
            t1.fraction >= 0.0 &&
            var (t2, b, stop) := Dequeue(t1, m, sourceStep);
            Dequeue(t, n + m, sourceStep) == (t2, a + b, stop)
  {
    if t.initialized {
      var step := EffectiveStep(sourceStep);
      var a := Output(t, t.fraction, step, n);
      var t1 := MoveTo(t, PhaseAt(t.fraction, step, |a|));
      var b := Output(t1, t1.fraction, step, m);
      ChunkOutputs(t, step, n, m);
      MoveTwice(t, step, |a|, |b|);
      StopAfterMove(t, step, |a|, |b|);
      if |a| < n { StoppedStaysStopped(t, step, n, m); }
    } else {
      var none: seq<Frame24> := [];
      assert none + none == none;
    }
  }

  lemma MoveToMoves(t: Timeline, phase: real)
    requires phase >= 0.0
    ensures MoveTo(t, phase).cursor as real + MoveTo(t, phase).fraction == t.cursor as real + phase
  {
  }

  /** Cursor and fraction together advance by exactly one step per frame produced. */
  lemma DequeueMovesByOutput(t: Timeline, n: nat, sourceStep: real)
    requires t.fraction >= 0.0 && t.initialized && n > 0
    ensures var (t', out, _) := Dequeue(t, n, sourceStep);
            t'.cursor as real + t'.fraction == t.cursor as real + t.fraction + |out| as real * EffectiveStep(sourceStep)
  {
    var step := EffectiveStep(sourceStep);
    var k := |Output(t, t.fraction, step, n)|;
    MoveToMoves(t, PhaseAt(t.fraction, step, k));
    PhaseAtIsMultiple(t.fraction, step, k);
  }

  // ------------------------------------------------------------------ runs that mix

  datatype MixOp = MixIn(valid: bool, time: nat, frames: seq<Frame24>) | Take(n: nat, step: real) | Jump(n: nat, step: real)

  /** No block that gets as far as the ring sits a whole ring behind a reader that has nothing to read. */
  predicate Forward(t: Timeline, op: MixOp) {
    op.MixIn? && op.valid && op.frames != [] && op.time + |op.frames| <= LIMIT && t.initialized && op.time + RING <= t.cursor
    ==> Written(t, t.cursor)
  }

  function Do(t: Timeline, op: MixOp): Timeline
    requires t.fraction >= 0.0
  {
    match op
    case MixIn(valid, time, frames) => Mix(t, valid, time, frames).0
    case Take(n, step) => Dequeue(t, n, step).0
    case Jump(n, step) => Advance(t, n, step).0
  }

  /** That is exactly when a step does not move the reader back. */
  lemma ReaderMovesBackIff(t: Timeline, op: MixOp)
    requires WellFormed(t)
    ensures Do(t, op).cursor < t.cursor <==> !Forward(t, op)
  {
    if op.MixIn? { assert op.valid && op.frames != [] && op.time + |op.frames| <= LIMIT ==> Do(t, op).cursor == MixBase(t, op.time); }
  }

  lemma StepKeepsWellFormed(t: Timeline, op: MixOp)
    requires WellFormed(t)
    ensures WellFormed(Do(t, op))
  {
  }

  /**
   * Over any run of mixes, dequeues and skips, whatever its rebases, nothing is ever buffered more than one ring ahead
   * of the reader, and no dequeue can meet the ring limit.
   */
  lemma {:induction false} NoRunMeetsTheRingLimit(t: Timeline, ops: seq<MixOp>)
    requires WellFormed(t)
    ensures WellFormed(DoAll(t, ops))
    ensures forall phase: real | phase >= 0.0 :: StopAt(DoAll(t, ops), phase) != RingLimit
    decreases |ops|
  {
    if ops != [] {
      StepKeepsWellFormed(t, ops[0]);
      NoRunMeetsTheRingLimit(Do(t, ops[0]), ops[1..]);
    }
  }

  ghost predicate Sound(t: Timeline) {
    WellFormed(t) && forall p: nat | Written(t, p) :: p < t.highWater
  }

  lemma MixKeepsSound(t: Timeline, valid: bool, time: nat, frames: seq<Frame24>)
    requires Sound(t) && Forward(t, MixIn(valid, time, frames))
    ensures var t' := Mix(t, valid, time, frames).0;
            Sound(t') && t.cursor <= t'.cursor && (t.initialized ==> t.highWater <= t'.highWater)
  {
    var t' := Mix(t, valid, time, frames).0;
    if t'.blocks == t.blocks {
      assert forall p: nat :: Written(t', p) == Written(t, p);
    } else {
      var b := t'.blocks[|t.blocks|];
      assert t'.blocks == t.blocks + [b] && b.start + |b.frames| == time + |frames| <= t'.highWater;
      forall p: nat ensures Written(t', p) ==> Written(t, p) || Covers(b, p) { SumAtAppend(t.blocks, b, p); }
    }
  }

  lemma ForwardStepKeepsSound(t: Timeline, op: MixOp)
    requires Sound(t) && Forward(t, op)
    ensures Sound(Do(t, op)) && t.cursor <= Do(t, op).cursor && (t.initialized ==> t.highWater <= Do(t, op).highWater)
  {
    if op.MixIn? {
      MixKeepsSound(t, op.valid, op.time, op.frames);
    } else {
      assert forall p: nat :: Written(Do(t, op), p) == Written(t, p);
    }
  }

  ghost predicate ForwardRun(t: Timeline, ops: seq<MixOp>)
    requires t.fraction >= 0.0
    decreases |ops|
  {
    ops == [] || (Forward(t, ops[0]) && (Do(t, ops[0]).fraction >= 0.0 ==> ForwardRun(Do(t, ops[0]), ops[1..])))
  }

  function DoAll(t: Timeline, ops: seq<MixOp>): Timeline
    requires t.fraction >= 0.0
    decreases |ops|
  {
    if ops == [] || Do(t, ops[0]).fraction < 0.0 then t else DoAll(Do(t, ops[0]), ops[1..])
  }

  /** When the rebases of a run go forward, the reader never moves back and everything written lies below the high-water mark. */
  lemma {:induction false} ForwardRunsStaySound(t: Timeline, ops: seq<MixOp>)
    requires Sound(t) && ForwardRun(t, ops)
    ensures Sound(DoAll(t, ops)) && t.cursor <= DoAll(t, ops).cursor
    decreases |ops|
  {
    if ops != [] {
      ForwardStepKeepsSound(t, ops[0]);
      ForwardRunsStaySound(Do(t, ops[0]), ops[1..]);
    }
  }
}
