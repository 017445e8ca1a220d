/** Without mixing, the timeline is a bounded queue of frames with a fractional consumer. */
module TransportQueue {
  import opened RingIndex
  import opened Resampling
  import opened TransportTimeline

  /** Everything between the reader and the high-water mark has been written. */
  ghost predicate Contiguous(t: Timeline) {
    && WellFormed(t)
    && (forall p | t.cursor <= p < t.highWater :: Written(t, p))
    && (forall p: nat | Written(t, p) :: p < t.highWater)
  }

  function Length(t: Timeline): nat { if t.highWater <= t.cursor then 0 else t.highWater - t.cursor }

  const Silence: Frame24 := [0, 0, 0, 0]

  function ValueAt(t: Timeline, p: nat): Frame24 { if Written(t, p) then SumAt(t.blocks, p).value else Silence }

  /** The frames waiting to be read. */
  function Queue(t: Timeline): (q: seq<Frame24>)
    ensures |q| == Length(t)
  {
    seq<Frame24>(Length(t), i requires 0 <= i < Length(t) => ValueAt(t, t.cursor + i))
  }

  /** The transport's interpolation on a queue. */
  function LerpAt24(q: seq<Frame24>, phase: real): Frame24 {
    if phase < 0.0 || Starved(|q|, phase, true) then Silence
    else Interpolate24(q[phase.Floor], q[phase.Floor + if Frac(phase) > 0.0 then 1 else 0], Frac(phase))
  }

  lemma LerpAt24Shifts()
    ensures ShiftInvariant(LerpAt24)
  {
    forall q: seq<Frame24>, c: nat, phase: real | phase >= 0.0 && c <= |q|
      ensures LerpAt24(q, phase + c as real) == LerpAt24(q[c..], phase)
    {
      FloorShift(phase, c);
      if !Starved(|q| - c, phase, true) {
        assert q[c..][phase.Floor] == q[phase.Floor + c];
        if Frac(phase) > 0.0 { assert q[c..][phase.Floor + 1] == q[phase.Floor + c + 1]; }
      }
    }
  }

  /** A reader with data in front of it is stopped by the end of the queue and by nothing else. */
  lemma StopsOnlyAtTheEnd(t: Timeline, phase: real)
    requires Contiguous(t) && phase >= 0.0
    ensures StopAt(t, phase) == if Starved(Length(t), phase, true) then Empty else NoStop
  {
    if !Starved(Length(t), phase, true) {
      assert Written(t, First(t, phase)) && Written(t, Second(t, phase));
    }
  }

  lemma FrameAtIsLerp(t: Timeline, phase: real)
    requires Contiguous(t) && phase >= 0.0 && StopAt(t, phase) == NoStop
    ensures FrameAt(t, phase) == LerpAt24(Queue(t), phase)
  {
    StopsOnlyAtTheEnd(t, phase);
    var q := Queue(t);
    assert q[phase.Floor] == ValueAt(t, First(t, phase));
    assert q[Second(t, phase) - t.cursor] == ValueAt(t, Second(t, phase));
  }

  /** Reading the timeline at any phase is reading the queue q at that phase. */
  ghost predicate ReadsAs(t: Timeline, q: seq<Frame24>) {
    forall phase: real | phase >= 0.0 ::
      && (StopAt(t, phase) == NoStop <==> !Starved(|q|, phase, true))
      && (StopAt(t, phase) == NoStop ==> FrameAt(t, phase) == LerpAt24(q, phase))
  }

  lemma ReadsAsQueue(t: Timeline)
    requires Contiguous(t)
    ensures ReadsAs(t, Queue(t))
  {
    forall phase: real | phase >= 0.0
      ensures StopAt(t, phase) == NoStop <==> !Starved(|Queue(t)|, phase, true)
      ensures StopAt(t, phase) == NoStop ==> FrameAt(t, phase) == LerpAt24(Queue(t), phase)
    {
      StopsOnlyAtTheEnd(t, phase);
      if StopAt(t, phase) == NoStop { FrameAtIsLerp(t, phase); }
    }
  }

  lemma {:induction false} OutputIsTaken(t: Timeline, q: seq<Frame24>, phase: real, step: real, n: nat)
    requires ReadsAs(t, q) && phase >= 0.0 && step >= 0.0
    ensures Output(t, phase, step, n) == Taken(LerpAt24, true, q, phase, step, n)
    decreases n
  {
    if n > 0 && StopAt(t, phase) == NoStop { OutputIsTaken(t, q, phase + step, step, n - 1); }
  }

  lemma QueueAfterMove(t: Timeline, cursor: nat)
    requires Contiguous(t) && t.initialized && t.cursor <= cursor
    ensures var t' := t.(cursor := cursor);
            Contiguous(t') && Queue(t') == Queue(t)[Min(cursor - t.cursor, Length(t))..]
  {
    var t' := t.(cursor := cursor);
    assert forall p :: Written(t', p) == Written(t, p) && ValueAt(t', p) == ValueAt(t, p);
    forall i | 0 <= i < Length(t') ensures Queue(t')[i] == Queue(t)[cursor - t.cursor + i] {
    }
  }

  lemma OutputOfQueue(t: Timeline, step: real, n: nat)
    requires Contiguous(t) && step >= 0.0
    ensures Output(t, t.fraction, step, n) == Taken(LerpAt24, true, Queue(t), t.fraction, step, n)
  {
    ReadsAsQueue(t);
    OutputIsTaken(t, Queue(t), t.fraction, step, n);
  }

  lemma EndsFullOrEmpty(t: Timeline, step: real, n: nat)
    requires Contiguous(t) && step >= 0.0
    ensures var k := |Output(t, t.fraction, step, n)|;
            k < n ==> StopAt(t, PhaseAt(t.fraction, step, k)) == Empty
  {
    var k := |Output(t, t.fraction, step, n)|;
    if k < n {
      ShortOutputIsStopped(t, t.fraction, step, n);
      StopsOnlyAtTheEnd(t, PhaseAt(t.fraction, step, k));
    }
  }

  /** Dequeue is the fractional consumer of the queue; it ends full or empty, never on a missing tag or the ring limit. */
  lemma DequeueRefines(t: Timeline, n: nat, sourceStep: real)
    requires Contiguous(t) && t.initialized && n > 0
    ensures var (t', out, stop) := Dequeue(t, n, sourceStep);
            && Contiguous(t') && t'.initialized
            && Pull(out, Queue(t'), t'.fraction)
               == PullFrames(LerpAt24, true, Queue(t), t.fraction, n, EffectiveStep(sourceStep))
            && stop == (if |out| == n then NoStop else Empty)
  {
    var step := EffectiveStep(sourceStep);
    var out := Output(t, t.fraction, step, n);
    OutputOfQueue(t, step, n);
    EndsFullOrEmpty(t, step, n);
    MoveRefines(t, PhaseAt(t.fraction, step, |out|), out);
  }

  /** Moving the reader to a phase drops the whole frames before it and keeps the rest of the phase. */
  lemma MoveRefines(t: Timeline, end: real, out: seq<Frame24>)
    requires Contiguous(t) && t.initialized && end >= 0.0
    ensures var t' := MoveTo(t, end);
            Contiguous(t') && Pull(out, Queue(t'), t'.fraction) == Leave(out, Queue(t), end)
  {
    QueueAfterMove(t, t.cursor + end.Floor);
    MovedQueue(t.(cursor := t.cursor + end.Floor), Frac(end));
  }

  lemma MovedQueue(t: Timeline, fraction: real)
    requires Contiguous(t) && 0.0 <= fraction < 1.0
    ensures Contiguous(t.(fraction := fraction)) && Queue(t.(fraction := fraction)) == Queue(t)
  {
    var t' := t.(fraction := fraction);
    assert forall p :: Written(t', p) == Written(t, p) && ValueAt(t', p) == ValueAt(t, p);
  }

  lemma AdvanceRefines(t: Timeline, n: nat, sourceStep: real)
    requires Contiguous(t) && t.initialized
    ensures var (t', skipped) := Advance(t, n, sourceStep);
            && Contiguous(t') && t'.initialized
            && Pull([], Queue(t'), t'.fraction) == Skip(Queue(t), t.fraction, n, EffectiveStep(sourceStep))
  {
    MoveRefines(t, PhaseAt(t.fraction, EffectiveStep(sourceStep), n), []);
  }

  /** Enqueue takes a block whole when it fits beside what is queued, and otherwise takes none of it. */
  lemma EnqueueRefines(t: Timeline, frames: seq<Frame24>)
    requires Contiguous(t) && (frames == [] || Max(t.cursor, t.highWater) + |frames| <= LIMIT)
    ensures var (t', ok) := Enqueue(t, true, frames);
            && Contiguous(t') && t'.fraction == t.fraction
            && ok == (frames == [] || |Queue(t)| + |frames| <= RING)
            && Queue(t') == Queue(t) + (if ok then frames else [])
  {
    if frames != [] {
      var base := if t.initialized then t.cursor else t.highWater;
      var start := Max(t.highWater, base);
      var b := Block(start, frames);
      var t' := Enqueue(t, true, frames).0;
      if Enqueue(t, true, frames).1 {
        forall p: nat ensures SumAt(t'.blocks, p) == if Covers(b, p) then Some(frames[p - start]) else SumAt(t.blocks, p) {
          SumAtAppend(t.blocks, b, p);
          assert Written(t, p) ==> p < start;
        }
        assert forall p: nat :: Written(t', p) == (Written(t, p) || Covers(b, p));
        AppendedQueue(t, t', frames);
      } else {
        assert forall p: nat :: Written(t', p) == Written(t, p) && ValueAt(t', p) == ValueAt(t, p);
        assert Queue(t') == Queue(t);
      }
    }
  }

  /** Enqueue answers and leaves the queue as a bounded queue would. */
  ghost predicate EnqueuesAsAQueue(t: Timeline, frames: seq<Frame24>) {
    var (t', ok) := Enqueue(t, true, frames);
    ok == (frames == [] || |Queue(t)| + |frames| <= RING) && Queue(t') == Queue(t) + (if ok then frames else [])
  }

  /**
   * Near 2^64 it does not: a block whose end would pass it behind the reader is reported taken and dropped, one that
   * would pass it at the end of the queue is refused whether it fits or not.
   */
  lemma EnqueuesAsAQueueIff(t: Timeline, frames: seq<Frame24>)
    requires Contiguous(t)
    ensures EnqueuesAsAQueue(t, frames)
            <==> (frames == [] || Max(t.cursor, t.highWater) + |frames| <= LIMIT
                  || (t.highWater + |frames| > LIMIT && |Queue(t)| + |frames| > RING))
  {
    if frames == [] || Max(t.cursor, t.highWater) + |frames| <= LIMIT {
      EnqueueRefines(t, frames);
    } else if t.highWater + |frames| <= LIMIT {
      assert Queue(Enqueue(t, true, frames).0) == [] && Enqueue(t, true, frames).1;
    }
  }

  lemma AppendedQueue(t: Timeline, t': Timeline, frames: seq<Frame24>)
    requires WellFormed(t) && t'.cursor == t.cursor && t'.highWater == Max(t.cursor, t.highWater) + |frames|
    requires forall p: nat :: SumAt(t'.blocks, p)
               == if Max(t.cursor, t.highWater) <= p < t'.highWater then Some(frames[p - Max(t.cursor, t.highWater)])
                  else SumAt(t.blocks, p)
    ensures Queue(t') == Queue(t) + frames
  {
    forall i | 0 <= i < Length(t') ensures Queue(t')[i] == (Queue(t) + frames)[i] {
      assert Queue(t')[i] == ValueAt(t', t.cursor + i);
    }
  }

  /** The tag scan counts exactly what is queued. */
  lemma {:induction false} ScanCountsAll(t: Timeline, p: nat, limit: nat)
    requires Contiguous(t) && t.cursor <= p && p + limit <= t.highWater
    ensures Scan(t, p, limit) == limit
    decreases limit
  {
    if limit > 0 { ScanCountsAll(t, p + 1, limit - 1); }
  }

  lemma AvailableIsQueueLength(t: Timeline)
    requires Contiguous(t)
    ensures Available(t) == |Queue(t)| == if t.highWater > t.cursor then t.highWater - t.cursor else 0
  {
    if t.initialized && t.highWater > t.cursor { ScanCountsAll(t, t.cursor, t.highWater - t.cursor); }
  }

  // ------------------------------------------------------------------ whole runs

  datatype Op =
    | Put(valid: bool, frames: seq<Frame24>)
    | Get(n: nat, step: real)
    | SkipFrames(n: nat, step: real)
    | SkipWhole(n: nat)
    | Count
    | Discard
    | Reset

  datatype Reply = Accepted(ok: bool) | Frames(out: seq<Frame24>, stop: Stop) | Number(n: nat) | Done

  function Exec(t: Timeline, op: Op): (Timeline, Reply)
    requires t.fraction >= 0.0
  {
    match op
    case Put(valid, frames) => var (t', ok) := Enqueue(t, valid, frames); (t', Accepted(ok))
    case Get(n, step) => var (t', out, stop) := Dequeue(t, n, step); (t', Frames(out, stop))
    case SkipFrames(n, step) => var (t', skipped) := Advance(t, n, step); (t', Number(skipped))
    case SkipWhole(n) => var (t', skipped) := AdvanceWhole(t, n); (t', Number(skipped))
    case Count => (t, Number(Available(t)))
    case Discard => (Fresh, Done)
    case Reset => (Fresh.(fraction := t.fraction), Done)
  }

  /** The specification: a queue bounded by the ring size, with a carried phase. */
  datatype Fifo = Fifo(live: bool, q: seq<Frame24>, fraction: real)

  function View(t: Timeline): Fifo { Fifo(t.initialized, Queue(t), t.fraction) }

  function Answer(r: Pull<Frame24>, n: nat): (Fifo, Reply) {
    (Fifo(true, r.rest, r.fraction), Frames(r.frames, if |r.frames| == n then NoStop else Empty))
  }

  function ExecFifo(f: Fifo, op: Op): (Fifo, Reply)
    requires f.fraction >= 0.0
  {
    match op
    case Put(valid, frames) =>
      if !valid then (f, Accepted(false))
      else if frames == [] then (f, Accepted(true))
      else if |f.q| + |frames| > RING then (f.(live := true), Accepted(false))
      else (f.(live := true, q := f.q + frames), Accepted(true))
    case Get(n, step) =>
      if n == 0 || !f.live then (f, Frames([], Invalid))
      else
        Answer(PullFrames(LerpAt24, true, f.q, f.fraction, n, EffectiveStep(step)), n)
    case SkipFrames(n, step) =>
      if !f.live then (f, Number(0))
      else
        var r := Skip(f.q, f.fraction, n, EffectiveStep(step));
        (Fifo(true, r.rest, r.fraction), Number(PhaseAt(f.fraction, EffectiveStep(step), n).Floor))
    case SkipWhole(n) => if !f.live then (f, Number(0)) else (f.(q := f.q[Min(n, |f.q|)..]), Number(n))
    case Count => (f, Number(|f.q|))
    case Discard => (Fifo(false, [], 0.0), Done)
    case Reset => (Fifo(false, [], f.fraction), Done)
  }

  /** No counter reaches 2^64. */
  predicate Fits(t: Timeline, op: Op) {
    op.Put? && op.valid && op.frames != [] ==> Max(t.cursor, t.highWater) + |op.frames| <= LIMIT
  }

  ghost predicate Refines(t: Timeline, op: Op)
    requires t.fraction >= 0.0
  {
    var (t', reply) := Exec(t, op);
    Contiguous(t') && ExecFifo(View(t), op) == (View(t'), reply)
  }

  lemma GetRefines(t: Timeline, n: nat, step: real)
    requires Contiguous(t)
    ensures Refines(t, Get(n, step))
  {
    if n > 0 && t.initialized { DequeueRefines(t, n, step); }
  }

  lemma SkipRefines(t: Timeline, n: nat, step: real)
    requires Contiguous(t)
    ensures Refines(t, SkipFrames(n, step))
  {
    if t.initialized { AdvanceRefines(t, n, step); }
  }

  lemma ExecRefines(t: Timeline, op: Op)
    requires Contiguous(t) && Fits(t, op)
    ensures Refines(t, op)
  {
    match op
    case Put(valid, frames) => if valid { EnqueueRefines(t, frames); }
    case Get(n, step) => GetRefines(t, n, step);
    case SkipFrames(n, step) => SkipRefines(t, n, step);
    case SkipWhole(n) => if t.initialized { QueueAfterMove(t, t.cursor + n); }
    case Count => AvailableIsQueueLength(t);
    case Discard =>
    case Reset =>
  }

  ghost predicate RunFits(t: Timeline, ops: seq<Op>)
    requires t.fraction >= 0.0
    decreases |ops|
  {
    ops == [] || (Fits(t, ops[0]) && (Exec(t, ops[0]).0.fraction >= 0.0 ==> RunFits(Exec(t, ops[0]).0, ops[1..])))
  }

  function Replies(t: Timeline, ops: seq<Op>): seq<Reply>
    requires t.fraction >= 0.0
    decreases |ops|
  {
    if ops == [] then []
    else var (t', reply) := Exec(t, ops[0]);
      [reply] + if t'.fraction >= 0.0 then Replies(t', ops[1..]) else []
  }

  function FifoReplies(f: Fifo, ops: seq<Op>): seq<Reply>
    requires f.fraction >= 0.0
    decreases |ops|
  {
    if ops == [] then []
    else var (f', reply) := ExecFifo(f, ops[0]);
      [reply] + if f'.fraction >= 0.0 then FifoReplies(f', ops[1..]) else []
  }

  /** On every run without mixing, the transport answers exactly as the bounded queue does. */
  lemma {:induction false} EveryRunAnswersAsAQueue(t: Timeline, ops: seq<Op>)
    requires Contiguous(t) && RunFits(t, ops)
    ensures Replies(t, ops) == FifoReplies(View(t), ops)
    decreases |ops|
  {
    if ops != [] {
      ExecRefines(t, ops[0]);
      EveryRunAnswersAsAQueue(Exec(t, ops[0]).0, ops[1..]);
    }
  }

  lemma QueueInChunks(q: seq<Frame24>, fraction: real, n: nat, m: nat, step: real)
    requires 0.0 <= fraction < 1.0 && step >= 0.0
    ensures var a := PullFrames(LerpAt24, true, q, fraction, n, step);
            var b := PullFrames(LerpAt24, true, a.rest, a.fraction, m, step);
            PullFrames(LerpAt24, true, q, fraction, n + m, step) == Pull(a.frames + b.frames, b.rest, b.fraction)
  {
    LerpAt24Shifts();
    PullInChunks(LerpAt24, true, q, fraction, n, m, step);
  }

  /** On the bounded queue, too, getting n and then m frames at one step is getting n + m. */
  lemma GetsInChunks(f: Fifo, n: nat, m: nat, step: real)
    requires f.live && 0.0 <= f.fraction < 1.0 && n > 0 && m > 0
    ensures var (f1, a) := ExecFifo(f, Get(n, step));
            f1.fraction >= 0.0 &&
            var (f2, b) := ExecFifo(f1, Get(m, step));
            a.Frames? && b.Frames? && ExecFifo(f, Get(n + m, step)) == (f2, Frames(a.out + b.out, b.stop))
  {
    var s := EffectiveStep(step);
    QueueInChunks(f.q, f.fraction, n, m, s);
    var a := PullFrames(LerpAt24, true, f.q, f.fraction, n, s);
    var b := PullFrames(LerpAt24, true, a.rest, a.fraction, m, s);
    var both := PullFrames(LerpAt24, true, f.q, f.fraction, n + m, s);
    if |a.frames| < n { ShortPullIsEmpty(f, n, m, s); }
    JoinReplies(n, m, a, b, both);
    GetAnswers(f, n, step, a);
    GetAnswers(Answer(a, n).0, m, step, b);
    GetAnswers(f, n + m, step, both);
  }

  lemma GetAnswers(f: Fifo, n: nat, step: real, r: Pull<Frame24>)
    requires f.live && f.fraction >= 0.0 && n > 0 && r == PullFrames(LerpAt24, true, f.q, f.fraction, n, EffectiveStep(step))
    ensures ExecFifo(f, Get(n, step)) == Answer(r, n)
  {
  }

  lemma JoinReplies(n: nat, m: nat, a: Pull<Frame24>, b: Pull<Frame24>, both: Pull<Frame24>)
    requires both == Pull(a.frames + b.frames, b.rest, b.fraction) && |a.frames| <= n && |b.frames| <= m
    requires |a.frames| < n ==> b.frames == []
    requires m > 0
    ensures Answer(both, n + m) == (Answer(b, m).0, Frames(a.frames + b.frames, Answer(b, m).1.stop))
  {
  }

  /** A get that came up short leaves nothing for the next one. */
  lemma ShortPullIsEmpty(f: Fifo, n: nat, m: nat, step: real)
    requires 0.0 <= f.fraction < 1.0 && step >= 0.0 && m > 0 && |Taken(LerpAt24, true, f.q, f.fraction, step, n)| < n
    ensures var r := PullFrames(LerpAt24, true, f.q, f.fraction, n, step);
            PullFrames(LerpAt24, true, r.rest, r.fraction, m, step).frames == []
  {
    var k := |Taken(LerpAt24, true, f.q, f.fraction, step, n)|;
    LerpAt24Shifts();
    TakenAt(LerpAt24, true, f.q, f.fraction, step, n, k);
    TakenCarried(LerpAt24, true, f.q, PhaseAt(f.fraction, step, k), step, m);
  }
}
