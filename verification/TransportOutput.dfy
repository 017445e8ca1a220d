/** What NS6Transport's dequeue hands out: the samples themselves, how many frames, and how far the reader moves. */
module TransportOutput {
  import opened RingIndex
  import opened Resampling
  import opened Samples24
  import opened TransportTimeline
  import opened TransportMixing
  import opened TransportQueue

  // ------------------------------------------------------------------ one frame

  /** v is within half a step of the point the fraction f of the way from a to b, and lies between a and b. */
  predicate Near(v: int, a: int, b: int, f: real) {
    && -0.5 <= (1.0 - f) * a as real + f * b as real - v as real <= 0.5
    && (a <= v <= b || b <= v <= a)
  }

  lemma OnTheWay(a: real, b: real, f: real, v: real)
    requires 0.0 <= f <= 1.0 && v == a + (b - a) * f
    ensures v == (1.0 - f) * a + f * b
    ensures (a <= b ==> a <= v <= b) && (b <= a ==> b <= v <= a)
  {
    var d := b - a;
    var near, far := f * d, (1.0 - f) * d;
    assert near == (b - a) * f && far == d - near;
    ScaleKeepsSign(f, d);
    ScaleKeepsSign(1.0 - f, d);
  }

  lemma ScaleKeepsSign(f: real, d: real)
    requires f >= 0.0
    ensures (d >= 0.0 ==> f * d >= 0.0) && (d <= 0.0 ==> f * d <= 0.0)
  {
  }

  lemma SampleIsNear(a: int, b: int, f: real)
    requires InRange24(a) && InRange24(b) && 0.0 <= f <= 1.0
    ensures Near(InterpolateSample(a, b, f), a, b, f)
  {
    var x, y := a as real, b as real;
    var v := x + (y - x) * f;
    OnTheWay(x, y, f, v);
    if a <= b { RoundStaysBetween(v, a, b); } else { RoundStaysBetween(v, b, a); }
    SampleIsRounded(a, b, f, v);
  }

  lemma SampleIsRounded(a: int, b: int, f: real, v: real)
    requires v == a as real + (b as real - a as real) * f && MIN24 as real <= v <= MAX24 as real
    ensures InterpolateSample(a, b, f) == RoundEven(v)
  {
  }

  /** Each channel is interpolated for itself. */
  lemma InterpolatedIsNear(a: Frame24, b: Frame24, f: real, c: nat)
    requires Samples(a) && Samples(b) && 0.0 <= f <= 1.0 && c < 4
    ensures Near(Interpolate24(a, b, f)[c], a[c], b[c], f)
  {
    SampleIsNear(a[c], b[c], f);
  }

  /** At a whole phase the frame comes out as it is. */
  lemma WholePhaseIsExact(a: Frame24, b: Frame24)
    requires Samples(a)
    ensures Interpolate24(a, b, 0.0) == a
  {
    forall c | 0 <= c < 4 ensures Interpolate24(a, b, 0.0)[c] == a[c] { WholeSample(a[c], b[c]); }
  }

  lemma WholeSample(a: int, b: int)
    requires InRange24(a)
    ensures InterpolateSample(a, b, 0.0) == a
  {
    assert a as real + (b as real - a as real) * 0.0 == a as real;
  }

  // ------------------------------------------------------------------ any timeline

  predicate AllInRange(blocks: seq<Block>) { forall i | 0 <= i < |blocks| :: AllSamples(blocks[i]) }

  lemma FrameAtIsNear(t: Timeline, phase: real, c: nat)
    requires AllInRange(t.blocks) && phase >= 0.0 && StopAt(t, phase) == NoStop && c < 4
    ensures var p, q := First(t, phase), Second(t, phase);
            && t.cursor <= p <= q < t.highWater && Written(t, p) && Written(t, q)
            && Near(FrameAt(t, phase)[c], SumAt(t.blocks, p).value[c], SumAt(t.blocks, q).value[c], Frac(phase))
  {
    var p, q := First(t, phase), Second(t, phase);
    SumsAreSamples(t.blocks, p);
    SumsAreSamples(t.blocks, q);
    InterpolatedIsNear(SumAt(t.blocks, p).value, SumAt(t.blocks, q).value, Frac(phase), c);
  }

  /**
   * Output frame i of a dequeue is, channel by channel, within half a step of the point its phase marks between the
   * frames written at the two positions around it.
   */
  lemma DequeuedSamplesAreNear(t: Timeline, n: nat, sourceStep: real, i: nat, c: nat)
    requires WellFormed(t) && t.initialized && AllInRange(t.blocks) && c < 4 && i < |Dequeue(t, n, sourceStep).1|
    ensures var phase := PhaseAt(t.fraction, EffectiveStep(sourceStep), i);
            var p, q := First(t, phase), Second(t, phase);
            && t.cursor <= p <= q < t.highWater && Written(t, p) && Written(t, q)
            && Near(Dequeue(t, n, sourceStep).1[i][c], SumAt(t.blocks, p).value[c], SumAt(t.blocks, q).value[c], Frac(phase))
  {
    var step := EffectiveStep(sourceStep);
    var phase := PhaseAt(t.fraction, step, i);
    OutputAt(t, t.fraction, step, n, i);
    FrameAtIsNear(t, phase, c);
  }

  lemma {:induction false} OutputAt(t: Timeline, phase: real, step: real, n: nat, i: nat)
    requires phase >= 0.0 && step >= 0.0 && i < |Output(t, phase, step, n)|
    ensures StopAt(t, PhaseAt(phase, step, i)) == NoStop
    ensures Output(t, phase, step, n)[i] == FrameAt(t, PhaseAt(phase, step, i))
    decreases n
  {
    if i > 0 {
      OutputAt(t, phase + step, step, n - 1, i - 1);
      PhaseAtSucc(phase, step, i - 1);
    }
  }

  /** The frames written from the cursor on, as far as they go without a gap, for n frames at unit step. */
  lemma {:induction false} UnitOutput(t: Timeline, k: nat, n: nat, run: nat)
    requires AllInRange(t.blocks) && t.highWater <= t.cursor + RING && k <= run && t.cursor + run <= t.highWater
    requires forall p | t.cursor <= p < t.cursor + run :: Written(t, p)
    requires t.cursor + run == t.highWater || !Written(t, t.cursor + run)
    ensures var out := Output(t, k as real, 1.0, n);
            |out| == Min(n, run - k) && forall i | 0 <= i < |out| :: Some(out[i]) == SumAt(t.blocks, t.cursor + k + i)
    decreases n
  {
    assert (k as real).Floor == k && Frac(k as real) == 0.0;
    if n > 0 && k < run {
      SumsAreSamples(t.blocks, t.cursor + k);
      assert Written(t, t.cursor + k) && StopAt(t, k as real) == NoStop;
      WholePhaseIsExact(SumAt(t.blocks, t.cursor + k).value, SumAt(t.blocks, t.cursor + k).value);
      assert (k + 1) as real == k as real + 1.0;
      UnitOutput(t, k + 1, n - 1, run);
    }
  }

  /**
   * At unit step and whole phase a dequeue hands out exactly the frames written from the cursor on, up to the request,
   * to the first gap, which stops it as a missing tag, or to the end, which stops it as empty.
   */
  lemma PlainDequeueStopsAtAGapOrTheEnd(t: Timeline, n: nat, run: nat)
    requires WellFormed(t) && t.initialized && t.fraction == 0.0 && AllInRange(t.blocks) && n > 0
    requires t.cursor + run <= t.highWater && (forall p | t.cursor <= p < t.cursor + run :: Written(t, p))
    requires t.cursor + run == t.highWater || !Written(t, t.cursor + run)
    ensures var (t', out, stop) := Dequeue(t, n, 1.0);
            && |out| == Min(n, run) && t' == t.(cursor := t.cursor + |out|)
            && (forall i | 0 <= i < |out| :: Some(out[i]) == SumAt(t.blocks, t.cursor + i))
            && stop == (if n <= run then NoStop else if t.cursor + run == t.highWater then Empty else MissingTag)
  {
    UnitOutput(t, 0, n, run);
    UnitPhase(Min(n, run));
    var end := Min(n, run) as real;
    assert end.Floor == Min(n, run) && Frac(end) == 0.0;
  }

  /** The scan counts the written positions from the cursor on, to the first gap, the high-water mark or a ring's length. */
  lemma {:induction false} ScanCountsTheRun(t: Timeline, p: nat, limit: nat)
    ensures var n := Scan(t, p, limit);
            (forall i | p <= i < p + n :: Written(t, i)) && (n == limit || !Written(t, p + n))
    decreases limit
  {
    if limit > 0 && Written(t, p) { ScanCountsTheRun(t, p + 1, limit - 1); }
  }

  lemma AvailableIsTheRun(t: Timeline)
    requires t.initialized && t.highWater <= t.cursor + 16384
    ensures var n := Available(t);
            && (forall i | t.cursor <= i < t.cursor + n :: Written(t, i))
            && (t.cursor + n >= t.highWater || !Written(t, t.cursor + n)) && (n > 0 ==> t.cursor + n <= t.highWater)
  {
    if t.highWater > t.cursor { ScanCountsTheRun(t, t.cursor, Min(t.highWater - t.cursor, RING)); }
  }

  // ------------------------------------------------------------------ how far the reader moves

  /** An advance by n frames moves cursor plus fraction by n given steps, or n frames for a step outside 0.5 to 1.5. */
  lemma AdvanceTakesTheGivenStep(t: Timeline, n: nat, sourceStep: real)
    requires t.fraction >= 0.0 && t.initialized
    ensures var (t', skipped) := Advance(t, n, sourceStep);
            && t'.cursor as real + t'.fraction
               == t.cursor as real + PhaseAt(t.fraction, if 0.5 <= sourceStep <= 1.5 then sourceStep else 1.0, n)
            && 0.0 <= t'.fraction < 1.0 && t'.cursor == t.cursor + skipped
            && t' == t.(cursor := t'.cursor, fraction := t'.fraction)
  {
    GivenStep(sourceStep);
    MoveToMoves(t, PhaseAt(t.fraction, EffectiveStep(sourceStep), n));
  }

  /** A dequeue moves them by that much for every frame it hands out. */
  lemma DequeueTakesTheGivenStep(t: Timeline, n: nat, sourceStep: real)
    requires t.fraction >= 0.0 && t.initialized && n > 0
    ensures var (t', out, _) := Dequeue(t, n, sourceStep);
            && t'.cursor as real + t'.fraction
               == t.cursor as real + PhaseAt(t.fraction, if 0.5 <= sourceStep <= 1.5 then sourceStep else 1.0, |out|)
            && 0.0 <= t'.fraction < 1.0 && t' == t.(cursor := t'.cursor, fraction := t'.fraction)
  {
    GivenStep(sourceStep);
    var out := Output(t, t.fraction, EffectiveStep(sourceStep), n);
    MoveToMoves(t, PhaseAt(t.fraction, EffectiveStep(sourceStep), |out|));
  }

  // ------------------------------------------------------------------ the queue

  predicate FramesInRange(q: seq<Frame24>) { forall i | 0 <= i < |q| :: Samples(q[i]) }

  lemma {:induction false} UnitTakes(q: seq<Frame24>, i: nat, n: nat)
    requires FramesInRange(q) && i <= |q|
    ensures Taken(LerpAt24, true, q, i as real, 1.0, n) == q[i..i + Min(n, |q| - i)]
    decreases n
  {
    assert (i as real).Floor == i && Frac(i as real) == 0.0;
    if n > 0 && i < |q| {
      UnitTakes(q, i + 1, n - 1);
      WholePhaseIsExact(q[i], q[i]);
      assert (i + 1) as real == i as real + 1.0;
      var k := Min(n, |q| - i);
      assert [q[i]] + q[i + 1..i + k] == q[i..i + k];
    }
  }

  /** At unit step and whole phase a get is the plain read of the queue. */
  lemma PlainGetReturnsTheFront(f: Fifo, n: nat)
    requires f.live && f.fraction == 0.0 && FramesInRange(f.q) && n > 0
    ensures var k := Min(n, |f.q|);
            ExecFifo(f, Get(n, 1.0)) == (Fifo(true, f.q[k..], 0.0), Frames(f.q[..k], if k == n then NoStop else Empty))
  {
    UnitTakes(f.q, 0, n);
    UnitPhase(Min(n, |f.q|));
    GetAnswers(f, n, 1.0, PullFrames(LerpAt24, true, f.q, f.fraction, n, 1.0));
  }

  /** At any phase a sample got off the queue is near the line between its neighbours in the queue. */
  lemma GotSamplesAreNear(q: seq<Frame24>, phase: real, c: nat)
    requires FramesInRange(q) && c < 4 && 0.0 <= phase <= |q| as real - 1.0
    ensures var i := phase.Floor;
            && 0 <= i < |q| && (i + 1 < |q| || phase == i as real)
            && Near(LerpAt24(q, phase)[c], q[i][c], if i + 1 < |q| then q[i + 1][c] else q[i][c], phase - i as real)
  {
    var i := phase.Floor;
    StarvedAtTheEnd(|q|, phase);
    var j := i + if Frac(phase) > 0.0 then 1 else 0;
    InterpolatedIsNear(q[i], q[j], Frac(phase), c);
  }

  /** A get hands out all n frames if and only if the last one's phase is not beyond the last queued frame. */
  lemma GetsAllIff(q: seq<Frame24>, fraction: real, n: nat, step: real)
    requires fraction >= 0.0 && step >= 0.0
    ensures |PullFrames(LerpAt24, true, q, fraction, n, step).frames| == n
            <==> n == 0 || PhaseAt(fraction, step, n - 1) <= |q| as real - 1.0
  {
    TakenInFullIff(LerpAt24, true, q, fraction, step, n);
    if n > 0 { StarvedAtTheEnd(|q|, PhaseAt(fraction, step, n - 1)); }
  }

  /** A fresh ring takes up to 16384 frames, whole or not at all, and a plain dequeue hands them back. */
  lemma EnqueueThenDequeue(frames: seq<Frame24>)
    requires FramesInRange(frames) && frames != [] && |frames| <= 0xFFFF_FFFF
    ensures var (t, ok) := Enqueue(Fresh, true, frames);
            && ok == (|frames| <= 16384)
            && (ok ==> t.fraction >= 0.0 && Dequeue(t, |frames|, 1.0).1 == frames && Dequeue(t, |frames|, 1.0).2 == NoStop)
  {
    var (t, ok) := Enqueue(Fresh, true, frames);
    FreshIsContiguous();
    EnqueueRefines(Fresh, frames);
    if ok {
      DequeueRefines(t, |frames|, 1.0);
      UnitTakes(frames, 0, |frames|);
      assert Queue(Fresh) + frames == frames;
    }
  }

  lemma FreshIsContiguous()
    ensures Contiguous(Fresh) && Queue(Fresh) == []
  {
  }

  /** A block mixed into a fresh ring at any time is handed back as it is, from that time on. */
  lemma MixThenDequeue(time: nat, frames: seq<Frame24>)
    requires FramesInRange(frames) && frames != [] && time + |frames| <= 0xFFFF_FFFF_FFFF_FFFF
    ensures var (t, ok) := Mix(Fresh, true, time, frames);
            && ok == (|frames| <= 16384) && t.cursor == time && t.fraction >= 0.0
            && (ok ==> Dequeue(t, |frames|, 1.0).1 == frames && Dequeue(t, |frames|, 1.0).0.cursor == time + |frames|)
  {
    var a := Chunk(true, time, frames);
    if |frames| <= 16384 {
      UnsettledMix(Fresh, a);
      var t := Line(true, time, time + |frames|, 0.0, [Block(time, frames)]);
      assert Fresh.blocks + [Block(time, frames)] == t.blocks && MixIt(Fresh, a).0 == t;
      OneBlockIsHandedBack(t, time, frames);
    } else {
      OverlongMixMovesTheReader(Fresh, a);
    }
  }

  lemma BlockAlone(b: Block, p: nat)
    ensures SumAt([b], p) == if Covers(b, p) then Some(b.frames[p - b.start]) else None
  {
    SumAtAppend([], b, p);
    assert [] + [b] == [b];
  }

  lemma OneBlockIsHandedBack(t: Timeline, time: nat, frames: seq<Frame24>)
    requires t == Line(true, time, time + |frames|, 0.0, [Block(time, frames)])
    requires FramesInRange(frames) && 0 < |frames| <= RING
    ensures Dequeue(t, |frames|, 1.0).1 == frames && Dequeue(t, |frames|, 1.0).0.cursor == time + |frames|
  {
    var b := Block(time, frames);
    assert AllSamples(b);
    forall p: nat ensures SumAt([b], p) == if Covers(b, p) then Some(frames[p - time]) else None { BlockAlone(b, p); }
    PlainDequeueStopsAtAGapOrTheEnd(t, |frames|, |frames|);
  }

  /** A mix whose end passes 2^64 - 1 is refused and changes nothing. */
  lemma MixPastTheEndIsRefused(t: Timeline, time: nat, frames: seq<Frame24>)
    requires frames != [] && time + |frames| > 0xFFFF_FFFF_FFFF_FFFF
    ensures Mix(t, true, time, frames) == (t, false)
  {
  }
}
