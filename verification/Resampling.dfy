/**
 * The fractional consumer shared by AudioOutputRing and NS6Transport, on a plain queue of frames.
 * Output frame i of a call is taken at phase fraction + i * step; phases are exact reals, so the
 * `isfinite` test of the source is always true here.
 */
module Resampling {
  import opened RingIndex

  function EffectiveStep(step: real): (s: real)
    ensures 0.5 <= s <= 1.5
  {
    if step < 0.5 || step > 1.5 then 1.0 else step
  }

  function Frac(phase: real): (f: real)
    requires phase >= 0.0
    ensures 0.0 <= f < 1.0 && phase == phase.Floor as real + f
  {
    phase - phase.Floor as real
  }

  lemma FloorShift(phase: real, c: nat)
    requires phase >= 0.0
    ensures (phase + c as real).Floor == phase.Floor + c && Frac(phase + c as real) == Frac(phase)
  {
  }

  // ------------------------------------------------------------------ phases

  /** The phase of output frame i: one step further for each frame before it. */
  function PhaseAt(fraction: real, step: real, i: nat): (p: real)
    requires fraction >= 0.0 && step >= 0.0
    ensures p >= 0.0
  {
    if i == 0 then fraction else PhaseAt(fraction, step, i - 1) + step
  }

  lemma {:induction false} PhaseAtIsMultiple(fraction: real, step: real, i: nat)
    requires fraction >= 0.0 && step >= 0.0
    ensures PhaseAt(fraction, step, i) == fraction + i as real * step
  {
    if i > 0 {
      PhaseAtIsMultiple(fraction, step, i - 1);
      assert i as real * step == (i - 1) as real * step + step;
    }
  }

  /** The phase n frames on, in one multiplication. */
  method PhaseAfter(fraction: real, step: real, n: nat) returns (p: real)
    requires fraction >= 0.0 && step >= 0.0
    ensures p == PhaseAt(fraction, step, n)
  {
    PhaseAtIsMultiple(fraction, step, n);
    p := fraction + n as real * step;
  }

  lemma {:induction false} PhaseAtSum(fraction: real, step: real, i: nat, j: nat)
    requires fraction >= 0.0 && step >= 0.0
    ensures PhaseAt(fraction, step, i + j) == PhaseAt(PhaseAt(fraction, step, i), step, j)
    decreases j
  {
    if j > 0 { PhaseAtSum(fraction, step, i, j - 1); }
  }

  lemma {:induction false} PhaseAtSucc(phase: real, step: real, i: nat)
    requires phase >= 0.0 && step >= 0.0
    ensures PhaseAt(phase, step, i + 1) == PhaseAt(phase + step, step, i)
  {
    if i > 0 { PhaseAtSucc(phase, step, i - 1); }
  }

  /** Counting phases from a point moved by d moves every phase by d. */
  lemma {:induction false} PhaseAtOffset(phase: real, d: real, step: real, i: nat)
    requires phase >= 0.0 && step >= 0.0 && d >= 0.0
    ensures PhaseAt(phase + d, step, i) == PhaseAt(phase, step, i) + d
  {
    if i > 0 { PhaseAtOffset(phase, d, step, i - 1); }
  }

  lemma PhaseSplit(fraction: real, step: real, k: nat, j: nat)
    requires fraction >= 0.0 && step >= 0.0
    ensures var end := PhaseAt(fraction, step, k);
            PhaseAt(fraction, step, k + j) == PhaseAt(Frac(end), step, j) + end.Floor as real
  {
    var end := PhaseAt(fraction, step, k);
    PhaseAtSum(fraction, step, k, j);
    PhaseAtOffset(Frac(end), end.Floor as real, step, j);
  }

  // ------------------------------------------------------------------ taking frames off a queue

  /**
   * Whether no output frame can be taken at `phase` from a queue of `len` frames. AudioOutputRing
   * needs the frame under the phase; NS6Transport (`both`) also needs the next one when it interpolates.
   */
  predicate Starved(len: nat, phase: real, both: bool)
    requires phase >= 0.0
  {
    phase.Floor + (if both && Frac(phase) > 0.0 then 1 else 0) >= len
  }

  /** How an output frame is made from the queue at a phase. */
  type Interpolator<!F> = (seq<F>, real) -> F

  /** Dropping c whole frames from the queue and from the phase does not change the interpolated frame. */
  ghost predicate ShiftInvariant<F(!new)>(at: Interpolator<F>) {
    forall q: seq<F>, c: nat, phase: real {:trigger at(q[c..], phase)} | phase >= 0.0 && c <= |q| ::
      at(q, phase + c as real) == at(q[c..], phase)
  }

  /** The frames taken from `phase` on, up to n of them. */
  function Taken<F>(at: Interpolator<F>, both: bool, q: seq<F>, phase: real, step: real, n: nat): (out: seq<F>)
    requires phase >= 0.0 && step >= 0.0
    ensures |out| <= n
    decreases n
  {
    if n == 0 || Starved(|q|, phase, both) then []
    else [at(q, phase)] + Taken(at, both, q, phase + step, step, n - 1)
  }

  /** Frame i is made at its own phase, none starves before the last, and a short result starves next. */
  lemma {:induction false} TakenAt<F>(at: Interpolator<F>, both: bool, q: seq<F>, phase: real, step: real, n: nat, i: nat)
    requires phase >= 0.0 && step >= 0.0
    ensures var out := Taken(at, both, q, phase, step, n);
            && (i < |out| ==> !Starved(|q|, PhaseAt(phase, step, i), both) && out[i] == at(q, PhaseAt(phase, step, i)))
            && (i == |out| < n ==> Starved(|q|, PhaseAt(phase, step, i), both))
    decreases n
  {
    if n > 0 && !Starved(|q|, phase, both) && i > 0 {
      TakenAt(at, both, q, phase + step, step, n - 1, i - 1);
      PhaseAtSucc(phase, step, i - 1);
    }
  }

  lemma {:induction false} TakenInChunks<F>(at: Interpolator<F>, both: bool, q: seq<F>, phase: real, step: real, n: nat, m: nat)
    requires phase >= 0.0 && step >= 0.0
    ensures var a := Taken(at, both, q, phase, step, n);
            Taken(at, both, q, phase, step, n + m)
            == a + Taken(at, both, q, PhaseAt(phase, step, |a|), step, m)
    decreases n
  {
    if n > 0 && !Starved(|q|, phase, both) {
      var rest := Taken(at, both, q, phase + step, step, n - 1);
      TakenInChunks(at, both, q, phase + step, step, n - 1, m);
      PhaseAtSucc(phase, step, |rest|);
      var tail := Taken(at, both, q, PhaseAt(phase, step, |rest| + 1), step, m);
      assert Taken(at, both, q, phase, step, n + m) == [at(q, phase)] + Taken(at, both, q, phase + step, step, n - 1 + m);
      assert [at(q, phase)] + (rest + tail) == [at(q, phase)] + rest + tail;
      assert |Taken(at, both, q, phase, step, n)| == |rest| + 1;
    } else {
      assert [] + Taken(at, both, q, phase, step, m) == Taken(at, both, q, phase, step, m);
    }
  }

  lemma {:induction false} TakenShift<F(!new)>(at: Interpolator<F>, both: bool, q: seq<F>, c: nat, phase: real, step: real, n: nat)
    requires ShiftInvariant(at) && phase >= 0.0 && step >= 0.0 && c <= |q|
    ensures Taken(at, both, q, phase + c as real, step, n) == Taken(at, both, q[c..], phase, step, n)
    decreases n
  {
    FloorShift(phase, c);
    if n > 0 && !Starved(|q| - c, phase, both) {
      TakenShift(at, both, q, c, phase + step, step, n - 1);
      assert phase + c as real + step == phase + step + c as real;
      assert at(q, phase + c as real) == at(q[c..], phase);
    }
  }

  /** Storing a phase as whole frames consumed plus a fraction loses nothing for the next call. */
  lemma TakenCarried<F(!new)>(at: Interpolator<F>, both: bool, q: seq<F>, end: real, step: real, m: nat)
    requires ShiftInvariant(at) && end >= 0.0 && step >= 0.0
    ensures Taken(at, both, q, end, step, m) == Taken(at, both, q[Min(end.Floor, |q|)..], Frac(end), step, m)
  {
    if end.Floor <= |q| {
      TakenShift(at, both, q, end.Floor, Frac(end), step, m);
    } else {
      assert Starved(|q|, end, both) && Starved(0, Frac(end), both);
    }
  }

  /** The result of a call: the frames produced, what is left of the queue, and the carried phase. */
  datatype Pull<F> = Pull(frames: seq<F>, rest: seq<F>, fraction: real)

  /** Leaves the queue and phase where a call that ended at phase `end` leaves them. */
  function Leave<F>(frames: seq<F>, q: seq<F>, end: real): Pull<F>
    requires end >= 0.0
  {
    Pull(frames, q[Min(end.Floor, |q|)..], Frac(end))
  }

  function PullFrames<F>(at: Interpolator<F>, both: bool, q: seq<F>, fraction: real, n: nat, step: real): Pull<F>
    requires fraction >= 0.0 && step >= 0.0
  {
    var frames := Taken(at, both, q, fraction, step, n);
    Leave(frames, q, PhaseAt(fraction, step, |frames|))
  }

  /** The call that takes no frames and skips the source frames of n output frames. */
  function Skip<F>(q: seq<F>, fraction: real, n: nat, step: real): Pull<F>
    requires fraction >= 0.0 && step >= 0.0
  {
    Leave([], q, PhaseAt(fraction, step, n))
  }

  /** Queue and phase stand at `end`, counted from the front of the queue before. */
  predicate StandsAt<F(==)>(before: seq<F>, after: seq<F>, fraction: real, end: real)
    requires end >= 0.0
  {
    after == before[Min(end.Floor, |before|)..] && fraction == Frac(end)
  }

  lemma LeaveStands<F>(frames: seq<F>, q: seq<F>, end: real)
    requires end >= 0.0
    ensures var r := Leave(frames, q, end);
            StandsAt(q, r.rest, r.fraction, end) && (end <= |q| as real ==> (|q| - |r.rest|) as real + r.fraction == end)
  {
  }

  /** A step from 0.5 to 1.5 is taken as given, and any other counts as one frame. */
  lemma GivenStep(sourceStep: real)
    ensures 0.5 <= sourceStep <= 1.5 ==> EffectiveStep(sourceStep) == sourceStep
    ensures sourceStep < 0.5 || sourceStep > 1.5 ==> EffectiveStep(sourceStep) == 1.0
  {
  }

  /** So a skip of n frames ends n given steps further on, or n frames for a step outside that range. */
  lemma SkipTakesTheGivenStep<F>(q: seq<F>, fraction: real, n: nat, sourceStep: real)
    requires fraction >= 0.0
    ensures var r := Skip(q, fraction, n, EffectiveStep(sourceStep));
            var end := PhaseAt(fraction, if 0.5 <= sourceStep <= 1.5 then sourceStep else 1.0, n);
            StandsAt(q, r.rest, r.fraction, end) && (end <= |q| as real ==> (|q| - |r.rest|) as real + r.fraction == end)
  {
    GivenStep(sourceStep);
    LeaveStands<F>([], q, PhaseAt(fraction, EffectiveStep(sourceStep), n));
  }

  lemma LeaveTwice<F>(frames: seq<F>, q: seq<F>, a: nat, phase: real)
    requires phase >= 0.0
    ensures Leave(frames, q[Min(a, |q|)..], phase) == Leave(frames, q, phase + a as real)
  {
    FloorShift(phase, a);
  }

  lemma FramesInChunks<F(!new)>(at: Interpolator<F>, both: bool, q: seq<F>, fraction: real, n: nat, m: nat, step: real)
    requires ShiftInvariant(at) && fraction >= 0.0 && step >= 0.0
    ensures var a := PullFrames(at, both, q, fraction, n, step);
            Taken(at, both, q, fraction, step, n + m) == a.frames + Taken(at, both, a.rest, a.fraction, step, m)
  {
    TakenInChunks(at, both, q, fraction, step, n, m);
    TakenCarried(at, both, q, PhaseAt(fraction, step, |Taken(at, both, q, fraction, step, n)|), step, m);
  }

  lemma RestInChunks<F>(frames: seq<F>, q: seq<F>, fraction: real, step: real, k: nat, j: nat)
    requires fraction >= 0.0 && step >= 0.0
    ensures var a := Leave([], q, PhaseAt(fraction, step, k));
            Leave(frames, a.rest, PhaseAt(a.fraction, step, j)) == Leave(frames, q, PhaseAt(fraction, step, k + j))
  {
    var end := PhaseAt(fraction, step, k);
    PhaseSplit(fraction, step, k, j);
    LeaveTwice(frames, q, end.Floor, PhaseAt(Frac(end), step, j));
  }

  lemma ChunksJoin<F>(at: Interpolator<F>, both: bool, q: seq<F>, fraction: real, n: nat, m: nat, step: real, a: Pull<F>)
    requires fraction >= 0.0 && step >= 0.0 && a == PullFrames(at, both, q, fraction, n, step)
    requires Taken(at, both, q, fraction, step, n + m) == a.frames + Taken(at, both, a.rest, a.fraction, step, m)
    ensures var b := PullFrames(at, both, a.rest, a.fraction, m, step);
            PullFrames(at, both, q, fraction, n + m, step) == Pull(a.frames + b.frames, b.rest, b.fraction)
  {
    var b := Taken(at, both, a.rest, a.fraction, step, m);
    RestInChunks(a.frames + b, q, fraction, step, |a.frames|, |b|);
  }

  /** Taking n and then m frames at one step is taking n + m frames: output, queue and phase. */
  lemma PullInChunks<F(!new)>(at: Interpolator<F>, both: bool, q: seq<F>, fraction: real, n: nat, m: nat, step: real)
    requires ShiftInvariant(at) && 0.0 <= fraction < 1.0 && step >= 0.0
    ensures var a := PullFrames(at, both, q, fraction, n, step);
            var b := PullFrames(at, both, a.rest, a.fraction, m, step);
            PullFrames(at, both, q, fraction, n + m, step) == Pull(a.frames + b.frames, b.rest, b.fraction)
  {
    FramesInChunks(at, both, q, fraction, n, m, step);
    ChunksJoin(at, both, q, fraction, n, m, step, PullFrames(at, both, q, fraction, n, step));
  }

  lemma LeaveMoves<F>(frames: seq<F>, q: seq<F>, end: real)
    requires end >= 0.0
    ensures var r := Leave(frames, q, end);
            (|q| - |r.rest|) as real + r.fraction == end <==> end.Floor <= |q|
  {
  }

  lemma {:induction false} PhaseAtGrows(phase: real, step: real, i: nat, j: nat)
    requires phase >= 0.0 && step >= 0.0 && i <= j
    ensures PhaseAt(phase, step, i) <= PhaseAt(phase, step, j)
    decreases j
  {
    if i < j { PhaseAtGrows(phase, step, i, j - 1); }
  }

  /** All n frames are produced if and only if the last of them does not starve. */
  lemma TakenInFullIff<F>(at: Interpolator<F>, both: bool, q: seq<F>, fraction: real, step: real, n: nat)
    requires fraction >= 0.0 && step >= 0.0
    ensures |Taken(at, both, q, fraction, step, n)| == n <==> n == 0 || !Starved(|q|, PhaseAt(fraction, step, n - 1), both)
  {
    var k := |Taken(at, both, q, fraction, step, n)|;
    TakenAt(at, both, q, fraction, step, n, k);
    if k == n && n > 0 { TakenAt(at, both, q, fraction, step, n, n - 1); }
    if k < n {
      PhaseAtGrows(fraction, step, k, n - 1);
      StarvedGrows(|q|, PhaseAt(fraction, step, k), PhaseAt(fraction, step, n - 1), both);
    }
  }

  lemma StarvedGrows(len: nat, p: real, q: real, both: bool)
    requires 0.0 <= p <= q && Starved(len, p, both)
    ensures Starved(len, q, both)
  {
  }

  /** No step from a phase where a frame can be made passes the end of the queue. */
  predicate StepsStayInside(len: nat, fraction: real, n: nat, step: real, both: bool)
    requires fraction >= 0.0 && step >= 0.0
  {
    forall i | 0 <= i < n && !Starved(len, PhaseAt(fraction, step, i), both) :: PhaseAt(fraction, step, i + 1).Floor <= len
  }

  /** That is where the phase of a call ends: inside the queue, if and only if its steps stay inside. */
  lemma EndsInsideIff<F>(at: Interpolator<F>, both: bool, q: seq<F>, fraction: real, n: nat, step: real)
    requires 0.0 <= fraction < 1.0 && step >= 0.0
    ensures PhaseAt(fraction, step, |Taken(at, both, q, fraction, step, n)|).Floor <= |q|
            <==> StepsStayInside(|q|, fraction, n, step, both)
  {
    var k := |Taken(at, both, q, fraction, step, n)|;
    TakenAt(at, both, q, fraction, step, n, k);
    if StepsStayInside(|q|, fraction, n, step, both) && k > 0 {
      TakenAt(at, both, q, fraction, step, n, k - 1);
    }
    if PhaseAt(fraction, step, k).Floor <= |q| {
      forall i | 0 <= i < n && !Starved(|q|, PhaseAt(fraction, step, i), both)
        ensures PhaseAt(fraction, step, i + 1).Floor <= |q|
      {
        if k <= i {
          PhaseAtGrows(fraction, step, k, i);
          StarvedGrows(|q|, PhaseAt(fraction, step, k), PhaseAt(fraction, step, i), both);
        } else {
          PhaseAtGrows(fraction, step, i + 1, k);
        }
      }
    }
  }

  /**
   * Queue and phase together move by exactly one step per frame produced if and only if no step from a phase
   * with a frame under it passes the end of the queue, where the output ring cuts the whole frames off.
   */
  lemma PullMovesByProducedSteps<F>(at: Interpolator<F>, both: bool, q: seq<F>, fraction: real, n: nat, step: real)
    requires 0.0 <= fraction < 1.0 && step >= 0.0
    ensures var r := PullFrames(at, both, q, fraction, n, step);
            (|q| - |r.rest|) as real + r.fraction == PhaseAt(fraction, step, |r.frames|)
            <==> StepsStayInside(|q|, fraction, n, step, both)
  {
    var frames := Taken(at, both, q, fraction, step, n);
    LeaveMoves(frames, q, PhaseAt(fraction, step, |frames|));
    EndsInsideIff(at, both, q, fraction, n, step);
  }

  /** A step of at most one frame never passes the end. */
  lemma ShortStepsStayInside(len: nat, fraction: real, n: nat, step: real, both: bool)
    requires 0.0 <= fraction < 1.0 && 0.0 <= step <= 1.0
    ensures StepsStayInside(len, fraction, n, step, both)
  {
    forall i | 0 <= i < n && !Starved(len, PhaseAt(fraction, step, i), both)
      ensures PhaseAt(fraction, step, i + 1).Floor <= len
    {
      assert PhaseAt(fraction, step, i + 1) == PhaseAt(fraction, step, i) + step;
    }
  }

  // ------------------------------------------------------------------ AudioOutputRing's interpolation

  /** One sample per channel. */
  type Frame = seq<real>

  function Lerp(a: Frame, b: Frame, f: real): Frame {
    seq(Min(|a|, |b|), c requires 0 <= c < Min(|a|, |b|) => a[c] + f * (b[c] - a[c]))
  }

  /** Every channel stands the fraction f of the way from a to b, and between them. */
  lemma LerpIsOnTheLine(a: Frame, b: Frame, f: real, c: nat)
    requires |a| == |b| && c < |a| && 0.0 <= f <= 1.0
    ensures |Lerp(a, b, f)| == |a| && Lerp(a, b, f)[c] == (1.0 - f) * a[c] + f * b[c]
    ensures a[c] <= Lerp(a, b, f)[c] <= b[c] || b[c] <= Lerp(a, b, f)[c] <= a[c]
  {
    var r, d := Lerp(a, b, f)[c], b[c] - a[c];
    assert r == a[c] + f * d;
    if d >= 0.0 { assert 0.0 <= f * d <= d; } else { assert d <= f * d <= 0.0; }
  }

  /** The last queued frame stands in for a missing neighbour. */
  function LerpAt(q: seq<Frame>, phase: real): Frame {
    var i := phase.Floor;
    if phase < 0.0 || i >= |q| then []
    else Lerp(q[i], q[if Frac(phase) > 0.0 && i + 1 < |q| then i + 1 else i], Frac(phase))
  }

  lemma LerpAtShifts()
    ensures ShiftInvariant(LerpAt)
  {
    forall q: seq<Frame>, c: nat, phase: real | phase >= 0.0 && c <= |q|
      ensures LerpAt(q, phase + c as real) == LerpAt(q[c..], phase)
    {
      FloorShift(phase, c);
      var i := phase.Floor;
      if i < |q| - c {
        assert q[c..][i] == q[i + c];
        if i + 1 < |q| - c { assert q[c..][i + 1] == q[i + c + 1]; }
      }
    }
  }

  /** AudioOutputRing::readResampled on a queue. */
  function ReadResampled(q: seq<Frame>, fraction: real, n: nat, step: real): Pull<Frame>
    requires fraction >= 0.0 && step >= 0.0
  {
    PullFrames(LerpAt, false, q, fraction, n, step)
  }

  /** At any phase inside the queue, each channel is the weighted mean of the frame there and the next, if there is one. */
  lemma LerpAtIsTheWeightedMean(q: seq<Frame>, phase: real, c: nat)
    requires phase >= 0.0 && phase < |q| as real && (forall i | 0 <= i < |q| :: c < |q[i]| == |q[0]|)
    ensures var i := phase.Floor;
            0 <= i < |q| && |LerpAt(q, phase)| == |q[0]| &&
            var f := phase - i as real;
            LerpAt(q, phase)[c] == if i + 1 < |q| then (1.0 - f) * q[i][c] + f * q[i + 1][c] else q[i][c]
  {
    var i := phase.Floor;
    LerpIsOnTheLine(q[i], q[if Frac(phase) > 0.0 && i + 1 < |q| then i + 1 else i], Frac(phase), c);
  }

  lemma StarvedAtTheEnd(len: nat, phase: real)
    requires phase >= 0.0
    ensures Starved(len, phase, false) <==> phase >= len as real
    ensures Starved(len, phase, true) <==> phase > len as real - 1.0
  {
  }

  /** A read gives all n frames if and only if the last one's phase is inside the queue. */
  lemma ReadsAllIff(q: seq<Frame>, fraction: real, n: nat, step: real)
    requires fraction >= 0.0 && step >= 0.0
    ensures |ReadResampled(q, fraction, n, step).frames| == n <==> n == 0 || PhaseAt(fraction, step, n - 1) < |q| as real
  {
    TakenInFullIff(LerpAt, false, q, fraction, step, n);
    if n > 0 { StarvedAtTheEnd(|q|, PhaseAt(fraction, step, n - 1)); }
  }

  /** Per frame produced, a read moves by the given step if that is from 0.5 to 1.5, and by one frame otherwise. */
  lemma ReadTakesTheGivenStep(q: seq<Frame>, fraction: real, n: nat, sourceStep: real)
    requires fraction >= 0.0
    ensures var r := ReadResampled(q, fraction, n, EffectiveStep(sourceStep));
            var step := if 0.5 <= sourceStep <= 1.5 then sourceStep else 1.0;
            && StandsAt(q, r.rest, r.fraction, PhaseAt(fraction, step, |r.frames|))
            && (|r.frames| == n <==> n == 0 || PhaseAt(fraction, step, n - 1) < |q| as real)
  {
    var step := EffectiveStep(sourceStep);
    var frames := Taken(LerpAt, false, q, fraction, step, n);
    GivenStep(sourceStep);
    LeaveStands(frames, q, PhaseAt(fraction, step, |frames|));
    ReadsAllIff(q, fraction, n, step);
  }

  /** Reading n and then m frames off the output ring at one step is reading n + m. */
  lemma ReadInChunks(q: seq<Frame>, fraction: real, n: nat, m: nat, step: real)
    requires 0.0 <= fraction < 1.0 && step >= 0.0
    ensures var a := ReadResampled(q, fraction, n, step);
            var b := ReadResampled(a.rest, a.fraction, m, step);
            ReadResampled(q, fraction, n + m, step) == Pull(a.frames + b.frames, b.rest, b.fraction)
  {
    LerpAtShifts();
    PullInChunks(LerpAt, false, q, fraction, n, m, step);
  }

  lemma LerpAtWhole(q: seq<Frame>, i: nat)
    requires i < |q|
    ensures LerpAt(q, i as real) == q[i]
  {
    assert (i as real).Floor == i && Frac(i as real) == 0.0;
  }

  lemma {:induction false} UnitStepTakes(q: seq<Frame>, i: nat, n: nat)
    requires i <= |q|
    ensures Taken(LerpAt, false, q, i as real, 1.0, n) == q[i..i + Min(n, |q| - i)]
    decreases n
  {
    if n > 0 && i < |q| {
      UnitStepTakes(q, i + 1, n - 1);
      LerpAtWhole(q, i);
      var k := Min(n, |q| - i);
      assert (i as real).Floor == i && (i + 1) as real == i as real + 1.0;
      assert [q[i]] + q[i + 1..i + k] == q[i..i + k];
    }
  }

  lemma {:induction false} UnitPhase(i: nat)
    ensures PhaseAt(0.0, 1.0, i) == i as real
  {
    if i > 0 { UnitPhase(i - 1); }
  }

  /** At unit step and zero phase the resampler is the plain read. */
  lemma UnitStepIsPlainRead(q: seq<Frame>, n: nat)
    ensures ReadResampled(q, 0.0, n, 1.0) == Pull(q[..Min(n, |q|)], q[Min(n, |q|)..], 0.0)
  {
    UnitStepTakes(q, 0, n);
    UnitPhase(Min(n, |q|));
  }

  /** One queued frame, phase 0.75, step 1.5: one frame comes out, and queue and phase end at 1.25 where the step leads to 2.25. */
  lemma LastStepCanBeCutOff(f: Frame)
    ensures var r := ReadResampled([f], 0.75, 1, 1.5);
            |r.frames| == 1 && r.rest == [] && r.fraction == 0.25
            && (|[f]| - |r.rest|) as real + r.fraction == 1.25 && PhaseAt(0.75, 1.5, 1) == 2.25
  {
    assert 0.75.Floor == 0 && 2.25.Floor == 2;
    assert Taken(LerpAt, false, [f], 2.25, 1.5, 0) == [];
    assert Taken(LerpAt, false, [f], 0.75, 1.5, 1) == [LerpAt([f], 0.75)];
  }
}
