/**
 * readResampled and advanceResampled while the producer keeps writing: each look at the ring may fall at its own moment
 * of the call, and still the call is the resampled read of the frames that were waiting when it began.
 */
module SpscResampling {
  import opened RingIndex
  import opened Resampling
  import S = SpscRing

  /** What a look at one offset shows at each moment of time. */
  type Looks = (nat, nat) -> Frame

  /** The loop of readResampled from `phase` on, with output frame `made` and the later ones made by `frame`. */
  function Made<F>(frame: (nat, real) -> F, available: nat, phase: real, step: real, n: nat, made: nat): (out: seq<F>)
    requires phase >= 0.0 && step >= 0.0
    decreases n
  {
    if n == 0 || phase.Floor >= available then []
    else [frame(made, phase)] + Made(frame, available, phase + step, step, n - 1, made + 1)
  }

  lemma {:induction false} MadeIsTaken<F>(at: Interpolator<F>, frame: (nat, real) -> F, q: seq<F>, phase: real, step: real, n: nat, made: nat)
    requires phase >= 0.0 && step >= 0.0
    requires forall k: nat, p: real | p >= 0.0 && p.Floor < |q| :: frame(k, p) == at(q, p)
    ensures Made(frame, |q|, phase, step, n, made) == Taken(at, false, q, phase, step, n)
    decreases n
  {
    if n > 0 && phase.Floor < |q| { MadeIsTaken(at, frame, q, phase + step, step, n - 1, made + 1); }
  }

  /** Output frame `made` is interpolated from looks number 2 * made and 2 * made + 1, each at its own moment. */
  function LookedFrame(look: Looks, available: nat, made: nat, phase: real): Frame {
    if phase < 0.0 || phase.Floor >= available then []
    else
      var first := phase.Floor;
      var second := first + if Frac(phase) > 0.0 && first + 1 < available then 1 else 0;
      Lerp(look(2 * made, first), look(2 * made + 1, second), Frac(phase))
  }

  function Looked(look: Looks, available: nat, phase: real, step: real, n: nat): (out: seq<Frame>)
    requires phase >= 0.0 && step >= 0.0
  {
    Made((made: nat, p: real) => LookedFrame(look, available, made, p), available, phase, step, n, 0)
  }

  /** Every look shows the frame of q at that offset. */
  ghost predicate Shows(look: Looks, q: seq<Frame>) {
    forall k: nat, offset: nat | offset < |q| :: look(k, offset) == q[offset]
  }

  lemma TwoLooksInterpolate(look: Looks, q: seq<Frame>, made: nat, phase: real)
    requires phase >= 0.0 && phase.Floor < |q| && Shows(look, q)
    ensures LookedFrame(look, |q|, made, phase) == LerpAt(q, phase)
  {
    var second := phase.Floor + if Frac(phase) > 0.0 && phase.Floor + 1 < |q| then 1 else 0;
    assert look(2 * made, phase.Floor) == q[phase.Floor] && look(2 * made + 1, second) == q[second];
  }

  lemma LooksAtASnapshot(look: Looks, q: seq<Frame>, phase: real, step: real, n: nat)
    requires phase >= 0.0 && step >= 0.0 && Shows(look, q)
    ensures Looked(look, |q|, phase, step, n) == Taken(LerpAt, false, q, phase, step, n)
  {
    var frame := (made: nat, p: real) => LookedFrame(look, |q|, made, p);
    forall made: nat, p: real | p >= 0.0 && p.Floor < |q| ensures frame(made, p) == LerpAt(q, p) {
      TwoLooksInterpolate(look, q, made, p);
    }
    MadeIsTaken(LerpAt, frame, q, phase, step, n, 0);
  }

  type State = S.State<Frame>
  type Step = S.Step<Frame>

  /** Look number k falls at moment when(k) of the call from i to j. */
  ghost predicate Within(when: nat -> nat, i: nat, j: nat) { forall k: nat :: i < when(k) <= j }

  /** What the slot of an offset holds at a moment of the run. */
  function SlotAt(states: seq<State>, at: nat, r: nat, offset: nat): Frame {
    if at < |states| && |states[at].samples| > 0
    then states[at].samples[Slot(r + offset, |states[at].samples|)] else []
  }

  function LooksOf(states: seq<State>, when: nat -> nat, r: nat): Looks {
    (k: nat, offset: nat) => SlotAt(states, when(k), r, offset)
  }

  lemma LooksShowTheSnapshot(states: seq<State>, steps: seq<Step>, i: nat, j: nat, when: nat -> nat, r: nat)
    requires S.InCall(states, steps, i, j) && states[i].consumer.want == S.Resampled && S.SafeUpTo(states, j)
    requires Within(when, i, j) && states[i].released <= |states[i].accepted| && r == states[i].consumer.r
    ensures Shows(LooksOf(states, when, r), S.Waiting(states[i]))
  {
    var q := S.Waiting(states[i]);
    forall k: nat, offset: nat | offset < |q| ensures LooksOf(states, when, r)(k, offset) == q[offset] {
      LookShowsTheSnapshot(states, steps, i, j, when(k), offset);
    }
  }

  lemma LookShowsTheSnapshot(states: seq<State>, steps: seq<Step>, i: nat, j: nat, at: nat, offset: nat)
    requires S.InCall(states, steps, i, j) && states[i].consumer.want == S.Resampled && S.SafeUpTo(states, j) && i < at <= j
    requires states[i].released <= |states[i].accepted| && offset < |S.Waiting(states[i])|
    ensures SlotAt(states, at, states[i].consumer.r, offset) == S.Waiting(states[i])[offset]
  {
    S.CallStandsStill(states, steps, i, at);
    S.CallSeesASnapshot(states, steps, i, at);
    assert S.Shown(states[at], offset) == S.Waiting(states[i])[offset];
    assert S.Enabled(states[i], steps[i]) && states[i + 1] == S.Apply(states[i], steps[i]);
  }

  /**
   * Whatever the interleaving, and at whatever moments of the call the ring is looked at, the output of readResampled is
   * the resampled read of the frames that were waiting when the write counter was loaded.
   */
  lemma ConcurrentOutputIsTakenFromTheSnapshot(states: seq<State>, steps: seq<Step>, i: nat, j: nat, when: nat -> nat,
                                               fraction: real, n: nat, step: real)
    requires S.InCall(states, steps, i, j) && states[i].consumer.want == S.Resampled && S.SafeUpTo(states, j)
    requires Within(when, i, j) && fraction >= 0.0 && step >= 0.0
    ensures states[i].released <= |states[i].accepted| && states[j].consumer.Resampling?
    ensures var call := states[j].consumer;
            Looked(LooksOf(states, when, call.r), call.available, fraction, step, n)
            == Taken(LerpAt, false, S.Waiting(states[i]), fraction, step, n)
  {
    S.CallSeesASnapshot(states, steps, i, j);
    S.CallStandsStill(states, steps, i, j);
    assert S.Enabled(states[i], steps[i]) && states[i + 1] == S.Apply(states[i], steps[i]);
    var q, look := S.Waiting(states[i]), LooksOf(states, when, states[i].consumer.r);
    LooksShowTheSnapshot(states, steps, i, j, when, states[i].consumer.r);
    LooksAtASnapshot(look, q, fraction, step, n);
  }

  /**
   * A whole call of readResampled against a running producer: with what it consumes computed as the source does, output,
   * phase and queue are those of ReadResampled on the snapshot, and the frames that arrived meanwhile stand behind it.
   */
  lemma ConcurrentCallIsReadResampled(states: seq<State>, steps: seq<Step>, i: nat, j: nat, when: nat -> nat,
                                      fraction: real, n: nat, step: real, out: seq<Frame>, phase: real)
    requires S.InCall(states, steps, i, j) && states[i].consumer.want == S.Resampled && S.SafeUpTo(states, j)
    requires Within(when, i, j) && fraction >= 0.0 && step >= 0.0 && states[j].consumer.Resampling?
    requires var call := states[j].consumer;
             && out == Looked(LooksOf(states, when, call.r), call.available, fraction, step, n)
             && phase == PhaseAt(fraction, step, |out|)
             && j < |steps| && steps[j] == S.ResampleStore(Min(phase.Floor, call.available))
    ensures states[i].released <= |states[i].accepted| <= |states[j].accepted|
    ensures states[j + 1].released <= |states[j + 1].accepted|
    ensures var r := ReadResampled(S.Waiting(states[i]), fraction, n, step);
            && out == r.frames && Frac(phase) == r.fraction
            && S.Waiting(states[j + 1]) == r.rest + states[j].accepted[|states[i].accepted|..]
  {
    ConcurrentOutputIsTakenFromTheSnapshot(states, steps, i, j, when, fraction, n, step);
    S.CallSeesASnapshot(states, steps, i, j);
    S.StoreReleasesFromTheFront(states, steps, i, j);
  }

  /** advanceResampled against a running producer, in the same way. */
  lemma ConcurrentSkip(states: seq<State>, steps: seq<Step>, i: nat, j: nat, fraction: real, n: nat, step: real)
    requires S.InCall(states, steps, i, j) && states[i].consumer.want == S.Resampled && S.SafeUpTo(states, j)
    requires fraction >= 0.0 && step >= 0.0 && states[j].consumer.Resampling? && j < |steps|
    requires steps[j] == S.ResampleStore(Min(PhaseAt(fraction, step, n).Floor, states[j].consumer.available))
    ensures states[i].released <= |states[i].accepted| <= |states[j].accepted|
    ensures states[j + 1].released <= |states[j + 1].accepted|
    ensures S.Waiting(states[j + 1])
            == Skip(S.Waiting(states[i]), fraction, n, step).rest + states[j].accepted[|states[i].accepted|..]
  {
    S.CallSeesASnapshot(states, steps, i, j);
    S.StoreReleasesFromTheFront(states, steps, i, j);
  }

  /** For the driver's 16384 frames a call is ReadResampled on every run, of any length and with any calls before it. */
  lemma DriverRingResamplesForEver(states: seq<State>, steps: seq<Step>, i: nat, j: nat, when: nat -> nat,
                                   fraction: real, n: nat, step: real, out: seq<Frame>, phase: real)
    requires S.InCall(states, steps, i, j) && states[i].consumer.want == S.Resampled && |states[0].samples| == 16384
    requires Within(when, i, j) && fraction >= 0.0 && step >= 0.0 && states[j].consumer.Resampling?
    requires var call := states[j].consumer;
             && out == Looked(LooksOf(states, when, call.r), call.available, fraction, step, n)
             && phase == PhaseAt(fraction, step, |out|)
             && j < |steps| && steps[j] == S.ResampleStore(Min(phase.Floor, call.available))
    ensures states[i].released <= |states[i].accepted| <= |states[j].accepted|
    ensures states[j + 1].released <= |states[j + 1].accepted|
    ensures var r := ReadResampled(S.Waiting(states[i]), fraction, n, step);
            && out == r.frames && Frac(phase) == r.fraction
            && S.Waiting(states[j + 1]) == r.rest + states[j].accepted[|states[i].accepted|..]
  {
    S.DriverRingIsSafe(states, steps, j);
    ConcurrentCallIsReadResampled(states, steps, i, j, when, fraction, n, step, out, phase);
  }
}
