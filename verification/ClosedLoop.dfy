/**
 * The output path as a control loop: the mixer writes into the ring, packets draw from it at a step that
 * grows with the queue. Whatever the order of writes, packets and time, the ring never fills.
 */
module ClosedLoop {
  import opened RingIndex
  import opened Resampling
  import opened FeedbackWindow
  import opened OutputPackets
  import opened AudioPacketPolicy
  import opened PacketSchedule

  const CAPACITY: nat := 16384
  const RATE: nat := 44100
  const BURST := 8192.0
  const REFILL := 44.2

  /** Queue and phase of the ring; the mixer's tokens; and, since the last millisecond began, time and frames sent. */
  datatype State = State(queue: seq<Frame>, fraction: real, tokens: real, elapsed: real, sent: nat)

  datatype Event = Write(frames: seq<Frame>) | Send(n: nat, measured: nat) | Pass(dt: real) | Millisecond

  /** The mixer spends its tokens; a millisecond ends only once its packet group of at least 44 frames is out. */
  predicate Enabled(s: State, e: Event) {
    match e
    case Write(frames) => |frames| as real <= s.tokens
    case Send(n, _) => n <= MAX_FRAMES && s.fraction >= 0.0
    case Pass(dt) => dt >= 0.0 && s.elapsed + dt <= 1.0
    case Millisecond => s.sent >= 44
  }

  function StepFor(s: State, measured: nat): (step: real)
    ensures 0.995 <= step <= 1.005
  {
    SourceStep(RATE, measured, |s.queue|)
  }

  function Apply(s: State, e: Event): State
    requires Enabled(s, e)
  {
    match e
    case Write(frames) =>
      s.(queue := s.queue + frames[..Accepted(s, frames)], tokens := s.tokens - |frames| as real)
    case Send(n, measured) =>
      var end := Draw(s.queue, s.fraction, n, StepFor(s, measured));
      s.(queue := end.rest, fraction := end.fraction, sent := s.sent + n)
    case Pass(dt) =>
      s.(tokens := if s.tokens + REFILL * dt <= BURST then s.tokens + REFILL * dt else BURST, elapsed := s.elapsed + dt)
    case Millisecond => s.(elapsed := 0.0, sent := 0)
  }

  /** AudioOutputRing::write takes what fits. */
  function Accepted(s: State, frames: seq<Frame>): (n: nat)
    ensures n <= |frames|
  {
    if |s.queue| >= CAPACITY then 0 else Min(|frames|, CAPACITY - |s.queue|)
  }

  predicate Start(s: State) {
    |s.queue| <= 6700 && 0.0 <= s.fraction < 1.0 && 0.0 <= s.tokens <= BURST && s.elapsed == 0.0 && s.sent == 0
  }

  /** Frames in the ring, frames the mixer may still write, less the refill already had, plus the drain it pays for. */
  function Potential(s: State): real {
    |s.queue| as real - s.fraction + s.tokens - REFILL * s.elapsed + REFILL / 44.0 * Min(s.sent, 44) as real
  }

  ghost predicate Inv(s: State) {
    && 0.0 <= s.fraction < 1.0 && 0.0 <= s.tokens <= BURST && 0.0 <= s.elapsed <= 1.0
    && Potential(s) <= 6700.0 + BURST
  }

  lemma {:induction false} PhaseBetween(fraction: real, step: real, n: nat, lo: real)
    requires fraction >= 0.0 && 0.0 <= lo <= step <= 1.005 && (lo == 1.0049 || lo == 0.0)
    ensures fraction + n as real * lo <= PhaseAt(fraction, step, n) <= fraction + n as real * 1.005
  {
    if n > 0 { PhaseBetween(fraction, step, n - 1, lo); }
  }

  /** With enough frames queued a packet is complete. */
  lemma {:induction false} TakenInFull<F>(at: Interpolator<F>, q: seq<F>, phase: real, step: real, n: nat)
    requires phase >= 0.0 && step > 0.0 && PhaseAt(phase, step, n) <= |q| as real
    ensures |Taken(at, false, q, phase, step, n)| == n
    decreases n
  {
    if n > 0 {
      PhaseAtSucc(phase, step, n - 1);
      PhaseAtGrows(phase + step, step, 0, n - 1);
      TakenInFull(at, q, phase + step, step, n - 1);
    }
  }

  /** A full packet takes its steps off the queue exactly. */
  lemma DrawInFull(q: seq<Frame>, fraction: real, n: nat, step: real)
    requires 0.0 <= fraction < 1.0 && 0.0 < step && PhaseAt(fraction, step, n) <= |q| as real
    ensures var end := Draw(q, fraction, n, step);
            |end.rest| as real - end.fraction == |q| as real - PhaseAt(fraction, step, n)
  {
    TakenInFull(LerpAt, q, fraction, step, n);
    LeaveMoves(Taken(LerpAt, false, q, fraction, step, n), q, PhaseAt(fraction, step, n));
  }

  lemma DrawShrinks(q: seq<Frame>, fraction: real, n: nat, step: real)
    requires fraction >= 0.0 && step >= 0.0
    ensures |Draw(q, fraction, n, step).rest| <= |q|
  {
  }

  /** From 6596 queued frames on the trim is at its limit, whatever the measured clock. */
  lemma HighQueueDrains(queued: nat, measured: nat)
    requires queued >= 6596
    ensures SourceStep(RATE, measured, queued) >= 1.0049
  {
    var base := BaseStep(RATE, measured);
    assert Trim(queued) == 0.005;
    BaseIsNearOne(EffectiveClock(measured) as real, base);
    ProductMonotone(1.005, 0.99999, base);
    assert base * 1.005 == 1.005 * base;
  }

  lemma BaseIsNearOne(clock: real, base: real)
    requires 44100000.0 <= clock <= 44100300.0 && base == RATE as real * 1000.0 / clock
    ensures base >= 0.99999
  {
    assert base * clock == 44100000.0;
    if base < 0.99999 {
      ProductMonotone(clock, base, 0.99999);
    }
  }

  lemma DrawDrains(q: seq<Frame>, fraction: real, n: nat, step: real)
    requires 0.0 <= fraction < 1.0 && 1.0049 <= step <= 1.005 && n <= MAX_FRAMES && |q| >= 6596
    ensures var end := Draw(q, fraction, n, step);
            |end.rest| as real - end.fraction <= |q| as real - fraction - n as real * 1.0049
  {
    var end := PhaseAt(fraction, step, n);
    var least := fraction + n as real * 1.0049;
    assert least <= end <= |q| as real by {
      PhaseBetween(fraction, step, n, 1.0049);
      assert n as real * 1.005 <= 20.0;
    }
    DrawInFull(q, fraction, n, step);
  }

  /** In a long queue a packet drains at least what its frames earn in refill. */
  lemma SendFromLongQueue(s: State, n: nat, measured: nat)
    requires Inv(s) && n <= MAX_FRAMES && |s.queue| >= 6596
    ensures var end := Draw(s.queue, s.fraction, n, StepFor(s, measured));
            |end.rest| as real - end.fraction <= |s.queue| as real - s.fraction - n as real * 1.0049
  {
    HighQueueDrains(|s.queue|, measured);
    DrawDrains(s.queue, s.fraction, n, StepFor(s, measured));
  }

  lemma RefillPerFrame(sent: nat, n: nat)
    ensures REFILL / 44.0 * Min(sent + n, 44) as real <= REFILL / 44.0 * Min(sent, 44) as real + n as real * 1.0049
    ensures REFILL / 44.0 * Min(sent + n, 44) as real <= REFILL
  {
  }

  lemma PacketKeepsInv(s: State, n: nat, measured: nat)
    requires Inv(s) && Enabled(s, Send(n, measured))
    ensures Inv(Apply(s, Send(n, measured)))
  {
    RefillPerFrame(s.sent, n);
    if |s.queue| >= 6596 {
      SendFromLongQueue(s, n, measured);
    } else {
      DrawShrinks(s.queue, s.fraction, n, StepFor(s, measured));
    }
  }

  lemma EventKeepsInv(s: State, e: Event)
    requires Inv(s) && Enabled(s, e)
    ensures Inv(Apply(s, e))
  {
    if e.Send? { PacketKeepsInv(s, e.n, e.measured); }
  }

  ghost predicate Run(states: seq<State>, events: seq<Event>) {
    && |states| == |events| + 1 && Start(states[0])
    && forall i | 0 <= i < |events| :: Enabled(states[i], events[i]) && states[i + 1] == Apply(states[i], events[i])
  }

  lemma {:induction false} InvOfEveryRun(states: seq<State>, events: seq<Event>, n: nat)
    requires Run(states, events) && n <= |events|
    ensures Inv(states[n])
  {
    if n > 0 {
      InvOfEveryRun(states, events, n - 1);
      EventKeepsInv(states[n - 1], events[n - 1]);
    }
  }

  /** On every run from at most 6700 queued frames, every write is taken whole and the ring is never full. */
  lemma NoWriteIsEverShort(states: seq<State>, events: seq<Event>, n: nat)
    requires Run(states, events) && n <= |events|
    ensures |states[n].queue| < CAPACITY
    ensures n < |events| && events[n].Write? ==>
              Accepted(states[n], events[n].frames) == |events[n].frames|
              && states[n + 1].queue == states[n].queue + events[n].frames
  {
    InvOfEveryRun(states, events, n);
  }

  /** What a Send does to queue and phase is what drawing a packet does, with the step a packet uses. */
  lemma SendIsThePacketDrawn(s: State, n: nat, measured: nat, schedule: Schedule)
    requires Enabled(s, Send(n, measured))
    ensures var source := PacketFrom(schedule, s.queue, s.fraction, n, RATE, measured).0;
            var t := Apply(s, Send(n, measured));
            source == Source(schedule, t.queue, t.fraction)
  {
    GivenStep(StepFor(s, measured));
  }

  /** Packets of up to 13 frames may be sent, tokens spent and time passed at any point of a run. */
  lemma NothingElseIsExcluded(s: State, n: nat, measured: nat, frames: seq<Frame>, dt: real)
    requires Inv(s)
    ensures Enabled(s, Send(n, measured)) <==> n <= 13
    ensures Enabled(s, Write(frames)) <==> |frames| as real <= s.tokens
    ensures dt >= 0.0 ==> (Enabled(s, Pass(dt)) <==> s.elapsed + dt <= 1.0)
    ensures Enabled(s, Millisecond) <==> s.sent >= 44
  {
  }
}
