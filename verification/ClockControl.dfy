/** NS6ClockControl in its fixed and adaptive builds (without the feedback-pattern scheduler). */
module ClockControl {
  import opened FeedbackWindow

  datatype Mode = Fixed | Adaptive

  const NOMINAL: nat := 44100000
  const MINIMUM: nat := 44000000
  const MAXIMUM: nat := 44100300
  const MILLION: nat := 1000000

  /** ns6_clock_control_output_rate_millihz. */
  function OutputRate(mode: Mode, locked: bool, rate: nat): (r: nat)
    ensures mode == Fixed || !locked || rate == 0 ==> r == 44100000
    ensures 44000000 <= r <= 44100300
    ensures mode == Adaptive && locked && rate > 0 ==>
              r == if rate < 44000000 then 44000000 else if rate > 44100300 then 44100300 else rate
  {
    if mode == Fixed then NOMINAL
    else
      var wanted := if locked && rate != 0 then rate else NOMINAL;
      if wanted < MINIMUM then MINIMUM else if wanted > MAXIMUM then MAXIMUM else wanted
  }

  /** ns6_clock_control_source_frames_per_output_frame. */
  function SourceStep(measured: nat, queued: nat): (s: real)
    requires measured > 0
    ensures 0.995 <= s <= 1.005
  {
    Scaled(NOMINAL as real / measured as real, 1.0 + Trim(queued))
  }

  function Trim(queued: nat): (t: real)
    ensures -0.005 <= t <= 0.005
  {
    var t := (queued as real - 4096.0) * 0.000001;
    if t > 0.005 then 0.005 else if t < -0.005 then -0.005 else t
  }

  function Bounded(s: real): (r: real)
    ensures 0.995 <= r <= 1.005
  {
    if s > 1.005 then 1.005 else if s < 0.995 then 0.995 else s
  }

  function Scaled(base: real, factor: real): (r: real)
    ensures 0.995 <= r <= 1.005
  {
    Bounded(base * factor)
  }

  /** A longer queue is never drained more slowly. */
  lemma SourceStepMonotone(measured: nat, a: nat, b: nat)
    requires measured > 0 && a <= b
    ensures SourceStep(measured, a) <= SourceStep(measured, b)
  {
    ScaledMonotone(NOMINAL as real / measured as real, 1.0 + Trim(a), 1.0 + Trim(b));
  }

  lemma ScaledMonotone(base: real, x: real, y: real)
    requires base >= 0.0 && x <= y
    ensures Scaled(base, x) <= Scaled(base, y)
  {
    ProductMonotone(base, x, y);
    BoundedMonotone(base * x, base * y);
  }

  lemma BoundedMonotone(s: real, t: real)
    requires s <= t
    ensures Bounded(s) <= Bounded(t)
  {
  }

  // ------------------------------------------------------------------ what the trim regulates to

  lemma BaseBalances(measured: nat)
    requires 44000000 <= measured <= 44100300
    ensures var base := NOMINAL as real / measured as real; base * measured as real == 44100000.0 && 0.995 < base < 1.005
  {
    var base := NOMINAL as real / measured as real;
    assert base * measured as real == 44100000.0;
    if base <= 0.995 { ProductMonotone(measured as real, base, 0.995); }
    if base >= 1.005 { ProductMonotone(measured as real, 1.005, base); }
  }

  lemma ScaledSides(base: real, trim: real, clock: real)
    requires 0.995 < base < 1.005 && clock > 0.0
    ensures var s := Scaled(base, 1.0 + trim) * clock;
            (s == base * clock <==> trim == 0.0) && (s > base * clock <==> trim > 0.0) && (s < base * clock <==> trim < 0.0)
  {
    var scaled, s := base * (1.0 + trim), Scaled(base, 1.0 + trim);
    assert scaled == base + base * trim;
    assert (base * trim > 0.0 <==> trim > 0.0) && (base * trim < 0.0 <==> trim < 0.0) && (base * trim == 0.0 <==> trim == 0.0);
    assert s * clock - base * clock == (s - base) * clock;
    assert ((s - base) * clock > 0.0 <==> s > base) && ((s - base) * clock < 0.0 <==> s < base);
  }

  /** At every output rate the step balances the nominal rate at 4096 queued frames, and lies above it for more, below for fewer. */
  lemma TrimPullsToTheTarget(measured: nat, queued: nat)
    requires 44000000 <= measured <= 44100300
    ensures var drained := SourceStep(measured, queued) * measured as real;
            && (drained == 44100000.0 <==> queued == 4096)
            && (drained > 44100000.0 <==> queued > 4096) && (drained < 44100000.0 <==> queued < 4096)
  {
    BaseBalances(measured);
    ScaledSides(NOMINAL as real / measured as real, Trim(queued), measured as real);
  }

  /** Inside the band each further frame raises the step by one millionth of the balance; from 9096 frames on it stays. */
  lemma TrimSlope(measured: nat, queued: nat)
    requires 44000000 <= measured <= 44100300
    ensures queued < 9096 && 0.995 < SourceStep(measured, queued) && SourceStep(measured, queued + 1) < 1.005 ==>
              SourceStep(measured, queued + 1) * measured as real == SourceStep(measured, queued) * measured as real + 44.1
    ensures queued >= 9096 ==> SourceStep(measured, queued) == SourceStep(measured, 9096)
  {
    var base, trim := NOMINAL as real / measured as real, Trim(queued);
    BaseBalances(measured);
    if queued < 9096 && 0.995 < SourceStep(measured, queued) && SourceStep(measured, queued + 1) < 1.005 {
      SourceStepMonotone(measured, queued, queued + 1);
      assert Trim(queued + 1) == trim + 0.000001;
      var a, b := SourceStep(measured, queued), SourceStep(measured, queued + 1);
      assert a == base * (1.0 + trim) && b == base * (1.0 + trim + 0.000001);
      SlopeOf(base, 1.0 + trim, measured as real, a, b);
    }
  }

  lemma SlopeOf(base: real, factor: real, clock: real, a: real, b: real)
    requires a == base * factor && b == base * (factor + 0.000001)
    ensures b * clock == a * clock + base * clock * 0.000001
  {
    assert b == a + base * 0.000001;
  }

  /** Frames sent in the first n milliseconds of the fixed build, and the tenths of a frame left over. */
  predicate FixedCadence(n: nat, sent: nat, fraction: nat) {
    fraction == n % 10 * 100 && sent == 441 * n / 10
  }

  /** What the adaptive build has sent so far and carries over is, to the millionth, what the rates asked for. */
  predicate AdaptiveCadence(rates: seq<nat>, sent: nat, fraction: nat) {
    fraction < MILLION && MILLION * sent + fraction == Sum(rates)
  }

  lemma FixedStep(n: nat, sent: nat, fraction: nat)
    requires FixedCadence(n, sent, fraction)
    ensures FixedCadence(n + 1, sent + (if fraction >= 900 then 45 else 44), (fraction + 100) % 1000)
  {
    TenthsOfFrames(n);
    TenthsOfFrames(n + 1);
  }

  lemma AdaptiveStep(rates: seq<nat>, sent: nat, fraction: nat, rate: nat, frames: nat, fraction': nat)
    requires AdaptiveCadence(rates, sent, fraction)
    requires fraction' < MILLION && MILLION * frames + fraction' == fraction + rate
    ensures AdaptiveCadence(rates + [rate], sent + frames, fraction')
  {
    SumAppend(rates, rate);
  }

  /** So after any history of rates the frames sent are the whole frames asked for, never off by one. */
  lemma AdaptiveTotalIsFloorOfRates(rates: seq<nat>, sent: nat, fraction: nat)
    requires AdaptiveCadence(rates, sent, fraction)
    ensures sent == Sum(rates) / MILLION && fraction == Sum(rates) % MILLION
  {
  }

  /** The packets of a millisecond: the first k of them carry k eighths of its frames, rounded down. */
  ghost predicate SpreadEvenly(packets: seq<nat>, frames: nat) {
    |packets| == 8 && forall k | 0 <= k <= 8 :: Sum(packets[..k]) == Quota(frames, 8, k)
  }

  /** That is k times the whole frames per packet plus the remainder's share; all eight carry everything. */
  lemma SpreadInBaseAndRemainder(packets: seq<nat>, frames: nat, k: nat)
    requires SpreadEvenly(packets, frames) && k <= 8
    ensures Sum(packets[..k]) == k * (frames / 8) + k * (frames % 8) / 8
    ensures Sum(packets) == frames
  {
    assert packets[..8] == packets;
    var whole, part := k * (frames / 8), k * (frames % 8);
    assert k * frames == whole * 8 + part;
  }

  /** Splits a millisecond over eight packets with a running remainder. */
  method Spread(frames: nat) returns (packets: seq<nat>)
    ensures SpreadEvenly(packets, frames)
  {
    var base, remainder := frames / 8, frames % 8;
    var accumulator := 0;
    packets := [];
    for packet := 0 to 8
      invariant |packets| == packet && accumulator == packet * frames % 8
      invariant forall k | 0 <= k <= packet :: Sum(packets[..k]) == Quota(frames, 8, k)
    {
      var size := base;
      accumulator := accumulator + remainder;
      if accumulator >= 8 {
        size := size + 1;
        accumulator := accumulator - 8;
      }
      QuotaStep(frames, 8, packet);
      PrefixSums(packets, size);
      packets := packets + [size];
    }
  }

  lemma PrefixSums(packets: seq<nat>, size: nat)
    ensures Sum((packets + [size])[..|packets| + 1]) == Sum(packets[..|packets|]) + size
    ensures forall k | 0 <= k <= |packets| :: (packets + [size])[..k] == packets[..k]
  {
    SumAppend(packets, size);
    assert packets[..|packets|] == packets && (packets + [size])[..|packets| + 1] == packets + [size];
  }

  function Limited(frames: nat): nat { if frames < 40 then 40 else if frames > 48 then 48 else frames }

  class Control {
    const mode: Mode
    var window: Window
    var rateMilliHz: nat
    var requestedTotal: nat
    var sentTotal: nat
    var fixedFraction: nat
    var adaptiveFraction: nat
    var locked: bool
    var targetFramesPerMs: nat

    // Since the last reset: the valid reports, and the output rate used for each millisecond prepared.
    ghost var observed: seq<nat>
    ghost var rates: seq<nat>

    ghost predicate Valid()
      reads this
    {
      Observations() && Cadence()
    }

    ghost predicate Observations()
      reads this`window, this`observed, this`rateMilliHz, this`requestedTotal, this`locked, this`targetFramesPerMs
    {
      && WindowOk()
      && requestedTotal == Sum(observed)
      && locked == (observed != [])
      && targetFramesPerMs == (if observed == [] then 44 else observed[|observed| - 1])
    }

    ghost predicate WindowOk()
      reads this`window, this`observed, this`rateMilliHz
    {
      && Tracks(window, observed)
      && rateMilliHz == (if |observed| < WINDOW then NOMINAL else 25 * Sum(Last(observed, WINDOW)))
    }

    ghost predicate Cadence()
      reads this`rates, this`sentTotal, this`fixedFraction, this`adaptiveFraction
    {
      if mode == Fixed then FixedCadence(|rates|, sentTotal, fixedFraction)
      else AdaptiveCadence(rates, sentTotal, adaptiveFraction)
    }

    constructor (mode: Mode)
      ensures Valid() && this.mode == mode && observed == [] && rates == []
    {
      this.mode := mode;
      window, rateMilliHz := EmptyWindow(), NOMINAL;
      requestedTotal, sentTotal, fixedFraction, adaptiveFraction := 0, 0, 0, 0;
      locked, targetFramesPerMs := false, 44;
      observed, rates := [], [];
      EmptyTracks();
    }

    method ResetFeedback()
      modifies this
      ensures Valid() && observed == [] && rates == []
    {
      window, rateMilliHz := EmptyWindow(), NOMINAL;
      requestedTotal, sentTotal, fixedFraction, adaptiveFraction := 0, 0, 0, 0;
      locked, targetFramesPerMs := false, 44;
      observed, rates := [], [];
      EmptyTracks();
    }

    method Observe(framesPerMs: nat)
      requires Observations()
      modifies this`window, this`observed, this`rateMilliHz, this`requestedTotal, this`locked, this`targetFramesPerMs
      ensures Observations()
      ensures observed == old(observed) + if ValidReport(framesPerMs) then [framesPerMs] else []
    {
      if ValidReport(framesPerMs) {
        Count(framesPerMs);
        ObserveWindow(framesPerMs);
      }
    }

    method Count(v: nat)
      requires requestedTotal == Sum(observed)
      modifies this`requestedTotal, this`locked, this`targetFramesPerMs
      ensures requestedTotal == Sum(observed + [v]) && locked && targetFramesPerMs == v
    {
      SumAppend(observed, v);
      targetFramesPerMs := v;
      requestedTotal := requestedTotal + v;
      locked := true;
    }

    method ObserveWindow(v: nat)
      requires WindowOk()
      modifies this`window, this`rateMilliHz, this`observed
      ensures WindowOk() && observed == old(observed) + [v]
    {
      ObserveTracks(window, observed, v);
      window := FeedbackWindow.Observe(window, v);
      if window.count == WINDOW {
        rateMilliHz := window.sum * MILLION / WINDOW;
      }
      observed := observed + [v];
    }

    /** The adaptive branch: whole frames of the rate, plus one when the millionths add up. */
    method AdaptiveFrames(rate: nat) returns (frames: nat)
      requires adaptiveFraction < MILLION && MINIMUM <= rate <= MAXIMUM
      modifies this`adaptiveFraction
      ensures frames == 44 || frames == 45
      ensures adaptiveFraction < MILLION
      ensures MILLION * frames + adaptiveFraction == old(adaptiveFraction) + rate
    {
      frames := rate / MILLION;
      adaptiveFraction := adaptiveFraction + rate % MILLION;
      if adaptiveFraction >= MILLION {
        adaptiveFraction := adaptiveFraction - MILLION;
        frames := frames + 1;
      }
      frames := Limited(frames);
    }

    method FixedFrames() returns (frames: nat)
      requires fixedFraction < 1000
      modifies this`fixedFraction
      ensures frames == if old(fixedFraction) >= 900 then 45 else 44
      ensures fixedFraction == (old(fixedFraction) + 100) % 1000
    {
      fixedFraction := fixedFraction + 100;
      frames := 44;
      if fixedFraction >= 1000 {
        fixedFraction := fixedFraction - 1000;
        frames := frames + 1;
      }
    }

    /** Prepares the packets of one millisecond and accounts for the rate they realise. */
    method NextMillisecond() returns (packets: seq<nat>)
      requires Valid()
      modifies this`rates, this`sentTotal, this`fixedFraction, this`adaptiveFraction
      ensures Valid()
      ensures rates == old(rates) + [OutputRate(mode, locked, rateMilliHz)]
      ensures sentTotal == old(sentTotal) + Sum(packets) && SpreadEvenly(packets, Sum(packets))
      ensures Sum(packets) == 44 || Sum(packets) == 45
    {
      var rate := OutputRate(mode, locked, rateMilliHz);
      var frames;
      if mode == Adaptive {
        frames := AdaptiveFrames(rate);
        AdaptiveStep(rates, sentTotal, old(adaptiveFraction), rate, frames, adaptiveFraction);
      } else {
        FixedStep(|rates|, sentTotal, fixedFraction);
        frames := FixedFrames();
      }
      packets := Spread(frames);
      SpreadInBaseAndRemainder(packets, frames, 8);
      rates := rates + [rate];
      sentTotal := sentTotal + frames;
    }

    /** ns6_clock_control_source_frames_per_output_frame: nominal at 4096 queued frames, at whatever rate is output. */
    method SourceFramesPerOutputFrame(queued: nat) returns (step: real)
      ensures step == SourceStep(OutputRate(mode, locked, rateMilliHz), queued)
      ensures queued == 4096 ==> step * OutputRate(mode, locked, rateMilliHz) as real == 44100000.0
    {
      TrimPullsToTheTarget(OutputRate(mode, locked, rateMilliHz), queued);
      step := SourceStep(OutputRate(mode, locked, rateMilliHz), queued);
    }

    /** ns6_clock_control_debt. */
    method Debt() returns (debt: int)
      requires Valid()
      ensures debt == Sum(observed) - sentTotal
    {
      debt := if requestedTotal >= sentTotal then requestedTotal - sentTotal else -(sentTotal - requestedTotal);
    }
  }
}
