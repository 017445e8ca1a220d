/** AudioPacketPolicy: circular buffers and counters that realise the PacketSchedule. */
module AudioPacketPolicy {
  import opened RingIndex
  import opened FeedbackWindow
  import opened PacketSchedule

  const HISTORY: nat := 128
  const MINIMUM_RATE: nat := 44100000
  const MAXIMUM_RATE: nat := 44100300

  // ------------------------------------------------------------------ rate and trim

  function Clamp(x: real, lo: real, hi: real): (r: real)
    requires lo <= hi
    ensures lo <= r <= hi && (lo <= x <= hi ==> r == x) && (x < lo ==> r == lo) && (x > hi ==> r == hi)
  {
    if x < lo then lo else if x > hi then hi else x
  }

  function EffectiveClock(measured: nat): (r: nat)
    ensures 44100000 <= measured <= 44100300 ==> r == measured
    ensures (measured < 44100000 ==> r == 44100000) && (measured > 44100300 ==> r == 44100300)
  {
    if measured < MINIMUM_RATE then MINIMUM_RATE
    else if measured > MAXIMUM_RATE then MAXIMUM_RATE else measured
  }

  function Trim(queued: nat): (t: real)
    ensures -0.005 <= t <= 0.005
  {
    Clamp((queued as real - 4096.0) * 0.000002, -0.005, 0.005)
  }

  function BaseStep(sampleRateHz: nat, measured: nat): (b: real)
    ensures b >= 0.0
  {
    sampleRateHz as real * 1000.0 / EffectiveClock(measured) as real
  }

  /** Source frames to consume per output frame. */
  function SourceStep(sampleRateHz: nat, measured: nat, queued: nat): (s: real)
    ensures 0.995 <= s <= 1.005
  {
    ScaledStep(BaseStep(sampleRateHz, measured), 1.0 + Trim(queued))
  }

  function ScaledStep(base: real, factor: real): (s: real)
    ensures 0.995 <= s <= 1.005
  {
    Clamp(base * factor, 0.995, 1.005)
  }

  /** A longer queue is never drained more slowly. */
  lemma SourceStepMonotone(sampleRateHz: nat, measured: nat, a: nat, b: nat)
    requires a <= b
    ensures SourceStep(sampleRateHz, measured, a) <= SourceStep(sampleRateHz, measured, b)
  {
    ScaleMonotone(BaseStep(sampleRateHz, measured), 1.0 + Trim(a), 1.0 + Trim(b));
  }

  lemma ScaleMonotone(base: real, x: real, y: real)
    requires base >= 0.0 && x <= y
    ensures ScaledStep(base, x) <= ScaledStep(base, y)
  {
    var a, b := base * x, base * y;
    assert a <= b by { ProductMonotone(base, x, y); }
    ClampMonotone(a, b);
    assert ScaledStep(base, x) == Clamp(a, 0.995, 1.005) && ScaledStep(base, y) == Clamp(b, 0.995, 1.005);
  }

  lemma ClampMonotone(s: real, t: real)
    requires s <= t
    ensures Clamp(s, 0.995, 1.005) <= Clamp(t, 0.995, 1.005)
  {
  }

  // ------------------------------------------------------------------ what the trim regulates to

  /** The sample rate in millihertz, which the step times the clock is to balance. */
  function Rate(sampleRateHz: nat): real { sampleRateHz as real * 1000.0 }

  /** The step that balances rate and clock is inside the band the step is clamped to. */
  predicate InBand(sampleRateHz: nat, clock: real) { 0.995 * clock <= Rate(sampleRateHz) <= 1.005 * clock }

  lemma BaseBalances(sampleRateHz: nat, measured: nat)
    ensures BaseStep(sampleRateHz, measured) * EffectiveClock(measured) as real == Rate(sampleRateHz)
  {
  }

  /** Comparing steps is comparing what they drain per clock. */
  lemma StepsOrder(clock: real, x: real, y: real)
    requires clock > 0.0
    ensures (x < y <==> x * clock < y * clock) && (x == y <==> x * clock == y * clock)
  {
    if x < y { assert (y - x) * clock > 0.0; }
    if x > y { assert (x - y) * clock > 0.0; }
  }

  lemma BandOf(clock: real, base: real, rate: real)
    requires clock > 0.0 && base * clock == rate
    ensures (0.995 * clock <= rate <==> 0.995 <= base) && (rate <= 1.005 * clock <==> base <= 1.005)
    ensures (0.995 * clock < rate <==> 0.995 < base) && (rate < 1.005 * clock <==> base < 1.005)
  {
    StepsOrder(clock, 0.995, base);
    StepsOrder(clock, base, 1.005);
  }

  lemma UntrimmedIff(base: real, clock: real, rate: real)
    requires clock > 0.0 && base * clock == rate
    ensures ScaledStep(base, 1.0) * clock == rate <==> 0.995 <= base <= 1.005
  {
    assert base * 1.0 == base;
    StepsOrder(clock, ScaledStep(base, 1.0), base);
  }

  /** With 4096 frames queued the step balances rate and measured clock exactly, if and only if the band allows it. */
  lemma BalancedAtTargetIff(sampleRateHz: nat, measured: nat)
    ensures var clock := EffectiveClock(measured) as real;
            SourceStep(sampleRateHz, measured, 4096) * clock == Rate(sampleRateHz) <==> InBand(sampleRateHz, clock)
  {
    var clock, base := EffectiveClock(measured) as real, BaseStep(sampleRateHz, measured);
    BaseBalances(sampleRateHz, measured);
    assert Trim(4096) == 0.0;
    BandOf(clock, base, Rate(sampleRateHz));
    UntrimmedIff(base, clock, Rate(sampleRateHz));
  }

  /** At the driver's 44100 Hz it always does, whatever clock is measured. */
  lemma DriverIsBalancedAtTarget(measured: nat)
    ensures SourceStep(44100, measured, 4096) * EffectiveClock(measured) as real == 44100000.0
  {
    BalancedAtTargetIff(44100, measured);
  }

  lemma ScaledSides(base: real, trim: real)
    requires 0.995 < base < 1.005
    ensures (ScaledStep(base, 1.0 + trim) > base <==> trim > 0.0) && (ScaledStep(base, 1.0 + trim) < base <==> trim < 0.0)
  {
    var scaled := base * (1.0 + trim);
    assert scaled == base + base * trim;
    assert (base * trim > 0.0 <==> trim > 0.0) && (base * trim < 0.0 <==> trim < 0.0);
  }

  /** Strictly inside the band the ring is drained faster than it fills exactly when more than 4096 frames are queued. */
  lemma TrimPullsToTheTarget(sampleRateHz: nat, measured: nat, queued: nat)
    requires var clock := EffectiveClock(measured) as real;
             0.995 * clock < Rate(sampleRateHz) < 1.005 * clock
    ensures var drained := SourceStep(sampleRateHz, measured, queued) * EffectiveClock(measured) as real;
            && (drained > Rate(sampleRateHz) <==> queued > 4096) && (drained < Rate(sampleRateHz) <==> queued < 4096)
  {
    BaseBalances(sampleRateHz, measured);
    TrimSign(queued);
    DrainedSides(BaseStep(sampleRateHz, measured), Trim(queued), EffectiveClock(measured) as real, Rate(sampleRateHz));
  }

  lemma TrimSign(queued: nat)
    ensures (Trim(queued) > 0.0 <==> queued > 4096) && (Trim(queued) < 0.0 <==> queued < 4096)
  {
  }

  lemma DrainedSides(base: real, trim: real, clock: real, rate: real)
    requires clock > 0.0 && base * clock == rate && 0.995 * clock < rate < 1.005 * clock
    ensures var drained := ScaledStep(base, 1.0 + trim) * clock;
            (drained > rate <==> trim > 0.0) && (drained < rate <==> trim < 0.0)
  {
    var s := ScaledStep(base, 1.0 + trim);
    BandOf(clock, base, rate);
    ScaledSides(base, trim);
    StepsOrder(clock, base, s);
    StepsOrder(clock, s, base);
  }

  /** Inside the band each further frame raises the step by two millionths of the balance. */
  lemma TrimSlope(sampleRateHz: nat, measured: nat, queued: nat)
    requires 1596 <= queued < 6596
    requires 0.995 < SourceStep(sampleRateHz, measured, queued) && SourceStep(sampleRateHz, measured, queued + 1) < 1.005
    ensures var clock := EffectiveClock(measured) as real;
            SourceStep(sampleRateHz, measured, queued + 1) * clock
            == SourceStep(sampleRateHz, measured, queued) * clock + Rate(sampleRateHz) * 0.000002
  {
    var clock, base, factor := EffectiveClock(measured) as real, BaseStep(sampleRateHz, measured), 1.0 + Trim(queued);
    TrimPerFrame(queued);
    assert 1.0 + Trim(queued + 1) == factor + 0.000002;
    UnclampedSlope(base, factor);
    BaseBalances(sampleRateHz, measured);
    DrainedSlope(base, clock, Rate(sampleRateHz), ScaledStep(base, factor), ScaledStep(base, factor + 0.000002));
  }

  lemma TrimPerFrame(queued: nat)
    requires 1596 <= queued < 6596
    ensures Trim(queued + 1) == Trim(queued) + 0.000002
  {
  }

  lemma UnclampedSlope(base: real, factor: real)
    requires base >= 0.0 && 0.995 < ScaledStep(base, factor) && ScaledStep(base, factor + 0.000002) < 1.005
    ensures ScaledStep(base, factor + 0.000002) == ScaledStep(base, factor) + base * 0.000002
  {
    assert base * (factor + 0.000002) == base * factor + base * 0.000002;
  }

  lemma DrainedSlope(base: real, clock: real, rate: real, a: real, b: real)
    requires base * clock == rate && b == a + base * 0.000002
    ensures b * clock == a * clock + rate * 0.000002
  {
    assert b * clock == a * clock + base * clock * 0.000002;
  }

  /** From 2500 frames off the target on the trim is at its limit. */
  lemma TrimSaturates(sampleRateHz: nat, measured: nat, queued: nat)
    ensures queued >= 6596 ==> SourceStep(sampleRateHz, measured, queued) == SourceStep(sampleRateHz, measured, 6596)
    ensures queued <= 1596 ==> SourceStep(sampleRateHz, measured, queued) == SourceStep(sampleRateHz, measured, 1596)
  {
  }

  // ------------------------------------------------------------------ concrete against abstract

  /** The circular queue holds q. */
  ghost predicate Queued(buffer: seq<nat>, read: nat, count: nat, q: seq<nat>) {
    && |buffer| == QUEUE && read < QUEUE && count == |q| <= QUEUE
    && (forall i | 0 <= i < count :: buffer[(read + i) % QUEUE] == q[i])
  }

  lemma QueueDropOldest(buffer: seq<nat>, read: nat, count: nat, q: seq<nat>)
    requires Queued(buffer, read, count, q) && count > 0
    ensures Queued(buffer, (read + 1) % QUEUE, count - 1, q[1..])
  {
    forall i | 0 <= i < count - 1 ensures buffer[((read + 1) % QUEUE + i) % QUEUE] == q[1..][i] {
      assert ((read + 1) % QUEUE + i) % QUEUE == (read + (i + 1)) % QUEUE;
    }
  }

  lemma QueueAppend(buffer: seq<nat>, read: nat, count: nat, q: seq<nat>, v: nat)
    requires Queued(buffer, read, count, q) && count < QUEUE
    ensures Queued(buffer[(read + count) % QUEUE := v], read, count + 1, q + [v])
  {
    var buffer' := buffer[(read + count) % QUEUE := v];
    forall i | 0 <= i < count + 1 ensures buffer'[(read + i) % QUEUE] == (q + [v])[i] {
      if i < count { SlotsApart(read, i, count); }
    }
  }

  lemma SlotsApart(read: nat, i: nat, j: nat)
    requires i < j < QUEUE && read < QUEUE
    ensures (read + i) % QUEUE != (read + j) % QUEUE
  {
  }

  /** Sixteen groups of eight: the slot of report m holds the group of report m, for the last sixteen reports. */
  ghost predicate Remembers(history: seq<nat>, consumed: seq<nat>) {
    && |history| == HISTORY
    && (forall m | |consumed| - 16 <= m < |consumed| ::
          history[8 * (m % 16)..8 * (m % 16) + 8] == GroupOf(consumed, m))
  }

  function WriteGroup(history: seq<nat>, slot: nat, g: Group): (h: seq<nat>)
    requires |history| == HISTORY && slot < 16
    ensures |h| == HISTORY
  {
    history[..8 * slot] + g + history[8 * slot + 8..]
  }

  lemma WriteGroupElsewhere(history: seq<nat>, slot: nat, g: Group, j: nat)
    requires |history| == HISTORY && slot < 16 && j < 16
    ensures WriteGroup(history, slot, g)[8 * j..8 * j + 8] == if j == slot then g else history[8 * j..8 * j + 8]
  {
  }

  lemma RememberNext(history: seq<nat>, consumed: seq<nat>, v: nat)
    requires Remembers(history, consumed)
    ensures Remembers(WriteGroup(history, |consumed| % 16, GroupOf(consumed + [v], |consumed|)), consumed + [v])
  {
    var n := |consumed|;
    var h := WriteGroup(history, n % 16, GroupOf(consumed + [v], n));
    forall m | n + 1 - 16 <= m < n + 1 ensures h[8 * (m % 16)..8 * (m % 16) + 8] == GroupOf(consumed + [v], m) {
      RememberOne(history, consumed, v, m);
    }
  }

  lemma RememberOne(history: seq<nat>, consumed: seq<nat>, v: nat, m: int)
    requires Remembers(history, consumed) && |consumed| - 16 < m <= |consumed|
    ensures WriteGroup(history, |consumed| % 16, GroupOf(consumed + [v], |consumed|))[8 * (m % 16)..8 * (m % 16) + 8]
            == GroupOf(consumed + [v], m)
  {
    WriteGroupElsewhere(history, |consumed| % 16, GroupOf(consumed + [v], |consumed|), m % 16);
    if m < |consumed| {
      GroupOfPrefix(consumed, v, m);
      SlotsOfSixteen(m, |consumed|);
    }
  }

  lemma SlotsOfSixteen(m: int, n: int)
    requires n - 16 < m < n
    ensures m % 16 != n % 16
  {
  }

  lemma RememberedSixteenAgo(history: seq<nat>, consumed: seq<nat>)
    requires Remembers(history, consumed)
    ensures var c := 8 * (|consumed| % 16); history[c..c + 8] == GroupOf(consumed, |consumed| - 16)
  {
    CursorStep(|consumed|);
  }

  lemma ReplayedGroup(consumed: seq<nat>, v: nat)
    requires !ValidReport(v)
    ensures GroupOf(consumed + [v], |consumed|) == GroupOf(consumed, |consumed| - 16)
  {
    GroupOfPrefix(consumed, v, |consumed| - 16);
  }

  lemma CursorStep(n: nat)
    ensures (8 * (n % 16) + 8) % HISTORY == 8 * ((n + 1) % 16) && 8 * (n % 16) / 8 == n % 16
    ensures (n - 16) % 16 == n % 16
  {
  }

  function SeedHistory(): (h: seq<nat>)
    ensures |h| == HISTORY
  {
    seq(HISTORY, i requires 0 <= i < HISTORY => SeedByte(i))
  }

  lemma SeedSlice(k: nat)
    requires k < 16
    ensures SeedHistory()[8 * k..8 * k + 8] == SeedGroup(k)
  {
  }

  lemma SeedIsRemembered()
    ensures Remembers(SeedHistory(), [])
  {
    var history := SeedHistory();
    forall m | -16 <= m < 0 ensures history[8 * (m % 16)..8 * (m % 16) + 8] == GroupOf([], m) {
      assert m % 16 == m + 16;
      SeedSlice(m + 16);
    }
  }

  /** Where reacquisition has to come round to: the slot of the last invalid report, or slot 0. */
  function Reference(consumed: seq<nat>): nat {
    if ValidTail(consumed) == |consumed| then 0 else (|consumed| - 1 - ValidTail(consumed)) % 16
  }

  /** History, cursor, reference and lock are those of the reports consumed. */
  ghost predicate HistoryOf(history: seq<nat>, cursor: nat, reference: nat, locked: bool, consumed: seq<nat>) {
    && Remembers(history, consumed)
    && cursor == 8 * (|consumed| % 16)
    && reference == 8 * Reference(consumed)
    && locked == Locked(consumed)
  }

  lemma SeedIsHistory()
    ensures HistoryOf(SeedHistory(), 0, 0, false, [])
  {
    SeedIsRemembered();
  }

  lemma LockOnValid(consumed: seq<nat>, v: nat)
    requires ValidReport(v)
    ensures Locked(consumed + [v]) <==> (Locked(consumed) || (|consumed| + 1) % 16 == Reference(consumed))
    ensures Reference(consumed + [v]) == Reference(consumed)
  {
    assert (consumed + [v])[..|consumed|] == consumed;
    assert ValidTail(consumed + [v]) == 1 + ValidTail(consumed);
  }

  lemma LockOnInvalid(consumed: seq<nat>, v: nat)
    requires !ValidReport(v)
    ensures !Locked(consumed + [v]) && Reference(consumed + [v]) == |consumed| % 16
  {
    assert ValidTail(consumed + [v]) == 0;
  }

  /** What an invalid report makes of the history. */
  lemma InvalidIsHistory(history: seq<nat>, cursor: nat, reference: nat, locked: bool, consumed: seq<nat>, v: nat)
    requires HistoryOf(history, cursor, reference, locked, consumed) && Build(v) == Rejected
    ensures cursor % 8 == 0 && cursor + 8 <= |history| == HISTORY
    ensures var g: Group := history[cursor..cursor + 8];
            && g == GroupOf(consumed + [v], |consumed|)
            && HistoryOf(WriteGroup(history, cursor / 8, g), (cursor + 8) % HISTORY, cursor, false, consumed + [v])
  {
    RememberNext(history, consumed, v);
    LockOnInvalid(consumed, v);
    CursorStep(|consumed|);
    RememberedSixteenAgo(history, consumed);
    ReplayedGroup(consumed, v);
  }

  /** What a valid report makes of it. */
  lemma ValidIsHistory(history: seq<nat>, cursor: nat, reference: nat, locked: bool, consumed: seq<nat>, v: nat, g: Group)
    requires HistoryOf(history, cursor, reference, locked, consumed) && Build(v) == Built(g)
    ensures cursor % 8 == 0 && cursor + 8 <= |history| == HISTORY && g == GroupOf(consumed + [v], |consumed|)
    ensures var next := (cursor + 8) % HISTORY;
            HistoryOf(WriteGroup(history, cursor / 8, g), next, reference, locked || next == reference, consumed + [v])
  {
    RememberNext(history, consumed, v);
    LockOnValid(consumed, v);
    CursorStep(|consumed|);
  }

  lemma NothingQueued()
    ensures Queued(seq(QUEUE, _ => 0), 0, 0, [])
  {
  }

  /** Whole frames per service interval and what is left over. */
  method Divided(rate: nat, service: nat) returns (whole: nat, remainder: nat)
    requires service > 0
    ensures whole == Whole(rate, service) && remainder == Wrap(rate, service)
  {
    WholeIsQuotient(rate, service);
    whole, remainder := rate / service, rate % service;
  }

  class Policy {
    const sampleRateHz: nat
    const service: nat
    const wholeFrames: nat
    const remainderFrames: nat
    var phase: nat
    var feedbackPattern: Group
    var patternHistory: seq<nat>
    var patternHistoryCursor: nat
    var reacquisitionReference: nat
    var patternLocked: bool
    var feedbackQueue: seq<nat>
    var feedbackQueueRead: nat
    var feedbackQueueCount: nat
    var window: Window
    var measuredClockMilliHz: nat
    var patternIndex: nat
    var nominalFraction: nat

    // The reports behind these buffers, and how many groups and packets were sent without them.
    ghost var queue: seq<nat>
    ghost var consumed: seq<nat>
    ghost var observed: seq<nat>
    ghost var nominal: nat
    ghost var intervals: nat

    ghost function Abs(): Schedule
      reads this
    {
      Schedule(queue, consumed, observed, nominal, feedbackPattern, patternIndex, intervals)
    }

    ghost predicate Valid()
      reads this
    {
      CadenceValid() && HistoryValid() && QueueValid() && WindowValid()
    }

    ghost predicate CadenceValid()
      reads this`phase, this`intervals, this`patternIndex, this`nominal, this`nominalFraction
    {
      && service > 0
      && wholeFrames == Whole(sampleRateHz, service) && remainderFrames == Wrap(sampleRateHz, service)
      && phase == Wrap(Due(sampleRateHz, intervals), service)
      && patternIndex < 8
      && nominalFraction == nominal % 10 * 100
    }

    ghost predicate HistoryValid()
      reads this`patternHistory, this`patternHistoryCursor, this`reacquisitionReference, this`patternLocked, this`consumed
    {
      HistoryOf(patternHistory, patternHistoryCursor, reacquisitionReference, patternLocked, consumed)
    }

    ghost predicate QueueValid()
      reads this`feedbackQueue, this`feedbackQueueRead, this`feedbackQueueCount, this`queue
    {
      Queued(feedbackQueue, feedbackQueueRead, feedbackQueueCount, queue)
    }

    /** The measured rate is nominal until the window is full, then exactly 25 times the sum of its reports. */
    ghost predicate WindowValid()
      reads this`window, this`measuredClockMilliHz, this`observed
    {
      && Tracks(window, observed)
      && measuredClockMilliHz == if |observed| < WINDOW then sampleRateHz * 1000 else 25 * Sum(Last(observed, WINDOW))
    }

    constructor (sampleRateHz: nat, serviceIntervalsPerSecond: nat)
      requires sampleRateHz > 0 && serviceIntervalsPerSecond > 0
      ensures Valid() && Abs() == Initial
      ensures this.sampleRateHz == sampleRateHz && this.service == serviceIntervalsPerSecond
      ensures measuredClockMilliHz == sampleRateHz * 1000
    {
      this.sampleRateHz := sampleRateHz;
      service := serviceIntervalsPerSecond;
      var whole, remainder := Divided(sampleRateHz, serviceIntervalsPerSecond);
      wholeFrames, remainderFrames := whole, remainder;
      phase := 0;
      feedbackPattern := Pattern(44);
      patternHistory := SeedHistory();
      patternHistoryCursor, reacquisitionReference, patternLocked := 0, 0, false;
      feedbackQueue, feedbackQueueRead, feedbackQueueCount := seq(QUEUE, _ => 0), 0, 0;
      window := EmptyWindow();
      measuredClockMilliHz := sampleRateHz * 1000;
      patternIndex, nominalFraction := 0, 0;
      queue, consumed, observed, nominal, intervals := [], [], [], 0, 0;
      SeedIsHistory();
      NothingQueued();
      EmptyTracks();
    }

    /** The source's constructor throws on a zero rate. */
    static method Create(sampleRateHz: nat, serviceIntervalsPerSecond: nat) returns (policy: Policy?)
      ensures policy == null <==> sampleRateHz == 0 || serviceIntervalsPerSecond == 0
      ensures policy != null ==> fresh(policy) && policy.Valid() && policy.Abs() == Initial
    {
      if sampleRateHz == 0 || serviceIntervalsPerSecond == 0 { return null; }
      policy := new Policy(sampleRateHz, serviceIntervalsPerSecond);
    }

    /** The drop-oldest append shared by both observe functions. */
    method Enqueue(v: nat)
      requires QueueValid()
      modifies this`feedbackQueue, this`feedbackQueueRead, this`feedbackQueueCount, this`queue
      ensures QueueValid() && queue == Push(old(queue), v)
    {
      assert Push(queue, v) == (if |queue| == QUEUE then queue[1..] else queue) + [v];
      if feedbackQueueCount == QUEUE { DropOldest(); }
      Append(v);
    }

    method DropOldest()
      requires QueueValid() && feedbackQueueCount > 0
      modifies this`feedbackQueueRead, this`feedbackQueueCount, this`queue
      ensures QueueValid() && queue == old(queue)[1..]
    {
      QueueDropOldest(feedbackQueue, feedbackQueueRead, feedbackQueueCount, queue);
      feedbackQueueRead := (feedbackQueueRead + 1) % QUEUE;
      feedbackQueueCount := feedbackQueueCount - 1;
      queue := queue[1..];
    }

    method Append(v: nat)
      requires QueueValid() && feedbackQueueCount < QUEUE
      modifies this`feedbackQueue, this`feedbackQueueCount, this`queue
      ensures QueueValid() && queue == old(queue) + [v]
    {
      QueueAppend(feedbackQueue, feedbackQueueRead, feedbackQueueCount, queue, v);
      var write := (feedbackQueueRead + feedbackQueueCount) % QUEUE;
      feedbackQueue := feedbackQueue[write := v];
      feedbackQueueCount := feedbackQueueCount + 1;
      queue := queue + [v];
    }

    method ObserveWindow(v: nat)
      requires WindowValid()
      modifies this`window, this`measuredClockMilliHz, this`observed
      ensures WindowValid() && observed == old(observed) + [v]
    {
      ObserveTracks(window, observed, v);
      window := Observe(window, v);
      if window.count == WINDOW {
        measuredClockMilliHz := window.sum * 1000000 / WINDOW;
      }
      observed := observed + [v];
    }

    method ObserveFeedback(framesPerMillisecond: nat)
      requires Valid()
      modifies this
      ensures Valid() && Abs() == ObserveValid(old(Abs()), framesPerMillisecond)
    {
      if ValidReport(framesPerMillisecond) {
        ObserveWindow(framesPerMillisecond);
        Enqueue(framesPerMillisecond);
      }
    }

    method ObserveInvalidFeedback()
      requires Valid()
      modifies this
      ensures Valid() && Abs() == ObserveInvalid(old(Abs()))
    {
      Enqueue(0);
    }

    /** Writes eight packet sizes at the history cursor and moves it on. */
    method StoreGroup(g: Group)
      requires |patternHistory| == HISTORY && patternHistoryCursor % 8 == 0 && patternHistoryCursor < HISTORY
      modifies this`patternHistory, this`patternHistoryCursor
      ensures patternHistory == WriteGroup(old(patternHistory), old(patternHistoryCursor) / 8, g)
      ensures patternHistoryCursor == (old(patternHistoryCursor) + 8) % HISTORY
    {
      var c := patternHistoryCursor;
      for i := 0 to 8
        invariant patternHistoryCursor == c && |patternHistory| == HISTORY
        invariant forall j | 0 <= j < HISTORY ::
                    patternHistory[j] == if c <= j < c + i then g[j - c] else old(patternHistory)[j]
      {
        patternHistory := patternHistory[(patternHistoryCursor + i) % HISTORY := g[i]];
      }
      patternHistoryCursor := (patternHistoryCursor + 8) % HISTORY;
    }

    method TakeReport() returns (v: nat)
      requires QueueValid() && queue != []
      modifies this`feedbackQueueRead, this`feedbackQueueCount, this`queue
      ensures QueueValid() && v == old(queue)[0] && queue == old(queue)[1..]
    {
      QueueDropOldest(feedbackQueue, feedbackQueueRead, feedbackQueueCount, queue);
      v := feedbackQueue[feedbackQueueRead];
      feedbackQueueRead := (feedbackQueueRead + 1) % QUEUE;
      feedbackQueueCount := feedbackQueueCount - 1;
      queue := queue[1..];
    }

    /** Uses a valid report: its pattern goes out and into the history, and may complete reacquisition. */
    method UseValid(v: nat, selected: Group)
      requires HistoryValid() && Build(v) == Built(selected)
      modifies this`feedbackPattern, this`patternHistory, this`patternHistoryCursor, this`patternLocked, this`consumed
      ensures HistoryValid() && consumed == old(consumed) + [v]
      ensures feedbackPattern == GroupOf(consumed, |old(consumed)|)
    {
      ValidIsHistory(patternHistory, patternHistoryCursor, reacquisitionReference, patternLocked, consumed, v, selected);
      feedbackPattern := selected;
      StoreGroup(feedbackPattern);
      if patternHistoryCursor == reacquisitionReference { patternLocked := true; }
      consumed := consumed + [v];
    }

    /** Uses an invalid report: the group the history holds from sixteen reports ago goes out again. */
    method UseInvalid(v: nat)
      requires HistoryValid() && Build(v) == Rejected
      modifies this`feedbackPattern, this`patternHistory, this`patternHistoryCursor, this`reacquisitionReference,
               this`patternLocked, this`consumed
      ensures HistoryValid() && consumed == old(consumed) + [v]
      ensures feedbackPattern == GroupOf(consumed, |old(consumed)|)
    {
      InvalidIsHistory(patternHistory, patternHistoryCursor, reacquisitionReference, patternLocked, consumed, v);
      patternLocked := false;
      reacquisitionReference := patternHistoryCursor;
      feedbackPattern := patternHistory[patternHistoryCursor..patternHistoryCursor + 8];
      StoreGroup(feedbackPattern);
      consumed := consumed + [v];
    }

    /** 44 frames, and one more whenever a tenth of a frame has added up. */
    method CountNominal() returns (frames: nat)
      requires CadenceValid()
      modifies this`nominalFraction, this`nominal
      ensures CadenceValid() && nominal == old(nominal) + 1 && frames == if nominal % 10 == 0 then 45 else 44
    {
      nominalFraction := nominalFraction + 100;
      frames := if nominalFraction >= 1000 then 45 else 44;
      if nominalFraction >= 1000 { nominalFraction := nominalFraction - 1000; }
      nominal := nominal + 1;
    }

    /** A group without feedback. */
    method UseNominal()
      requires CadenceValid() && queue == []
      modifies this`nominalFraction, this`nominal, this`feedbackPattern
      ensures CadenceValid() && Abs() == Refill(old(Abs()))
    {
      var frames := CountNominal();
      feedbackPattern := Pattern(frames);
    }

    method NextInterval() returns (frames: nat)
      requires CadenceValid()
      modifies this`phase, this`intervals
      ensures CadenceValid() && intervals == old(intervals) + 1
      ensures frames == Sent(sampleRateHz, service, intervals) - Sent(sampleRateHz, service, old(intervals))
    {
      WholeOfSum(Due(sampleRateHz, intervals), sampleRateHz, service);
      frames := wholeFrames;
      phase := phase + remainderFrames;
      if phase >= service {
        phase := phase - service;
        frames := frames + 1;
      }
      intervals := intervals + 1;
    }

    method UseReport()
      requires QueueValid() && HistoryValid() && queue != []
      modifies this`feedbackQueueRead, this`feedbackQueueCount, this`queue, this`feedbackPattern, this`patternHistory,
               this`patternHistoryCursor, this`reacquisitionReference, this`patternLocked, this`consumed
      ensures QueueValid() && HistoryValid()
      ensures Abs() == Refill(old(Abs()))
    {
      var feedback := TakeReport();
      match Build(feedback) {
        case Built(selected) => UseValid(feedback, selected);
        case Rejected => UseInvalid(feedback);
      }
    }

    /** Picks the group for the next millisecond. */
    method NextGroup()
      requires CadenceValid() && HistoryValid() && QueueValid()
      modifies this`feedbackQueueRead, this`feedbackQueueCount, this`queue, this`feedbackPattern, this`patternHistory,
               this`patternHistoryCursor, this`reacquisitionReference, this`patternLocked, this`consumed,
               this`nominalFraction, this`nominal
      ensures CadenceValid() && HistoryValid() && QueueValid()
      ensures Abs() == Refill(old(Abs()))
    {
      if feedbackQueueCount != 0 {
        UseReport();
      } else {
        UseNominal();
      }
    }

    method NextMicroframe() returns (frames: nat)
      requires CadenceValid() && HistoryValid() && QueueValid()
      modifies this`feedbackQueueRead, this`feedbackQueueCount, this`queue, this`feedbackPattern, this`patternHistory,
               this`patternHistoryCursor, this`reacquisitionReference, this`patternLocked, this`consumed,
               this`nominalFraction, this`nominal, this`patternIndex
      ensures CadenceValid() && HistoryValid() && QueueValid()
      ensures (Abs(), frames) == PacketSchedule.NextMicroframe(old(Abs()))
    {
      if patternIndex == 0 { NextGroup(); }
      frames := feedbackPattern[patternIndex];
      patternIndex := (patternIndex + 1) % 8;
    }

    method NextPacketFrames() returns (frames: nat)
      requires Valid()
      modifies this`feedbackQueueRead, this`feedbackQueueCount, this`queue, this`feedbackPattern, this`patternHistory,
               this`patternHistoryCursor, this`reacquisitionReference, this`patternLocked, this`consumed,
               this`nominalFraction, this`nominal, this`patternIndex, this`phase, this`intervals
      ensures Valid() && (Abs(), frames) == Next(old(Abs()), sampleRateHz, service)
    {
      if service == MICROFRAMES {
        frames := NextMicroframe();
      } else {
        frames := NextIntervalPacket();
      }
    }

    method NextIntervalPacket() returns (frames: nat)
      requires Valid()
      modifies this`phase, this`intervals
      ensures Valid() && (Abs(), frames) == PacketSchedule.NextInterval(old(Abs()), sampleRateHz, service)
    {
      frames := NextInterval();
    }

    method SourceFramesPerOutputFrame(queuedFrames: nat) returns (step: real)
      requires Valid()
      ensures step == SourceStep(sampleRateHz, measuredClockMilliHz, queuedFrames)
    {
      step := SourceStep(sampleRateHz, measuredClockMilliHz, queuedFrames);
    }
  }
}
