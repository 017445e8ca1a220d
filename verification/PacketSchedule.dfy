/** What AudioPacketPolicy promises, stated on plain sequences of reports. */
module PacketSchedule {
  import opened FeedbackWindow
  import opened Runs

  const QUEUE: nat := 32
  const MICROFRAMES: nat := 8000

  /**
   * `queue` holds the reports waiting to be used (0 for an invalid one), `consumed` those used so far,
   * `observed` the valid reports seen, `nominal` the groups sent without feedback, and `intervals` the
   * packets sent when the service rate is not one per microframe.
   */
  datatype Schedule = Schedule(
    queue: seq<nat>, consumed: seq<nat>, observed: seq<nat>,
    nominal: nat, group: Group, index: nat, intervals: nat)

  const Initial := Schedule([], [], [], 0, Pattern(44), 0, 0)

  /** The packet sizes the history starts with. */
  function SeedByte(i: nat): nat { 5 + i % 2 + (if i % 80 == 0 then 1 else 0) }

  function SeedGroup(k: nat): (g: Group) {
    var sizes := seq<nat>(8, i requires 0 <= i < 8 => SeedByte(8 * k + i));
    sizes
  }

  /** The group report n produced: its own pattern, or for an invalid report the group sixteen reports earlier. */
  function GroupOf(consumed: seq<nat>, n: int): (g: Group)
    requires -16 <= n < |consumed|
    decreases n + 16
  {
    if n < 0 then SeedGroup(n + 16)
    else match Build(consumed[n])
      case Built(packets) => packets
      case Rejected => GroupOf(consumed, n - 16)
  }

  /** How many of the latest consumed reports in a row were valid. */
  function ValidTail(consumed: seq<nat>): (n: nat)
    ensures n <= |consumed|
  {
    if consumed == [] || !ValidReport(consumed[|consumed| - 1]) then 0
    else 1 + ValidTail(consumed[..|consumed| - 1])
  }

  /** Sixteen valid reports lock a fresh stream; after an invalid report fifteen do. */
  predicate Locked(consumed: seq<nat>) {
    var tail := ValidTail(consumed);
    if tail == |consumed| then tail >= 16 else tail >= 15
  }

  function NominalGroup(k: nat): Group { Pattern(if k % 10 == 0 then 45 else 44) }

  /** Appends a report, dropping the oldest when 32 are waiting. */
  function Push(queue: seq<nat>, v: nat): seq<nat> { Last(queue + [v], QUEUE) }

  function ObserveValid(s: Schedule, v: nat): Schedule {
    if ValidReport(v) then s.(queue := Push(s.queue, v), observed := s.observed + [v]) else s
  }

  function ObserveInvalid(s: Schedule): Schedule { s.(queue := Push(s.queue, 0)) }

  /** Chooses the next group at a group boundary. */
  function Refill(s: Schedule): Schedule {
    if s.queue != [] then
      var consumed := s.consumed + [s.queue[0]];
      s.(queue := s.queue[1..], consumed := consumed, group := GroupOf(consumed, |s.consumed|))
    else s.(nominal := s.nominal + 1, group := NominalGroup(s.nominal + 1))
  }

  /** One packet per microframe, from the current group. */
  function NextMicroframe(s: Schedule): (Schedule, nat)
    requires s.index < 8
  {
    var s' := if s.index == 0 then Refill(s) else s;
    (s'.(index := (s.index + 1) % 8), s'.group[s.index])
  }

  function NextInterval(s: Schedule, rate: nat, service: nat): (Schedule, nat)
    requires service > 0
  {
    WholeOfSum(Due(rate, s.intervals), rate, service);
    (s.(intervals := s.intervals + 1), Sent(rate, service, s.intervals + 1) - Sent(rate, service, s.intervals))
  }

  function Next(s: Schedule, rate: nat, service: nat): (Schedule, nat)
    requires service > 0 && s.index < 8
  {
    if service == MICROFRAMES then NextMicroframe(s) else NextInterval(s, rate, service)
  }

  // ------------------------------------------------------------------ groups

  predicate GoodGroup(g: Group) { FiveOrSix(g) && 42 <= Total(g) <= 46 }

  lemma SeedSize(k: nat, i: nat)
    requires k < 16 && i < 8
    ensures SeedGroup(k)[i] == 5 + i % 2 + (if i == 0 && k % 10 == 0 then 1 else 0)
  {
    assert SeedGroup(k)[i] == SeedByte(8 * k + i);
    var q, r := k / 10, k % 10;
    assert 8 * k + i == 80 * q + (8 * r + i);
    assert (8 * k + i) % 80 == 8 * r + i && (8 * k + i) % 2 == i % 2;
  }

  lemma SeedGroupIsGood(k: nat)
    requires k < 16
    ensures GoodGroup(SeedGroup(k)) && Total(SeedGroup(k)) == if k % 10 == 0 then 45 else 44
  {
    forall i | 0 <= i < 8 ensures SeedGroup(k)[i] == 5 + i % 2 + (if i == 0 && k % 10 == 0 then 1 else 0) {
      SeedSize(k, i);
    }
  }

  /** A group driven by a valid report totals that report; every group totals 42 to 46 frames in fives and sixes. */
  lemma {:induction false} EveryGroupIsGood(consumed: seq<nat>, n: int)
    requires -16 <= n < |consumed|
    ensures GoodGroup(GroupOf(consumed, n))
    ensures n >= 0 && ValidReport(consumed[n]) ==> Total(GroupOf(consumed, n)) == consumed[n]
    decreases n + 16
  {
    if n < 0 {
      SeedGroupIsGood(n + 16);
    } else if !ValidReport(consumed[n]) {
      EveryGroupIsGood(consumed, n - 16);
    }
  }

  /** Consuming more reports does not change the groups of earlier ones. */
  lemma {:induction false} GroupOfPrefix(consumed: seq<nat>, v: nat, n: int)
    requires -16 <= n < |consumed|
    ensures GroupOf(consumed + [v], n) == GroupOf(consumed, n)
    decreases n + 16
  {
    if n >= 0 && !ValidReport(consumed[n]) { GroupOfPrefix(consumed, v, n - 16); }
  }

  /** An invalid report repeats exactly the group of the report sixteen earlier, or the seed before that. */
  lemma InvalidReportRepeatsGroupSixteenEarlier(s: Schedule)
    requires s.queue != [] && !ValidReport(s.queue[0])
    ensures Refill(s).group == if |s.consumed| >= 16 then GroupOf(s.consumed, |s.consumed| - 16)
                               else SeedGroup(|s.consumed|)
  {
    var n := |s.consumed|;
    var consumed := s.consumed + [s.queue[0]];
    assert Refill(s).group == GroupOf(consumed, n) == GroupOf(consumed, n - 16);
    if n >= 16 { GroupOfPrefix(s.consumed, s.queue[0], n - 16); }
  }

  // ------------------------------------------------------------------ runs

  datatype Event = Report(v: nat) | BadReport | Request

  function Step(s: Schedule, e: Event): (Schedule, seq<nat>) {
    match e
    case Report(v) => (ObserveValid(s, v), [])
    case BadReport => (ObserveInvalid(s), [])
    case Request =>
      if s.index >= 8 then (s, [])
      else var (s', frames) := NextMicroframe(s); (s', [frames])
  }

  /** The reports an event adds to the stream, with 0 for an invalid one. */
  function Reported(e: Event): seq<nat> {
    match e
    case Report(v) => if ValidReport(v) then [v] else []
    case BadReport => [0]
    case Request => []
  }

  function AllReported(events: seq<Event>): seq<nat> {
    if events == [] then [] else AllReported(events[..|events| - 1]) + Reported(events[|events| - 1])
  }

  lemma AllReportedStep(events: seq<Event>, e: Event)
    ensures AllReported(events + [e]) == AllReported(events) + Reported(e)
  {
    assert (events + [e])[..|events|] == events;
  }

  predicate Sound(s: Schedule) { s.index < 8 && |s.queue| <= 32 && GoodGroup(s.group) }

  lemma RefillIsSound(s: Schedule)
    requires Sound(s)
    ensures Sound(Refill(s)) && Refill(s).index == s.index
  {
    if s.queue != [] { EveryGroupIsGood(s.consumed + [s.queue[0]], |s.consumed|); }
  }

  lemma RequestIsSound(s: Schedule)
    requires Sound(s)
    ensures Sound(NextMicroframe(s).0) && 5 <= NextMicroframe(s).1 <= 6
  {
    if s.index == 0 { RefillIsSound(s); }
  }

  /** The waiting reports are the newest ones, in order. */
  predicate Suffix(q: seq<nat>, stream: seq<nat>) { |q| <= |stream| && q == stream[|stream| - |q|..] }

  lemma PushKeepsSuffix(q: seq<nat>, stream: seq<nat>, v: nat)
    requires Suffix(q, stream)
    ensures Suffix(Push(q, v), stream + [v])
  {
  }

  /** What holds after any events: the queue is the newest reports and every packet so far carried 5 or 6 frames. */
  predicate Good(s: Schedule, events: seq<Event>, out: seq<nat>) {
    Sound(s) && Suffix(s.queue, AllReported(events)) && forall i | 0 <= i < |out| :: out[i] == 5 || out[i] == 6
  }

  lemma ReportKeepsGood(s: Schedule, events: seq<Event>, out: seq<nat>, e: Event, v: nat)
    requires Good(s, events, out) && Reported(e) == [v]
    ensures Good(s.(queue := Push(s.queue, v)), events + [e], out)
  {
    AllReportedStep(events, e);
    PushKeepsSuffix(s.queue, AllReported(events), v);
  }

  lemma RequestKeepsGood(s: Schedule, events: seq<Event>, out: seq<nat>)
    requires Good(s, events, out)
    ensures var (s', frames) := NextMicroframe(s); Good(s', events + [Request], out + [frames])
  {
    AllReportedStep(events, Request);
    RequestIsSound(s);
    var (s', frames) := NextMicroframe(s);
    assert AllReported(events + [Request]) == AllReported(events);
    RequestKeepsSuffix(s, AllReported(events));
  }

  lemma RequestKeepsSuffix(s: Schedule, stream: seq<nat>)
    requires s.index < 8 && Suffix(s.queue, stream)
    ensures Suffix(NextMicroframe(s).0.queue, stream)
  {
    assert NextMicroframe(s).0.queue == if s.index == 0 && s.queue != [] then s.queue[1..] else s.queue;
  }

  lemma StepKeepsGood(s: Schedule, events: seq<Event>, out: seq<nat>, e: Event)
    requires Good(s, events, out)
    ensures Good(Step(s, e).0, events + [e], out + Step(s, e).1)
  {
    assert out + [] == out;
    if e == Request {
      RequestKeepsGood(s, events, out);
    } else if Reported(e) == [] {
      AllReportedStep(events, e);
      assert AllReported(events + [e]) == AllReported(events);
    } else {
      ReportKeepsGood(s, events, out, e, Reported(e)[0]);
    }
  }

  /**
   * Over any mix of observations and packet requests: every packet carries 5 or 6 frames, and what waits in the
   * queue is the end of the report stream, in order and at most 32 long.
   */
  lemma EveryRunIsGood(events: seq<Event>)
    ensures Good(Run(Step, Initial, events).0, events, Run(Step, Initial, events).1)
  {
    forall t, es, os, e | Good(t, es, os) ensures Good(Step(t, e).0, es + [e], os + Step(t, e).1) {
      StepKeepsGood(t, es, os, e);
    }
    RunInvariant(Step, Good, Initial, events);
  }

  /** Unless 32 reports wait when another arrives, a step neither loses nor reorders a report. */
  lemma StepKeepsReports(s: Schedule, e: Event)
    requires Sound(s) && (Reported(e) != [] ==> |s.queue| < QUEUE)
    ensures var s' := Step(s, e).0; s'.consumed + s'.queue == s.consumed + s.queue + Reported(e)
  {
    if e == Request {
      if s.index == 0 && s.queue != [] { assert [s.queue[0]] + s.queue[1..] == s.queue; }
    } else if Reported(e) != [] {
      assert Push(s.queue, Reported(e)[0]) == s.queue + Reported(e);
    }
  }

  /** Every prefix of the run leaves room for the report that follows it. */
  ghost predicate NeverFull(events: seq<Event>) {
    forall n | 0 <= n < |events| && Reported(events[n]) != [] :: |Run(Step, Initial, events[..n]).0.queue| < 32
  }

  lemma {:induction false} RoomKeepsReports(events: seq<Event>)
    requires NeverFull(events)
    ensures var s := Run(Step, Initial, events).0; s.consumed + s.queue == AllReported(events)
  {
    if events != [] {
      var n := |events| - 1;
      NeverFullPrefix(events, n);
      RoomKeepsReports(events[..n]);
      EveryRunIsGood(events[..n]);
      StepKeepsReports(Run(Step, Initial, events[..n]).0, events[n]);
    }
  }

  lemma NeverFullPrefix(events: seq<Event>, n: nat)
    requires NeverFull(events) && n <= |events|
    ensures NeverFull(events[..n])
  {
    forall k | 0 <= k < n && Reported(events[..n][k]) != [] ensures |Run(Step, Initial, events[..n][..k]).0.queue| < QUEUE {
      assert events[..n][..k] == events[..k];
    }
  }

  /** How many reports arrived while 32 were waiting. */
  function Overflows(events: seq<Event>): nat {
    if events == [] then 0
    else
      var n := |events| - 1;
      Overflows(events[..n]) + if Reported(events[n]) != [] && |Run(Step, Initial, events[..n]).0.queue| >= 32 then 1 else 0
  }

  lemma StepCountsReports(s: Schedule, e: Event)
    requires Sound(s)
    ensures var s' := Step(s, e).0;
            |s'.consumed| + |s'.queue| + (if Reported(e) != [] && |s.queue| >= QUEUE then 1 else 0)
            == |s.consumed| + |s.queue| + |Reported(e)|
  {
  }

  /** Each overflow costs exactly one report. */
  lemma {:induction false} OverflowsAreTheReportsLost(events: seq<Event>)
    ensures var s := Run(Step, Initial, events).0;
            |s.consumed| + |s.queue| + Overflows(events) == |AllReported(events)|
  {
    if events != [] {
      var n := |events| - 1;
      OverflowsAreTheReportsLost(events[..n]);
      EveryRunIsGood(events[..n]);
      StepCountsReports(Run(Step, Initial, events[..n]).0, events[n]);
    }
  }

  lemma {:induction false} NoOverflowMeansNeverFull(events: seq<Event>)
    requires Overflows(events) == 0
    ensures NeverFull(events)
  {
    if events != [] {
      var n := |events| - 1;
      NoOverflowMeansNeverFull(events[..n]);
      forall k | 0 <= k < |events| && Reported(events[k]) != [] ensures |Run(Step, Initial, events[..k]).0.queue| < QUEUE {
        if k < n { assert events[..n][..k] == events[..k] && events[..n][k] == events[k]; }
      }
    }
  }

  /** Every report is consumed or waiting, once and in order, if and only if 32 never wait when another arrives. */
  lemma NoReportIsLostIff(events: seq<Event>)
    ensures var s := Run(Step, Initial, events).0;
            s.consumed + s.queue == AllReported(events) <==> NeverFull(events)
  {
    var s := Run(Step, Initial, events).0;
    OverflowsAreTheReportsLost(events);
    if s.consumed + s.queue == AllReported(events) {
      assert |s.consumed + s.queue| == |s.consumed| + |s.queue|;
      NoOverflowMeansNeverFull(events);
    }
    if NeverFull(events) { RoomKeepsReports(events); }
  }

  predicate Increasing(at: seq<nat>) { forall i, j | 0 <= i < j < |at| :: at[i] < at[j] }

  predicate Includes(at: seq<nat>, k: nat) { exists i :: 0 <= i < |at| && at[i] == k }

  /**
   * `at` says which reports of the stream were consumed: in order, each once, none of those still waiting, and all
   * of the newest 32 that are not waiting. So a report is lost only once 32 newer ones have arrived.
   */
  ghost predicate Accounts(consumed: seq<nat>, queue: seq<nat>, stream: seq<nat>, at: seq<nat>) {
    && |at| == |consumed| && Increasing(at) && Suffix(queue, stream)
    && (forall i | 0 <= i < |at| :: at[i] < |stream| - |queue| && consumed[i] == stream[at[i]])
    && (forall k: nat {:trigger Includes(at, k)} | |stream| - 32 <= k < |stream| - |queue| :: Includes(at, k))
  }

  lemma ReportAccounts(consumed: seq<nat>, queue: seq<nat>, stream: seq<nat>, at: seq<nat>, v: nat)
    requires Accounts(consumed, queue, stream, at) && |queue| <= QUEUE
    ensures Accounts(consumed, Push(queue, v), stream + [v], at)
  {
    PushKeepsSuffix(queue, stream, v);
  }

  lemma ConsumeAccounts(consumed: seq<nat>, queue: seq<nat>, stream: seq<nat>, at: seq<nat>)
    requires Accounts(consumed, queue, stream, at) && queue != []
    ensures Accounts(consumed + [queue[0]], queue[1..], stream, at + [|stream| - |queue|])
  {
    var next := |stream| - |queue|;
    var at' := at + [next];
    assert queue[0] == stream[next];
    forall k: nat | |stream| - QUEUE <= k < next + 1 ensures Includes(at', k) {
      if k == next {
        assert at'[|at|] == k;
      } else {
        assert Includes(at, k);
        var i :| 0 <= i < |at| && at[i] == k;
        assert at'[i] == k;
      }
    }
  }

  lemma StepAccounts(s: Schedule, e: Event, stream: seq<nat>, at: seq<nat>) returns (at': seq<nat>)
    requires Accounts(s.consumed, s.queue, stream, at) && |s.queue| <= QUEUE
    ensures Accounts(Step(s, e).0.consumed, Step(s, e).0.queue, stream + Reported(e), at')
  {
    at' := at;
    if Reported(e) != [] {
      ReportAccounts(s.consumed, s.queue, stream, at, Reported(e)[0]);
    } else {
      assert stream + Reported(e) == stream;
      if e == Request && s.index == 0 && s.queue != [] {
        ConsumeAccounts(s.consumed, s.queue, stream, at);
        at' := at + [|stream| - |s.queue|];
      }
    }
  }

  /** On every run, overflowing or not, the reports are accounted for in this way. */
  lemma {:induction false} EveryRunAccounts(events: seq<Event>) returns (at: seq<nat>)
    ensures var s := Run(Step, Initial, events).0; Accounts(s.consumed, s.queue, AllReported(events), at)
  {
    if events == [] {
      at := [];
    } else {
      var n := |events| - 1;
      at := EveryRunAccounts(events[..n]);
      EveryRunIsGood(events[..n]);
      at := StepAccounts(Run(Step, Initial, events[..n]).0, events[n], AllReported(events[..n]), at);
    }
  }

  // ------------------------------------------------------------------ long-run rates

  /** Frames in the first n groups sent without feedback. */
  function NominalTotal(n: nat): nat { if n == 0 then 0 else NominalTotal(n - 1) + Total(NominalGroup(n)) }

  /** Without feedback the average is exactly 44.1 frames per millisecond. */
  lemma {:induction false} NominalRateIsExact(n: nat)
    ensures NominalTotal(n) == 441 * n / 10
  {
    if n > 0 {
      NominalRateIsExact(n - 1);
      assert Total(NominalGroup(n)) == if n % 10 == 0 then 45 else 44;
      TenthsOfFrames(n);
      TenthsOfFrames(n - 1);
    }
  }

  /** n requests in a row at a service rate other than one per microframe. */
  function Intervals(s: Schedule, rate: nat, service: nat, n: nat): (Schedule, seq<nat>)
    requires service > 0
  {
    if n == 0 then (s, [])
    else
      var (s1, out) := Intervals(s, rate, service, n - 1);
      var (s2, frames) := NextInterval(s1, rate, service);
      (s2, out + [frames])
  }

  lemma {:induction false} IntervalsSend(rate: nat, service: nat, n: nat)
    requires service > 0
    ensures var (s, out) := Intervals(Initial, rate, service, n);
            |out| == n && Sum(out) == Sent(rate, service, n) && s == Initial.(intervals := n)
  {
    if n > 0 {
      IntervalsSend(rate, service, n - 1);
      var (s1, out) := Intervals(Initial, rate, service, n - 1);
      SumAppend(out, NextInterval(s1, rate, service).1);
    }
  }

  /** At such a rate, n intervals carry exactly floor(n * rate / service) frames. */
  lemma OtherServiceRatesAreExact(rate: nat, service: nat, n: nat)
    requires service > 0
    ensures var (s, out) := Intervals(Initial, rate, service, n);
            |out| == n && Sum(out) == n * rate / service
  {
    IntervalsSend(rate, service, n);
    SentIsQuota(rate, service, n);
  }

  /** One request, for repeating; the schedule's index is always below 8. */
  function Next1(s: Schedule): (Schedule, nat) { if s.index < 8 then NextMicroframe(s) else (s, 0) }

  /** n requests in a row at one packet per microframe. */
  function Microframes(s: Schedule, n: nat): (Schedule, seq<nat>) { Repeat(Next1, s, n) }

  lemma WithinGroup(s: Schedule)
    requires 1 <= s.index < 8
    ensures Next1(s) == (s.(index := (s.index + 1) % 8), s.group[s.index])
  {
  }

  /** Eight requests from a group boundary send exactly the group chosen there and end at the next boundary. */
  lemma EightPacketsAreOneGroup(s: Schedule, n: nat)
    requires s.index == 0 && n == 8
    ensures Microframes(s, n) == (Refill(s), Refill(s).group)
  {
    var r := Refill(s);
    var states := seq(9, i requires 0 <= i < 9 => InGroup(s, r, i));
    forall i | 0 <= i < 8 ensures Next1(states[i]) == (states[i + 1], r.group[i]) {
      LinkInGroup(s, r, i);
    }
    RepeatChain(Next1, states, r.group, n);
    assert r.group[..n] == r.group;
  }

  /** The next millisecond follows the oldest waiting report: its row of the pattern table goes out, and the report is used up. */
  lemma EightPacketsFollowTheReport(s: Schedule)
    requires s.index == 0 && s.queue != [] && 42 <= s.queue[0] <= 46
    ensures var (s', sizes) := Microframes(s, 8);
            sizes == Pattern(s.queue[0]) && s'.queue == s.queue[1..] && s'.consumed == s.consumed + [s.queue[0]] && s'.index == 0
  {
    EightPacketsAreOneGroup(s, 8);
    assert (s.consumed + [s.queue[0]])[|s.consumed|] == s.queue[0];
  }

  /** Without a report the nominal pattern goes out, with 45 frames every tenth time. */
  lemma EightPacketsWithoutAReport(s: Schedule, g: Group)
    requires s.index == 0 && s.queue == [] && g == Pattern(if (s.nominal + 1) % 10 == 0 then 45 else 44)
    ensures Microframes(s, 8) == (s.(nominal := s.nominal + 1, group := g), g)
  {
    EightPacketsAreOneGroup(s, 8);
    NominalRefill(s, g);
  }

  lemma NominalRefill(s: Schedule, g: Group)
    requires s.queue == [] && g == NominalGroup(s.nominal + 1)
    ensures Refill(s) == s.(nominal := s.nominal + 1, group := g)
  {
  }

  /** The schedule after i packets of the group chosen at s. */
  function InGroup(s: Schedule, r: Schedule, i: nat): Schedule { if i == 0 then s else r.(index := i % 8) }

  lemma LinkInGroup(s: Schedule, r: Schedule, i: nat)
    requires s.index == 0 && r == Refill(s) && i < 8
    ensures Next1(InGroup(s, r, i)) == (InGroup(s, r, i + 1), r.group[i])
  {
    if i > 0 { WithinGroup(r.(index := i)); }
  }
}
