/**
 * The asynchronous read queue of AudioInputReader (8 slots) and MIDIInputReader (4 slots): every slot keeps one
 * USB read queued, completions arrive in any order, and results are delivered in submission order.
 */
module ReadQueue {

  /** What a read came back with: whether it is delivered as data, and whether reading may go on after it. */
  datatype Outcome<D> = Outcome(ok: bool, keep: bool, data: D)

  datatype Slot<D> = Idle | InFlight(sequence: nat) | Completed(sequence: nat, outcome: Outcome<D>)

  datatype State<D> = State(
    slots: seq<Slot<D>>, running: bool, nextSubmit: nat, nextProcess: nat, delivered: seq<Outcome<D>>)

  /** Whether the USB stack takes the read with a given sequence number. */
  type Accepts = nat -> bool

  function Submit<D>(s: State<D>, i: nat, accepts: Accepts): (State<D>, bool)
    requires i < |s.slots|
  {
    if !s.running || !s.slots[i].Idle? || !accepts(s.nextSubmit) then (s, false)
    else (s.(slots := s.slots[i := InFlight(s.nextSubmit)], nextSubmit := s.nextSubmit + 1), true)
  }

  predicate Ready<D>(slot: Slot<D>, k: nat) { slot.Completed? && slot.sequence == k }

  /** The first completed slot with sequence number k, or the number of slots. */
  function Find<D>(slots: seq<Slot<D>>, k: nat): (i: nat)
    ensures i <= |slots| && (i < |slots| ==> Ready(slots[i], k))
    ensures forall j | 0 <= j < i :: !Ready(slots[j], k)
  {
    if slots == [] then 0
    else if Ready(slots[0], k) then 0
    else 1 + Find(slots[1..], k)
  }

  /** Delivers slot i and submits it again. */
  function DrainStep<D>(s: State<D>, i: nat, accepts: Accepts): State<D>
    requires i < |s.slots| && s.slots[i].Completed?
  {
    var o := s.slots[i].outcome;
    var s1 := s.(slots := s.slots[i := Idle], nextProcess := s.nextProcess + 1, delivered := s.delivered + [o],
                 running := s.running && o.keep);
    if !s1.running then s1
    else var (s2, ok) := Submit(s1, i, accepts); s2.(running := ok)
  }

  function CompletedCount<D>(slots: seq<Slot<D>>): nat {
    if slots == [] then 0 else CompletedCount(slots[1..]) + if slots[0].Completed? then 1 else 0
  }

  lemma {:induction false} CompletedCountOfUpdate<D>(slots: seq<Slot<D>>, i: nat, x: Slot<D>)
    requires i < |slots|
    ensures CompletedCount(slots[i := x])
            == CompletedCount(slots) - (if slots[i].Completed? then 1 else 0) + (if x.Completed? then 1 else 0)
  {
    if i == 0 {
      assert slots[0 := x][1..] == slots[1..];
    } else {
      CompletedCountOfUpdate(slots[1..], i - 1, x);
      assert slots[i := x][1..] == slots[1..][i - 1 := x];
    }
  }

  lemma DrainStepTakesOne<D>(s: State<D>, i: nat, accepts: Accepts)
    requires i < |s.slots| && s.slots[i].Completed?
    ensures CompletedCount(DrainStep(s, i, accepts).slots) + 1 == CompletedCount(s.slots)
  {
    CompletedCountOfUpdate(s.slots, i, Idle);
    CompletedCountOfUpdate(s.slots[i := Idle], i, InFlight(s.nextSubmit));
  }

  /** drainCompletions: delivers in sequence for as long as the next one has completed. */
  function Drain<D>(s: State<D>, accepts: Accepts): State<D>
    decreases CompletedCount(s.slots)
  {
    var i := Find(s.slots, s.nextProcess);
    if i == |s.slots| then s
    else
      DrainStepTakesOne(s, i, accepts);
      Drain(DrainStep(s, i, accepts), accepts)
  }

  /** A read completes. */
  function Complete<D>(s: State<D>, i: nat, o: Outcome<D>, accepts: Accepts): State<D>
    requires i < |s.slots| && s.slots[i].InFlight?
  {
    Drain(s.(slots := s.slots[i := Completed(s.slots[i].sequence, o)]), accepts)
  }

  /** The submissions of `start`, from slot i on; it stops at the first one refused. */
  function SubmitAll<D>(s: State<D>, i: nat, accepts: Accepts): State<D>
    requires i <= |s.slots|
    decreases |s.slots| - i
  {
    if i == |s.slots| then s
    else
      var (s1, ok) := Submit(s, i, accepts);
      if ok then SubmitAll(s1, i + 1, accepts) else s1.(running := false)
  }

  function Fresh<D>(n: nat): State<D> {
    State(seq(n, _ => Idle), true, 0, 0, [])
  }

  function Start<D>(n: nat, accepts: Accepts): State<D> {
    SubmitAll(Fresh(n), 0, accepts)
  }

  // ------------------------------------------------------------------ what every step keeps

  predicate Carries<D>(slot: Slot<D>, k: nat) { !slot.Idle? && slot.sequence == k }

  predicate Carried<D>(slots: seq<Slot<D>>, k: nat) { exists i :: 0 <= i < |slots| && Carries(slots[i], k) }

  /** The live slots carry exactly the sequence numbers handed out and not yet processed, one each. */
  ghost predicate Inv<D>(s: State<D>) {
    && s.nextProcess <= s.nextSubmit && |s.delivered| == s.nextProcess
    && (forall i | 0 <= i < |s.slots| && !s.slots[i].Idle? :: s.nextProcess <= s.slots[i].sequence < s.nextSubmit)
    && (forall i, j | 0 <= i < j < |s.slots| && !s.slots[i].Idle? && !s.slots[j].Idle? ::
          s.slots[i].sequence != s.slots[j].sequence)
    && (forall k | s.nextProcess <= k < s.nextSubmit :: Carried(s.slots, k))
  }

  predicate AllLive<D>(s: State<D>) { forall i | 0 <= i < |s.slots| :: !s.slots[i].Idle? }

  predicate Drained<D>(s: State<D>) { forall i | 0 <= i < |s.slots| :: !Ready(s.slots[i], s.nextProcess) }

  lemma SubmitKeepsInv<D>(s: State<D>, i: nat, accepts: Accepts)
    requires Inv(s) && i < |s.slots|
    ensures Inv(Submit(s, i, accepts).0)
  {
    var (t, ok) := Submit(s, i, accepts);
    if ok {
      forall k | t.nextProcess <= k < t.nextSubmit ensures Carried(t.slots, k) {
        assert k < s.nextSubmit ==> Carried(s.slots, k);
        if k == s.nextSubmit {
          assert Carries(t.slots[i], k);
        } else {
          var j :| 0 <= j < |s.slots| && Carries(s.slots[j], k);
          assert Carries(t.slots[j], k);
        }
      }
    }
  }

  /** Delivering the slot with the next sequence number frees that number and no other. */
  lemma TakeKeepsInv<D>(s: State<D>, i: nat, running: bool)
    requires Inv(s) && i < |s.slots| && Ready(s.slots[i], s.nextProcess)
    ensures Inv(s.(slots := s.slots[i := Idle], nextProcess := s.nextProcess + 1,
                   delivered := s.delivered + [s.slots[i].outcome], running := running))
  {
    var t := s.(slots := s.slots[i := Idle], nextProcess := s.nextProcess + 1,
                delivered := s.delivered + [s.slots[i].outcome], running := running);
    forall k | t.nextProcess <= k < t.nextSubmit ensures Carried(t.slots, k) {
      assert k < s.nextSubmit ==> Carried(s.slots, k);
      var j :| 0 <= j < |s.slots| && Carries(s.slots[j], k);
      assert Carries(t.slots[j], k);
    }
  }

  lemma DrainStepKeepsInv<D>(s: State<D>, i: nat, accepts: Accepts)
    requires Inv(s) && i < |s.slots| && Ready(s.slots[i], s.nextProcess) && (s.running ==> AllLive(s))
    ensures var t := DrainStep(s, i, accepts);
            Inv(t) && (t.running ==> AllLive(t)) && |t.slots| == |s.slots|
  {
    var o := s.slots[i].outcome;
    var s1 := s.(slots := s.slots[i := Idle], nextProcess := s.nextProcess + 1, delivered := s.delivered + [o],
                 running := s.running && o.keep);
    TakeKeepsInv(s, i, s1.running);
    SubmitKeepsInv(s1, i, accepts);
  }

  /** The drain keeps the invariant and stops only when the next read in sequence has not completed. */
  lemma {:induction false} DrainKeepsInv<D>(s: State<D>, accepts: Accepts)
    requires Inv(s) && (s.running ==> AllLive(s))
    ensures var t := Drain(s, accepts);
            Inv(t) && (t.running ==> AllLive(t)) && Drained(t) && |t.slots| == |s.slots|
    decreases CompletedCount(s.slots)
  {
    var i := Find(s.slots, s.nextProcess);
    if i < |s.slots| {
      DrainStepKeepsInv(s, i, accepts);
      DrainStepTakesOne(s, i, accepts);
      DrainKeepsInv(DrainStep(s, i, accepts), accepts);
    }
  }

  lemma {:induction false} SubmitAllKeepsInv<D>(s: State<D>, i: nat, accepts: Accepts)
    requires Inv(s) && i <= |s.slots| && s.running
    requires forall j | 0 <= j < |s.slots| :: s.slots[j].Idle? <==> i <= j
    requires forall j | 0 <= j < |s.slots| :: !s.slots[j].Completed?
    ensures var t := SubmitAll(s, i, accepts);
            && Inv(t) && (t.running ==> AllLive(t)) && Drained(t) && |t.slots| == |s.slots|
            && (forall j | 0 <= j < |t.slots| :: !t.slots[j].Completed?)
            && t.nextProcess == s.nextProcess && t.delivered == s.delivered
    decreases |s.slots| - i
  {
    if i < |s.slots| {
      SubmitKeepsInv(s, i, accepts);
      var (s1, ok) := Submit(s, i, accepts);
      if ok { SubmitAllKeepsInv(s1, i + 1, accepts); }
    }
  }

  /** Nothing is stranded: once no read is in flight, every read ever submitted has been delivered. */
  lemma QuietMeansAllDelivered<D>(s: State<D>)
    requires Inv(s) && Drained(s) && forall i | 0 <= i < |s.slots| :: !s.slots[i].InFlight?
    ensures s.nextProcess == s.nextSubmit == |s.delivered| && forall i | 0 <= i < |s.slots| :: s.slots[i].Idle?
  {
    assert s.nextProcess < s.nextSubmit ==> Carried(s.slots, s.nextProcess);
  }

  // ------------------------------------------------------------------ runs

  datatype Event<D> = Completion(slot: nat, outcome: Outcome<D>) | Stop

  /** A reader together with what each read came back with, by sequence number. */
  datatype World<D> = World(reader: State<D>, results: map<nat, Outcome<D>>)

  predicate Enabled<D>(w: World<D>, e: Event<D>) {
    e.Completion? ==> e.slot < |w.reader.slots| && w.reader.slots[e.slot].InFlight?
  }

  function Apply<D>(w: World<D>, e: Event<D>, accepts: Accepts): World<D>
    requires Enabled(w, e)
  {
    match e
    case Completion(i, o) => World(Complete(w.reader, i, o, accepts), w.results[w.reader.slots[i].sequence := o])
    case Stop => w.(reader := w.reader.(running := false))
  }

  /** Any read in flight may complete next, with any outcome, and stopping is possible at any time. */
  lemma EveryReadMayComplete<D>(w: World<D>, i: nat, o: Outcome<D>)
    requires i < |w.reader.slots|
    ensures Enabled(w, Completion(i, o)) <==> w.reader.slots[i].InFlight?
    ensures Enabled(w, Stop)
  {
  }

  /** Delivered so far: the results of reads 0, 1, 2, ... in that order; what waits in a slot is its read's result. */
  ghost predicate Faithful<D>(s: State<D>, results: map<nat, Outcome<D>>) {
    && (forall k | 0 <= k < |s.delivered| :: k in results && s.delivered[k] == results[k])
    && (forall i | 0 <= i < |s.slots| && s.slots[i].Completed? ::
          s.slots[i].sequence in results && results[s.slots[i].sequence] == s.slots[i].outcome)
    && (forall i | 0 <= i < |s.slots| && s.slots[i].InFlight? :: s.slots[i].sequence !in results)
    && (forall k | k in results :: k < s.nextSubmit)
  }

  ghost predicate Good<D>(w: World<D>) {
    Inv(w.reader) && Drained(w.reader) && (w.reader.running ==> AllLive(w.reader)) && Faithful(w.reader, w.results)
  }

  lemma DrainStepIsFaithful<D>(s: State<D>, i: nat, accepts: Accepts, results: map<nat, Outcome<D>>)
    requires Inv(s) && i < |s.slots| && Ready(s.slots[i], s.nextProcess) && Faithful(s, results)
    ensures Faithful(DrainStep(s, i, accepts), results)
  {
    assert |s.delivered| == s.slots[i].sequence;
  }

  lemma {:induction false} DrainIsFaithful<D>(s: State<D>, accepts: Accepts, results: map<nat, Outcome<D>>)
    requires Inv(s) && (s.running ==> AllLive(s)) && Faithful(s, results)
    ensures Faithful(Drain(s, accepts), results)
    decreases CompletedCount(s.slots)
  {
    var i := Find(s.slots, s.nextProcess);
    if i < |s.slots| {
      DrainStepKeepsInv(s, i, accepts);
      DrainStepIsFaithful(s, i, accepts, results);
      DrainStepTakesOne(s, i, accepts);
      DrainIsFaithful(DrainStep(s, i, accepts), accepts, results);
    }
  }

  lemma MarkKeepsInv<D>(s: State<D>, i: nat, o: Outcome<D>)
    requires Inv(s) && i < |s.slots| && s.slots[i].InFlight? && (s.running ==> AllLive(s))
    ensures var t := s.(slots := s.slots[i := Completed(s.slots[i].sequence, o)]);
            Inv(t) && (t.running ==> AllLive(t))
  {
    var t := s.(slots := s.slots[i := Completed(s.slots[i].sequence, o)]);
    forall k | t.nextProcess <= k < t.nextSubmit ensures Carried(t.slots, k) {
      assert k < s.nextSubmit ==> Carried(s.slots, k);
      var j :| 0 <= j < |s.slots| && Carries(s.slots[j], k);
      assert Carries(t.slots[j], k);
    }
  }

  lemma MarkIsFaithful<D>(s: State<D>, i: nat, o: Outcome<D>, results: map<nat, Outcome<D>>)
    requires Inv(s) && i < |s.slots| && s.slots[i].InFlight? && Faithful(s, results)
    ensures Faithful(s.(slots := s.slots[i := Completed(s.slots[i].sequence, o)]), results[s.slots[i].sequence := o])
  {
  }

  lemma EventKeepsGood<D>(w: World<D>, e: Event<D>, accepts: Accepts)
    requires Good(w) && Enabled(w, e)
    ensures Good(Apply(w, e, accepts))
  {
    if e.Completion? {
      var s := w.reader;
      var t := s.(slots := s.slots[e.slot := Completed(s.slots[e.slot].sequence, e.outcome)]);
      MarkKeepsInv(s, e.slot, e.outcome);
      MarkIsFaithful(s, e.slot, e.outcome, w.results);
      DrainKeepsInv(t, accepts);
      DrainIsFaithful(t, accepts, w.results[s.slots[e.slot].sequence := e.outcome]);
    }
  }

  ghost predicate Run<D>(n: nat, worlds: seq<World<D>>, events: seq<Event<D>>, accepts: Accepts) {
    && |worlds| == |events| + 1 && worlds[0] == World(Start(n, accepts), map[])
    && forall i | 0 <= i < |events| :: Enabled(worlds[i], events[i]) && worlds[i + 1] == Apply(worlds[i], events[i], accepts)
  }

  /**
   * For every order of completions, every refusal and every stop: live slots carry exactly the pending sequence
   * numbers, all slots stay live while running, and what has been delivered is the result of each read, in
   * submission order, once.
   */
  lemma {:induction false} EveryRunIsGood<D>(n: nat, worlds: seq<World<D>>, events: seq<Event<D>>, accepts: Accepts, k: nat)
    requires Run(n, worlds, events, accepts) && k <= |events|
    ensures Good(worlds[k])
  {
    if k == 0 {
      SubmitAllKeepsInv(Fresh<D>(n), 0, accepts);
    } else {
      EveryRunIsGood(n, worlds, events, accepts, k - 1);
      EventKeepsGood(worlds[k - 1], events[k - 1], accepts);
    }
  }

  /** So whenever nothing is in flight, every read ever submitted has been delivered, in order. */
  lemma NoResultIsStranded<D>(n: nat, worlds: seq<World<D>>, events: seq<Event<D>>, accepts: Accepts, k: nat)
    requires Run(n, worlds, events, accepts) && k <= |events|
    requires forall i | 0 <= i < |worlds[k].reader.slots| :: !worlds[k].reader.slots[i].InFlight?
    ensures var s := worlds[k].reader;
            && |s.delivered| == s.nextSubmit && (forall j: nat :: j in worlds[k].results <==> j < s.nextSubmit)
            && forall j | 0 <= j < s.nextSubmit :: s.delivered[j] == worlds[k].results[j]
  {
    EveryRunIsGood(n, worlds, events, accepts, k);
    QuietMeansAllDelivered(worlds[k].reader);
  }

  /** A stopped reader delivers what is left and submits nothing more. */
  lemma {:induction false} StoppedReaderOnlyDelivers<D>(s: State<D>, accepts: Accepts)
    requires !s.running
    ensures var t := Drain(s, accepts);
            !t.running && t.nextSubmit == s.nextSubmit && s.delivered <= t.delivered
    decreases CompletedCount(s.slots)
  {
    var i := Find(s.slots, s.nextProcess);
    if i < |s.slots| {
      DrainStepTakesOne(s, i, accepts);
      StoppedReaderOnlyDelivers(DrainStep(s, i, accepts), accepts);
    }
  }

  // ------------------------------------------------------------------ when reading goes on

  predicate AllAccepted(accepts: Accepts, n: nat) { forall j: nat | j < n :: accepts(j) }

  predicate AllKept<D>(delivered: seq<Outcome<D>>) { forall i | 0 <= i < |delivered| :: delivered[i].keep }

  /** A reader of n slots runs exactly as long as nobody stops it, every delivered read lets it go on, and no read is refused. */
  predicate GoesOn<D>(s: State<D>, n: nat, stopped: bool, accepts: Accepts) {
    && |s.slots| == n && |s.delivered| == s.nextProcess && (s.running ==> s.nextSubmit == n + s.nextProcess)
    && (s.running <==> !stopped && AllKept(s.delivered) && AllAccepted(accepts, n + s.nextProcess))
  }

  lemma DrainStepGoesOn<D>(s: State<D>, i: nat, n: nat, stopped: bool, accepts: Accepts)
    requires GoesOn(s, n, stopped, accepts) && i < |s.slots| && s.slots[i].Completed?
    ensures GoesOn(DrainStep(s, i, accepts), n, stopped, accepts)
  {
    var t := DrainStep(s, i, accepts);
    assert t.delivered == s.delivered + [s.slots[i].outcome];
    assert AllKept(t.delivered) <==> AllKept(s.delivered) && s.slots[i].outcome.keep by {
      assert forall j | 0 <= j < |s.delivered| :: t.delivered[j] == s.delivered[j];
      assert t.delivered[|s.delivered|] == s.slots[i].outcome;
    }
    assert AllAccepted(accepts, n + t.nextProcess) <==> AllAccepted(accepts, n + s.nextProcess) && accepts(n + s.nextProcess);
  }

  lemma {:induction false} DrainGoesOn<D>(s: State<D>, n: nat, stopped: bool, accepts: Accepts)
    requires GoesOn(s, n, stopped, accepts)
    ensures GoesOn(Drain(s, accepts), n, stopped, accepts)
    decreases CompletedCount(s.slots)
  {
    var i := Find(s.slots, s.nextProcess);
    if i < |s.slots| {
      DrainStepGoesOn(s, i, n, stopped, accepts);
      DrainStepTakesOne(s, i, accepts);
      DrainGoesOn(DrainStep(s, i, accepts), n, stopped, accepts);
    }
  }

  lemma {:induction false} StartGoesOn<D>(s: State<D>, i: nat, accepts: Accepts)
    requires i <= |s.slots| && s.running && s.nextSubmit == i && s.nextProcess == 0 && s.delivered == [] && AllAccepted(accepts, i)
    requires forall j | i <= j < |s.slots| :: s.slots[j].Idle?
    ensures GoesOn(SubmitAll(s, i, accepts), |s.slots|, false, accepts)
    decreases |s.slots| - i
  {
    if i < |s.slots| && accepts(i) { StartGoesOn(Submit(s, i, accepts).0, i + 1, accepts); }
  }

  ghost predicate Stopped<D>(events: seq<Event<D>>, k: nat)
    requires k <= |events|
  {
    exists i :: 0 <= i < k && events[i].Stop?
  }

  /** So on every run, whatever order the reads complete in. */
  lemma {:induction false} ReadingGoesOnExactlyWhile<D>(n: nat, worlds: seq<World<D>>, events: seq<Event<D>>, accepts: Accepts, k: nat)
    requires Run(n, worlds, events, accepts) && k <= |events|
    ensures GoesOn(worlds[k].reader, n, Stopped(events, k), accepts)
  {
    if k == 0 {
      StartGoesOn(Fresh<D>(n), 0, accepts);
    } else {
      ReadingGoesOnExactlyWhile(n, worlds, events, accepts, k - 1);
      var w, e := worlds[k - 1], events[k - 1];
      assert Enabled(w, e) && worlds[k] == Apply(w, e, accepts);
      assert Stopped(events, k) <==> Stopped(events, k - 1) || e.Stop?;
      if e.Completion? {
        DrainGoesOn(w.reader.(slots := w.reader.slots[e.slot := Completed(w.reader.slots[e.slot].sequence, e.outcome)]),
                    n, Stopped(events, k - 1), accepts);
      }
    }
  }

  // ------------------------------------------------------------------ the reader object

  class Reader<D> {
    const slots: array<Slot<D>>
    var running: bool
    var nextSubmit: nat
    var nextProcess: nat

    // Everything handed on so far.
    var delivered: seq<Outcome<D>>

    ghost function Abs(): State<D>
      reads this, slots
    {
      State(slots[..], running, nextSubmit, nextProcess, delivered)
    }

    /** start: all slots are submitted in order, or up to the first refusal. */
    constructor (n: nat, accepts: Accepts)
      ensures fresh(slots) && slots.Length == n && Abs() == Start(n, accepts)
    {
      slots := new Slot<D>[n](_ => Idle);
      running, nextSubmit, nextProcess, delivered := true, 0, 0, [];
      new;
      assert Abs() == Fresh(n);
      var i := 0;
      while i < n && running
        invariant i <= n && fresh(slots)
        invariant Start(n, accepts) == if running then SubmitAll(Abs(), i, accepts) else Abs()
      {
        var ok := SubmitSlot(i, accepts);
        running := ok;
        i := i + 1;
      }
    }

    method SubmitSlot(i: nat, accepts: Accepts) returns (ok: bool)
      requires i < slots.Length
      modifies this`nextSubmit, slots
      ensures (Abs(), ok) == Submit(old(Abs()), i, accepts)
    {
      if !running || !slots[i].Idle? || !accepts(nextSubmit) { return false; }
      slots[i] := InFlight(nextSubmit);
      nextSubmit := nextSubmit + 1;
      ok := true;
    }

    method FindNext() returns (i: nat)
      ensures i == Find(slots[..], nextProcess)
    {
      i := 0;
      while i < slots.Length && !Ready(slots[i], nextProcess)
        invariant i <= slots.Length && forall j | 0 <= j < i :: !Ready(slots[j], nextProcess)
      {
        i := i + 1;
      }
      assert forall j | 0 <= j < i :: !Ready(slots[..][j], nextProcess);
    }

    method Deliver(i: nat, accepts: Accepts)
      requires i < slots.Length && slots[i].Completed?
      modifies this, slots
      ensures Abs() == DrainStep(old(Abs()), i, accepts)
    {
      var outcome := slots[i].outcome;
      delivered := delivered + [outcome];
      if !outcome.keep { running := false; }
      slots[i] := Idle;
      nextProcess := nextProcess + 1;
      if running { running := SubmitSlot(i, accepts); }
    }

    /** drainCompletions; it ends because each turn uses up one completed slot. */
    method DrainCompletions(accepts: Accepts)
      modifies this, slots
      ensures Abs() == Drain(old(Abs()), accepts)
    {
      var i := FindNext();
      while i < slots.Length
        invariant i == Find(slots[..], nextProcess) && Drain(Abs(), accepts) == Drain(old(Abs()), accepts)
        decreases CompletedCount(slots[..])
      {
        DrainStepTakesOne(Abs(), i, accepts);
        Deliver(i, accepts);
        i := FindNext();
      }
    }

    /** didComplete. */
    method DidComplete(i: nat, outcome: Outcome<D>, accepts: Accepts)
      requires i < slots.Length && slots[i].InFlight?
      modifies this, slots
      ensures Abs() == Complete(old(Abs()), i, outcome, accepts)
    {
      slots[i] := Completed(slots[i].sequence, outcome);
      DrainCompletions(accepts);
    }
  }
}
