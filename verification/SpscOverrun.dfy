/** Why AudioOutputRing's capacity has to divide 2^32: for every other capacity some run overwrites an unread frame. */
module SpscOverrun {
  import opened RingIndex
  import opened SpscRing

  /** Every frame accepted and not given back is in the slot the code computes for it. */
  ghost predicate UnreadHeld<T>(s: State<T>) {
    |s.samples| > 0 && forall p | s.released <= p < |s.accepted| :: s.samples[Slot(p, |s.samples|)] == s.accepted[p]
  }

  function Last<T>(states: seq<State<T>>): State<T>
    requires states != []
  {
    states[|states| - 1]
  }

  lemma Extend<T>(states: seq<State<T>>, steps: seq<Step<T>>, step: Step<T>) returns (states': seq<State<T>>, steps': seq<Step<T>>)
    requires Run(states, steps) && Enabled(Last(states), step)
    ensures Run(states', steps') && states' == states + [Apply(Last(states), step)] && steps' == steps + [step]
  {
    states', steps' := states + [Apply(Last(states), step)], steps + [step];
    forall i | 0 <= i < |steps'| ensures Enabled(states'[i], steps'[i]) && states'[i + 1] == Apply(states'[i], steps'[i]) {
      if i < |steps| { assert Enabled(states[i], steps[i]) && states[i + 1] == Apply(states[i], steps[i]); }
    }
  }

  lemma CopyIndexInRange(c: nat, count: nat, i: nat, cap: nat)
    requires i < count <= cap
    ensures CopyIndex(c, count, i, cap) < cap
  {
  }

  /** Both threads idle after n frames written and r of them read. */
  ghost predicate Resting<T>(s: State<T>, cap: nat, n: nat, r: nat) {
    && |s.samples| == cap && s.producer == WriterIdle && s.consumer == ReaderIdle
    && |s.accepted| == n && s.released == r && s.writeFrame == n % WORD && s.readFrame == r % WORD
  }

  predicate RingSize(cap: nat) { 0 < cap <= 0x7fff_ffff }

  /** A write in progress from counter w that has copied `copied` of its frames. */
  ghost predicate Writing<T>(s: State<T>, cap: nat, n: nat, r: nat, input: seq<T>, copied: nat) {
    && |s.samples| == cap && s.consumer == ReaderIdle && s.producer == WriterCopying(input, n % WORD, |input|, copied)
    && |s.accepted| == n && s.released == r && s.writeFrame == n % WORD && s.readFrame == r % WORD
  }

  lemma BeginWrite<T>(states: seq<State<T>>, steps: seq<Step<T>>, cap: nat, n: nat, r: nat, input: seq<T>)
    returns (states': seq<State<T>>, steps': seq<Step<T>>)
    requires Run(states, steps) && RingSize(cap) && Resting(Last(states), cap, n, r) && r <= n && input != [] && n - r + |input| <= cap
    ensures Run(states', steps') && Writing(Last(states'), cap, n, r, input, 0)
    ensures Last(states').samples == Last(states).samples && Last(states').accepted == Last(states).accepted
    ensures states'[0] == states[0]
  {
    states', steps' := Extend(states, steps, WriteBegin(input));
    Sub32IsDistance(n, r);
    states', steps' := Extend(states', steps', WriteLoadRead);
  }

  lemma WriteOne<T>(states: seq<State<T>>, steps: seq<Step<T>>, cap: nat, n: nat, x: T)
    returns (states': seq<State<T>>, steps': seq<Step<T>>)
    requires Run(states, steps) && RingSize(cap) && Resting(Last(states), cap, n, n)
    ensures Run(states', steps') && Resting(Last(states'), cap, n + 1, n)
    ensures Last(states').samples == Last(states).samples[n % WORD % cap := x]
    ensures Last(states').accepted == Last(states).accepted + [x] && states'[0] == states[0]
  {
    states', steps' := BeginWrite(states, steps, cap, n, n, [x]);
    CopyIndexInRange(n % WORD, 1, 0, cap);
    states', steps' := Extend(states', steps', WriteCopy);
    Add32IsSum(n, 1);
    states', steps' := Extend(states', steps', WriteStore);
  }

  lemma ReadOne<T>(states: seq<State<T>>, steps: seq<Step<T>>, cap: nat, n: nat)
    returns (states': seq<State<T>>, steps': seq<Step<T>>)
    requires Run(states, steps) && RingSize(cap) && Resting(Last(states), cap, n + 1, n)
    ensures Run(states', steps') && Resting(Last(states'), cap, n + 1, n + 1) && states'[0] == states[0]
  {
    states', steps' := Extend(states, steps, ReadBegin(Frames(1)));
    Sub32IsDistance(n + 1, n);
    states', steps' := Extend(states', steps', ReadLoadWrite);
    CopyIndexInRange(n % WORD, 1, 0, cap);
    states', steps' := Extend(states', steps', ReadCopy);
    Add32IsSum(n, 1);
    states', steps' := Extend(states', steps', ReadStore);
  }

  /** A run that writes and reads n frames one at a time. */
  lemma {:induction false} OneAtATime<T>(cap: nat, n: nat, x: T) returns (states: seq<State<T>>, steps: seq<Step<T>>)
    requires RingSize(cap)
    ensures Run(states, steps) && Resting(Last(states), cap, n, n) && |states[0].samples| == cap
    decreases n
  {
    if n == 0 {
      states, steps := [State(seq(cap, _ => x), 0, 0, WriterIdle, ReaderIdle, [], 0, [])], [];
    } else {
      states, steps := OneAtATime(cap, n - 1, x);
      states, steps := WriteOne(states, steps, cap, n - 1, x);
      states, steps := ReadOne(states, steps, cap, n - 1);
    }
  }

  /** j copies of a write whose counter has wrapped to 0 fill the first j slots. */
  lemma {:induction false} CopyFromZero<T>(states: seq<State<T>>, steps: seq<Step<T>>, cap: nat, r: nat, input: seq<T>, j: nat)
    returns (states': seq<State<T>>, steps': seq<Step<T>>)
    requires Run(states, steps) && Writing(Last(states), cap, WORD, r, input, 0) && j <= |input| <= cap
    ensures Run(states', steps') && Writing(Last(states'), cap, WORD, r, input, j)
    ensures Last(states').samples == input[..j] + Last(states).samples[j..]
    ensures Last(states').accepted == Last(states).accepted && states'[0] == states[0]
    decreases j
  {
    if j == 0 {
      states', steps' := states, steps;
    } else {
      states', steps' := CopyFromZero(states, steps, cap, r, input, j - 1);
      ZeroOffset(|input|, j - 1, cap);
      states', steps' := Extend(states', steps', WriteCopy);
    }
  }

  lemma ZeroOffset(count: nat, i: nat, cap: nat)
    requires i < count <= cap
    ensures CopyIndex(WORD % WORD, count, i, cap) == i
  {
    ModOf(0, cap, 0, 0);
  }

  lemma LastSlotBeforeWrap(cap: nat)
    requires RingSize(cap) && WORD % cap != 0
    ensures (WORD - 1) % WORD % cap == WORD % cap - 1 && WORD % cap < cap
  {
    var r := WORD % cap;
    assert WORD - 1 == WORD / cap * cap + (r - 1);
    ModOf(WORD - 1, cap, WORD / cap, r - 1);
  }

  /**
   * For every capacity that does not divide 2^32 there is a run in which the copy of a new frame overwrites the frame
   * written last before the counter wrapped, which nobody has read.
   */
  lemma WrapOverwritesAnUnreadFrame<T>(cap: nat, x: T, y: T) returns (states: seq<State<T>>, steps: seq<Step<T>>)
    requires RingSize(cap) && WORD % cap != 0 && x != y
    ensures Run(states, steps) && |states[0].samples| == cap && steps != [] && steps[|steps| - 1] == WriteCopy
    ensures var before := states[|steps| - 1];
            |before.samples| == cap && before.samples[Slot(WORD - 1, cap)] == x
    ensures var s := Last(states);
            && s.released <= WORD - 1 < |s.accepted| && s.accepted[WORD - 1] == x
            && |s.samples| == cap && s.samples[Slot(WORD - 1, cap)] == y
  {
    var r := WORD % cap;
    LastSlotBeforeWrap(cap);
    states, steps := OneAtATime(cap, WORD - 1, x);
    states, steps := WriteOne(states, steps, cap, WORD - 1, x);
    var input := seq(r, _ => y);
    states, steps := BeginWrite(states, steps, cap, WORD, WORD - 1, input);
    states, steps := CopyFromZero(states, steps, cap, WORD - 1, input, r - 1);
    ZeroOffset(r, r - 1, cap);
    states, steps := Extend(states, steps, WriteCopy);
  }

  lemma DividingCapacityHolds<T>(states: seq<State<T>>, steps: seq<Step<T>>, cap: nat)
    requires Run(states, steps) && |states[0].samples| == cap && DividesWord(cap)
    ensures UnreadHeld(Last(states))
  {
    var n := |steps|;
    CapacityIsFixed(states, steps, n);
    forall i | 0 <= i <= n ensures |states[i].samples| > 0 && WrapSafe(|states[i].samples|, Written(states[i])) {
      CapacityIsFixed(states, steps, i);
    }
    forall p | states[n].released <= p < |states[n].accepted| ensures states[n].samples[Slot(p, cap)] == states[n].accepted[p] {
      UnreadFramesAreNeverOverwritten(states, steps, n, p);
    }
  }

  /** The ring keeps every unread frame on every run if and only if its capacity divides 2^32. */
  lemma RingIsSafeForEverIff<T(!new)>(cap: nat, x: T, y: T)
    requires RingSize(cap) && x != y
    ensures 0x1_0000_0000 % cap == 0 <==>
            forall states: seq<State<T>>, steps: seq<Step<T>> {:trigger Run(states, steps)} |
              Run(states, steps) && |states[0].samples| == cap :: UnreadHeld(Last(states))
  {
    WrapIsMod(WORD, cap);
    if WORD % cap == 0 {
      forall states: seq<State<T>>, steps: seq<Step<T>> | Run(states, steps) && |states[0].samples| == cap
        ensures UnreadHeld(Last(states))
      {
        DividingCapacityHolds(states, steps, cap);
      }
    } else {
      var states, steps := WrapOverwritesAnUnreadFrame(cap, x, y);
      CapacityIsFixed(states, steps, |steps|);
      assert !UnreadHeld(Last(states));
    }
  }
}
