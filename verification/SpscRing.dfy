/**
 * AudioOutputRing as one producer and one consumer thread see it: every atomic load, every frame copied
 * and every atomic store is a step of its own, and the steps of the two threads interleave freely.
 * Atomics are sequentially consistent.
 */
module SpscRing {
  import opened RingIndex

  datatype Producer<T> =
    | WriterIdle
    | WriterLoaded(input: seq<T>, w: nat)
    | WriterCopying(input: seq<T>, w: nat, count: nat, copied: nat)

  /** `want` is None for readResampled, which may look at any available frame in any order. */
  datatype Consumer =
    | ReaderIdle
    | ReaderLoaded(want: Want, r: nat)
    | Reading(r: nat, count: nat, copied: nat)
    | Resampling(r: nat, available: nat)

  datatype Want = Frames(n: nat) | Resampled

  /**
   * Shared memory, the two threads' registers, and three histories: the frames accepted by `write`,
   * how many of them the consumer has given back, and every (position, value) the consumer has copied out.
   */
  datatype State<T> = State(
    samples: seq<T>, writeFrame: nat, readFrame: nat,
    producer: Producer<T>, consumer: Consumer,
    accepted: seq<T>, released: nat, seen: seq<(nat, T)>)

  datatype Step<T> =
    | WriteBegin(input: seq<T>) | WriteLoadRead | WriteCopy | WriteStore
    | ReadBegin(want: Want) | ReadLoadWrite | ReadCopy | ReadStore
    | Peek(offset: nat) | ResampleStore(consumed: nat)

  predicate Enabled<T>(s: State<T>, step: Step<T>) {
    match step
    case WriteBegin(input) => s.producer.WriterIdle? && 0 < |input| < WORD
    case WriteLoadRead => s.producer.WriterLoaded?
    case WriteCopy => s.producer.WriterCopying? && s.producer.copied < s.producer.count <= |s.producer.input|
                      && |s.samples| > 0
                      && CopyIndex(s.producer.w, s.producer.count, s.producer.copied, |s.samples|) < |s.samples|
    case WriteStore => s.producer.WriterCopying? && s.producer.copied == s.producer.count <= |s.producer.input|
    case ReadBegin(want) => s.consumer.ReaderIdle? && (want.Frames? ==> 0 < want.n < WORD)
    case ReadLoadWrite => s.consumer.ReaderLoaded?
    case ReadCopy => s.consumer.Reading? && s.consumer.copied < s.consumer.count
                     && |s.samples| > 0
                     && CopyIndex(s.consumer.r, s.consumer.count, s.consumer.copied, |s.samples|) < |s.samples|
    case ReadStore => s.consumer.Reading? && s.consumer.copied == s.consumer.count
    case Peek(offset) => s.consumer.Resampling? && offset < s.consumer.available && |s.samples| > 0
    case ResampleStore(consumed) => s.consumer.Resampling? && consumed <= s.consumer.available
  }

  /** What a call of readResampled sees at an offset. */
  function Shown<T>(s: State<T>, offset: nat): T
    requires s.consumer.Resampling? && |s.samples| > 0
  {
    s.samples[Slot(s.consumer.r + offset, |s.samples|)]
  }

  function Apply<T>(s: State<T>, step: Step<T>): State<T>
    requires Enabled(s, step)
  {
    var cap := |s.samples|;
    match step
    case WriteBegin(input) => s.(producer := WriterLoaded(input, s.writeFrame))
    case WriteLoadRead =>
      var used := Sub32(s.producer.w, s.readFrame);
      var count := Min(|s.producer.input|, Sub32(cap, used));
      s.(producer := WriterCopying(s.producer.input, s.producer.w, count, 0))
    case WriteCopy =>
      var i := CopyIndex(s.producer.w, s.producer.count, s.producer.copied, cap);
      s.(samples := s.samples[i := s.producer.input[s.producer.copied]],
         producer := s.producer.(copied := s.producer.copied + 1))
    case WriteStore =>
      s.(writeFrame := Add32(s.producer.w, s.producer.count), producer := WriterIdle,
         accepted := s.accepted + s.producer.input[..s.producer.count])
    case ReadBegin(want) => s.(consumer := ReaderLoaded(want, s.readFrame))
    case ReadLoadWrite =>
      var available := Sub32(s.writeFrame, s.consumer.r);
      s.(consumer :=
           match s.consumer.want
           case Frames(n) => Reading(s.consumer.r, Min(n, available), 0)
           case Resampled => Resampling(s.consumer.r, Min(available, cap)))
    case ReadCopy =>
      var i := CopyIndex(s.consumer.r, s.consumer.count, s.consumer.copied, cap);
      s.(seen := s.seen + [(s.released + s.consumer.copied, s.samples[i])],
         consumer := s.consumer.(copied := s.consumer.copied + 1))
    case ReadStore =>
      s.(readFrame := Add32(s.consumer.r, s.consumer.count), consumer := ReaderIdle,
         released := s.released + s.consumer.count)
    case Peek(offset) =>
      s.(seen := s.seen + [(s.released + offset, Shown(s, offset))])
    case ResampleStore(consumed) =>
      s.(readFrame := Add32(s.consumer.r, consumed), consumer := ReaderIdle,
         released := s.released + consumed)
  }

  /** A freshly constructed ring. */
  predicate Init<T>(s: State<T>) {
    && 0 < |s.samples| <= (WORD - 1) / 2
    && s.writeFrame == 0 && s.readFrame == 0
    && s.producer == WriterIdle && s.consumer == ReaderIdle
    && s.accepted == [] && s.released == 0 && s.seen == []
  }

  /** Frames written so far, the write in progress included. */
  function Written<T>(s: State<T>): nat {
    |s.accepted| + if s.producer.WriterCopying? then s.producer.count else 0
  }

  /** The states reached from s by a run, in order; the run only takes enabled steps. */
  ghost predicate Run<T>(states: seq<State<T>>, steps: seq<Step<T>>) {
    && |states| == |steps| + 1
    && Init(states[0])
    && (forall i | 0 <= i < |steps| ::
          Enabled(states[i], steps[i]) && states[i + 1] == Apply(states[i], steps[i]))
  }

  /** The accepted frames followed by those the write in progress has copied so far. */
  function Held<T>(s: State<T>): seq<T> {
    s.accepted +
    if s.producer.WriterCopying? && s.producer.copied <= |s.producer.input|
    then s.producer.input[..s.producer.copied] else []
  }

  ghost predicate ProducerOk<T>(s: State<T>) {
    match s.producer
    case WriterIdle => true
    case WriterLoaded(_, w) => w == s.writeFrame
    case WriterCopying(input, w, count, copied) =>
      w == s.writeFrame && copied <= count <= |input| && |s.accepted| + count <= s.released + |s.samples|
  }

  ghost predicate ConsumerOk<T>(s: State<T>) {
    match s.consumer
    case ReaderIdle => true
    case ReaderLoaded(_, r) => r == s.readFrame
    case Reading(r, count, copied) =>
      r == s.readFrame && copied <= count <= |s.accepted| - s.released
    case Resampling(r, available) => r == s.readFrame && available <= |s.accepted| - s.released
  }

  ghost predicate SeenOk<T>(s: State<T>) {
    forall k | 0 <= k < |s.seen| :: s.seen[k].0 < |s.accepted| && s.seen[k].1 == s.accepted[s.seen[k].0]
  }

  ghost predicate Inv<T>(s: State<T>) {
    && 0 < |s.samples| <= (WORD - 1) / 2
    && s.released <= |s.accepted| <= s.released + |s.samples|
    && s.writeFrame == |s.accepted| % WORD && s.readFrame == s.released % WORD
    && Stored(s.samples, s.released, Held(s))
    && ProducerOk(s) && ConsumerOk(s) && SeenOk(s)
  }

  lemma WriteCopyKeepsInv<T>(s: State<T>)
    requires Inv(s) && Enabled(s, WriteCopy) && WrapSafe(|s.samples|, Written(s))
    ensures Inv(Apply(s, WriteCopy))
  {
    var p := s.producer;
    CopyIndexIsSlot(|s.accepted|, p.count, p.copied, |s.samples|);
    StoredAppend(s.samples, s.released, Held(s), p.input[p.copied]);
    assert Held(Apply(s, WriteCopy)) == Held(s) + [p.input[p.copied]];
  }

  lemma StoredValue<T>(s: State<T>, p: nat)
    requires Inv(s) && s.released <= p < |s.accepted|
    ensures s.samples[Wrap(p, |s.samples|)] == s.accepted[p]
  {
    assert Held(s)[p] == s.accepted[p];
  }

  lemma ReadCopySeesAccepted<T>(s: State<T>)
    requires Inv(s) && Enabled(s, ReadCopy) && WrapSafe(|s.samples|, Written(s))
    ensures var p := s.released + s.consumer.copied;
            p < |s.accepted| && Apply(s, ReadCopy).seen == s.seen + [(p, s.accepted[p])]
  {
    CopyIndexIsSlot(s.released, s.consumer.count, s.consumer.copied, |s.samples|);
    StoredValue(s, s.released + s.consumer.copied);
  }

  lemma ShownIsAccepted<T>(s: State<T>, offset: nat)
    requires Inv(s) && s.consumer.Resampling? && s.released + offset < |s.accepted| && WrapSafe(|s.samples|, Written(s))
    ensures Shown(s, offset) == s.accepted[s.released + offset]
  {
    var p := s.released + offset;
    assert DividesWord(|s.samples|) || p < WORD;
    SlotOfOffset(s.released, offset, |s.samples|);
    assert Shown(s, offset) == s.samples[Wrap(p, |s.samples|)];
    StoredValue(s, p);
  }

  lemma PeekSeesAccepted<T>(s: State<T>, offset: nat)
    requires Inv(s) && Enabled(s, Peek(offset)) && WrapSafe(|s.samples|, Written(s))
    ensures var p := s.released + offset;
            p < |s.accepted| && Apply(s, Peek(offset)).seen == s.seen + [(p, s.accepted[p])]
  {
    ShownIsAccepted(s, offset);
  }

  lemma WriteBeginKeepsInv<T>(s: State<T>, input: seq<T>)
    requires Inv(s) && Enabled(s, WriteBegin(input))
    ensures Inv(Apply(s, WriteBegin(input)))
  {
    assert Held(Apply(s, WriteBegin(input))) == Held(s);
  }

  lemma WriteLoadReadKeepsInv<T>(s: State<T>)
    requires Inv(s) && Enabled(s, WriteLoadRead)
    ensures Inv(Apply(s, WriteLoadRead))
  {
    Sub32IsDistance(|s.accepted|, s.released);
    assert Held(Apply(s, WriteLoadRead)) == Held(s);
  }

  lemma WriteStoreKeepsInv<T>(s: State<T>)
    requires Inv(s) && Enabled(s, WriteStore)
    ensures Inv(Apply(s, WriteStore))
  {
    Add32IsSum(|s.accepted|, s.producer.count);
    assert Held(Apply(s, WriteStore)) == Held(s);
  }

  lemma ReadLoadWriteKeepsInv<T>(s: State<T>)
    requires Inv(s) && Enabled(s, ReadLoadWrite)
    ensures Inv(Apply(s, ReadLoadWrite))
  {
    Sub32IsDistance(|s.accepted|, s.released);
    assert Held(Apply(s, ReadLoadWrite)) == Held(s);
  }

  lemma ReadStoreKeepsInv<T>(s: State<T>)
    requires Inv(s) && Enabled(s, ReadStore)
    ensures Inv(Apply(s, ReadStore))
  {
    Add32IsSum(s.released, s.consumer.count);
    assert Held(Apply(s, ReadStore)) == Held(s);
  }

  lemma ResampleStoreKeepsInv<T>(s: State<T>, n: nat)
    requires Inv(s) && Enabled(s, ResampleStore(n))
    ensures Inv(Apply(s, ResampleStore(n)))
  {
    Add32IsSum(s.released, n);
    assert Held(Apply(s, ResampleStore(n))) == Held(s);
  }

  lemma ReadCopyKeepsInv<T>(s: State<T>)
    requires Inv(s) && Enabled(s, ReadCopy) && WrapSafe(|s.samples|, Written(s))
    ensures Inv(Apply(s, ReadCopy))
  {
    ReadCopySeesAccepted(s);
    assert Held(Apply(s, ReadCopy)) == Held(s);
  }

  lemma PeekKeepsInv<T>(s: State<T>, offset: nat)
    requires Inv(s) && Enabled(s, Peek(offset)) && WrapSafe(|s.samples|, Written(s))
    ensures Inv(Apply(s, Peek(offset)))
  {
    PeekSeesAccepted(s, offset);
    assert Held(Apply(s, Peek(offset))) == Held(s);
  }

  lemma ReadBeginKeepsInv<T>(s: State<T>, want: Want)
    requires Inv(s) && Enabled(s, ReadBegin(want))
    ensures Inv(Apply(s, ReadBegin(want)))
  {
    assert Held(Apply(s, ReadBegin(want))) == Held(s);
  }

  lemma StepKeepsInv<T>(s: State<T>, step: Step<T>)
    requires Inv(s) && Enabled(s, step) && WrapSafe(|s.samples|, Written(s))
    ensures Inv(Apply(s, step))
  {
    match step
    case WriteCopy => WriteCopyKeepsInv(s);
    case ReadCopy => ReadCopyKeepsInv(s);
    case Peek(offset) => PeekKeepsInv(s, offset);
    case WriteBegin(input) => WriteBeginKeepsInv(s, input);
    case WriteLoadRead => WriteLoadReadKeepsInv(s);
    case WriteStore => WriteStoreKeepsInv(s);
    case ReadBegin(want) => ReadBeginKeepsInv(s, want);
    case ReadLoadWrite => ReadLoadWriteKeepsInv(s);
    case ReadStore => ReadStoreKeepsInv(s);
    case ResampleStore(n) => ResampleStoreKeepsInv(s, n);
  }

  /**
   * Every interleaving: the invariant holds in every state of the run, for ever when the capacity divides
   * 2^32, and otherwise as long as no more than 2^32 frames are written.
   */
  lemma {:induction false} InvariantOfEveryInterleaving<T>(states: seq<State<T>>, steps: seq<Step<T>>, n: nat)
    requires Run(states, steps) && n <= |steps|
    requires forall i | 0 <= i < n :: |states[i].samples| > 0 && WrapSafe(|states[i].samples|, Written(states[i]))
    ensures Inv(states[n])
  {
    if n > 0 {
      InvariantOfEveryInterleaving(states, steps, n - 1);
      StepKeepsInv(states[n - 1], steps[n - 1]);
    }
  }

  /** The index checks in Enabled exclude nothing: a copy in progress can always take its next step. */
  lemma CopyNeverBlocked<T>(s: State<T>)
    requires Inv(s) && WrapSafe(|s.samples|, Written(s))
    ensures s.producer.WriterCopying? ==> Enabled(s, WriteCopy) || Enabled(s, WriteStore)
    ensures s.consumer.Reading? ==> Enabled(s, ReadCopy) || Enabled(s, ReadStore)
  {
    if s.producer.WriterCopying? && s.producer.copied < s.producer.count {
      CopyIndexIsSlot(|s.accepted|, s.producer.count, s.producer.copied, |s.samples|);
    }
    if s.consumer.Reading? && s.consumer.copied < s.consumer.count {
      CopyIndexIsSlot(s.released, s.consumer.count, s.consumer.copied, |s.samples|);
    }
  }

  /** No interleaving overwrites a frame that has been accepted and not yet given back. */
  lemma {:induction false} UnreadFramesAreNeverOverwritten<T>(states: seq<State<T>>, steps: seq<Step<T>>, n: nat, p: nat)
    requires Run(states, steps) && n <= |steps|
    requires forall i | 0 <= i <= n :: |states[i].samples| > 0 && WrapSafe(|states[i].samples|, Written(states[i]))
    requires states[n].released <= p < |states[n].accepted|
    ensures states[n].samples[Slot(p, |states[n].samples|)] == states[n].accepted[p]
  {
    InvariantOfEveryInterleaving(states, steps, n);
    SlotIsMod(p, |states[n].samples|);
    StoredValue(states[n], p);
  }

  ghost predicate InOrder<T>(s: State<T>) {
    && !s.consumer.Resampling? && s.consumer != ReaderLoaded(Resampled, s.readFrame)
    && |s.seen| == s.released + (if s.consumer.Reading? then s.consumer.copied else 0)
    && (forall k | 0 <= k < |s.seen| :: s.seen[k].0 == k)
  }

  lemma StepKeepsOrder<T>(s: State<T>, step: Step<T>)
    requires InOrder(s) && ConsumerOk(s) && Enabled(s, step) && step != ReadBegin(Resampled)
    ensures InOrder(Apply(s, step))
  {
  }

  lemma {:induction false} ReadsStayInOrder<T>(states: seq<State<T>>, steps: seq<Step<T>>, n: nat)
    requires Run(states, steps) && n <= |steps|
    requires forall i | 0 <= i < n :: |states[i].samples| > 0 && WrapSafe(|states[i].samples|, Written(states[i]))
    requires forall i | 0 <= i < n :: steps[i] != ReadBegin(Resampled)
    ensures InOrder(states[n])
  {
    if n > 0 {
      ReadsStayInOrder(states, steps, n - 1);
      InvariantOfEveryInterleaving(states, steps, n - 1);
      assert Enabled(states[n - 1], steps[n - 1]) && states[n] == Apply(states[n - 1], steps[n - 1]);
      StepKeepsOrder(states[n - 1], steps[n - 1]);
    }
  }

  /** Whatever the interleaving, what `read` copies out is a prefix of what `write` accepted. */
  lemma FramesReadAreAPrefixOfFramesAccepted<T>(states: seq<State<T>>, steps: seq<Step<T>>, n: nat)
    requires Run(states, steps) && n <= |steps|
    requires forall i | 0 <= i < n :: |states[i].samples| > 0 && WrapSafe(|states[i].samples|, Written(states[i]))
    requires forall i | 0 <= i < n :: steps[i] != ReadBegin(Resampled)
    ensures seq(|states[n].seen|, k requires 0 <= k < |states[n].seen| => states[n].seen[k].1) <= states[n].accepted
  {
    InvariantOfEveryInterleaving(states, steps, n);
    ReadsStayInOrder(states, steps, n);
  }

  // ------------------------------------------------------------------ one call of the consumer

  /** Frames are counted right up to state n: the capacity divides 2^32, or no more than 2^32 frames are written. */
  ghost predicate SafeUpTo<T>(states: seq<State<T>>, n: nat)
    requires n < |states|
  {
    forall i | 0 <= i <= n :: |states[i].samples| > 0 && WrapSafe(|states[i].samples|, Written(states[i]))
  }

  lemma SafeStateIsGood<T>(states: seq<State<T>>, steps: seq<Step<T>>, n: nat, k: nat)
    requires Run(states, steps) && k <= n <= |steps| && SafeUpTo(states, n)
    ensures Inv(states[k]) && WrapSafe(|states[k].samples|, Written(states[k]))
  {
    InvariantOfEveryInterleaving(states, steps, k);
  }

  /** Steps i to j are part of one call: it loads the write counter at i and has not stored the read counter before j. */
  ghost predicate InCall<T>(states: seq<State<T>>, steps: seq<Step<T>>, i: nat, j: nat) {
    && Run(states, steps) && i < j <= |steps| && steps[i] == ReadLoadWrite
    && forall k | i < k < j :: !steps[k].ReadStore? && !steps[k].ResampleStore?
  }

  /** What the consumer finds waiting when it loads the write counter. */
  function Waiting<T>(s: State<T>): seq<T>
    requires s.released <= |s.accepted|
  {
    s.accepted[s.released..]
  }

  /** Loading the write counter shows everything that waits, up to the request. */
  lemma LoadShowsWhatWaits<T>(s: State<T>)
    requires Inv(s) && Enabled(s, ReadLoadWrite)
    ensures Apply(s, ReadLoadWrite).consumer
            == match s.consumer.want
               case Frames(n) => Reading(s.consumer.r, Min(n, |Waiting(s)|), 0)
               case Resampled => Resampling(s.consumer.r, |Waiting(s)|)
  {
    Sub32IsDistance(|s.accepted|, s.released);
  }

  /** In s, a call of readResampled that loaded the write counter in s0 sees what was waiting then, and nothing else. */
  ghost predicate SeesSnapshot<T>(s0: State<T>, s: State<T>) {
    && s0.released <= |s0.accepted| && s.consumer.Resampling? && |s.samples| > 0
    && s.consumer.available == |Waiting(s0)|
    && forall offset: nat | offset < |Waiting(s0)| :: Shown(s, offset) == Waiting(s0)[offset]
  }

  lemma SnapshotStands<T>(s0: State<T>, s: State<T>)
    requires Inv(s0) && Enabled(s0, ReadLoadWrite) && s0.consumer.want == Resampled
    requires Inv(s) && WrapSafe(|s.samples|, Written(s))
    requires s.consumer == Apply(s0, ReadLoadWrite).consumer && s.released == s0.released && s0.accepted <= s.accepted
    ensures SeesSnapshot(s0, s)
  {
    LoadShowsWhatWaits(s0);
    forall offset: nat | offset < |Waiting(s0)| ensures Shown(s, offset) == Waiting(s0)[offset] { ShownIsAccepted(s, offset); }
  }

  /** Through a call of readResampled its registers and the frames given back stand still, and accepted frames only grow. */
  lemma {:induction false} CallStandsStill<T>(states: seq<State<T>>, steps: seq<Step<T>>, i: nat, j: nat)
    requires InCall(states, steps, i, j) && states[i].consumer.want == Resampled
    ensures states[j].consumer.Resampling? && states[j].consumer == states[i + 1].consumer
    ensures states[j].released == states[i].released && states[i].accepted <= states[j].accepted
    decreases j
  {
    assert Enabled(states[j - 1], steps[j - 1]) && states[j] == Apply(states[j - 1], steps[j - 1]);
    if j > i + 1 { CallStandsStill(states, steps, i, j - 1); }
  }

  /**
   * The snapshot a call works on: as long as it runs, whatever the producer does, every offset below the number of
   * available frames shows the frame that was waiting there when the write counter was loaded.
   */
  lemma CallSeesASnapshot<T>(states: seq<State<T>>, steps: seq<Step<T>>, i: nat, j: nat)
    requires InCall(states, steps, i, j) && states[i].consumer.want == Resampled && SafeUpTo(states, j)
    ensures SeesSnapshot(states[i], states[j])
  {
    CallStandsStill(states, steps, i, j);
    InvariantOfEveryInterleaving(states, steps, i);
    InvariantOfEveryInterleaving(states, steps, j);
    assert Enabled(states[i], steps[i]) && states[i + 1] == Apply(states[i], steps[i]);
    SnapshotStands(states[i], states[j]);
  }

  /** A call of readResampled that gives back n frames takes them off the front of what waits; new frames join the end. */
  lemma StoreReleasesFromTheFront<T>(states: seq<State<T>>, steps: seq<Step<T>>, i: nat, j: nat)
    requires InCall(states, steps, i, j) && states[i].consumer.want == Resampled && SafeUpTo(states, j)
    requires j < |steps| && steps[j].ResampleStore?
    ensures states[i].released <= |states[i].accepted| && states[i].accepted <= states[j].accepted
    ensures var n, arrived := steps[j].consumed, states[j].accepted[|states[i].accepted|..];
            && n <= |Waiting(states[i])| && states[j + 1].released <= |states[j + 1].accepted|
            && Waiting(states[j + 1]) == Waiting(states[i])[n..] + arrived
  {
    CallSeesASnapshot(states, steps, i, j);
    CallStandsStill(states, steps, i, j);
    assert Enabled(states[j], steps[j]) && states[j + 1] == Apply(states[j], steps[j]);
  }

  /** From idle, a resampled call can always run: it may look at any waiting frame and give back up to all of them. */
  lemma ResampledCallRuns<T>(s: State<T>, offset: nat, n: nat)
    requires Inv(s) && s.consumer == ReaderIdle && WrapSafe(|s.samples|, Written(s)) && offset < |Waiting(s)| && n <= |Waiting(s)|
    ensures Enabled(s, ReadBegin(Resampled)) &&
            var begun := Apply(s, ReadBegin(Resampled));
            Enabled(begun, ReadLoadWrite) &&
            var call := Apply(begun, ReadLoadWrite);
            Enabled(call, Peek(offset)) &&
            var looked := Apply(call, Peek(offset));
            && looked.seen == s.seen + [(s.released + offset, Waiting(s)[offset])] && Enabled(looked, ResampleStore(n))
            && Waiting(Apply(looked, ResampleStore(n))) == Waiting(s)[n..] && Apply(looked, ResampleStore(n)).consumer == ReaderIdle
  {
    var begun := Apply(s, ReadBegin(Resampled));
    ReadBeginKeepsInv(s, Resampled);
    LoadShowsWhatWaits(begun);
    ReadLoadWriteKeepsInv(begun);
    var call := Apply(begun, ReadLoadWrite);
    PeekSeesAccepted(call, offset);
  }

  /** In s, a call of read that began in s0 has copied the frames at the front of what was waiting, in order. */
  ghost predicate CopiedTheFront<T>(s0: State<T>, s: State<T>) {
    && s0.released <= |s0.accepted| && s0.consumer.ReaderLoaded? && s0.consumer.want.Frames?
    && s.consumer.Reading? && s.released == s0.released && s0.accepted <= s.accepted
    && s.consumer.count == Min(s0.consumer.want.n, |Waiting(s0)|) && s.consumer.copied <= s.consumer.count
    && |s.seen| == |s0.seen| + s.consumer.copied
    && forall k | 0 <= k < s.consumer.copied :: s.seen[|s0.seen| + k] == (s0.released + k, Waiting(s0)[k])
  }

  lemma NoneCopiedYet<T>(s: State<T>)
    requires Inv(s) && Enabled(s, ReadLoadWrite) && s.consumer.want.Frames?
    ensures CopiedTheFront(s, Apply(s, ReadLoadWrite))
  {
    LoadShowsWhatWaits(s);
  }

  lemma CopyNextOfFront<T>(s0: State<T>, s: State<T>)
    requires CopiedTheFront(s0, s) && Inv(s) && Enabled(s, ReadCopy) && WrapSafe(|s.samples|, Written(s))
    ensures CopiedTheFront(s0, Apply(s, ReadCopy))
  {
    ReadCopySeesAccepted(s);
  }

  lemma ProducerLeavesCopies<T>(s0: State<T>, s: State<T>, step: Step<T>)
    requires CopiedTheFront(s0, s) && Enabled(s, step) && !step.ReadStore? && !step.ReadCopy?
    ensures CopiedTheFront(s0, Apply(s, step))
  {
    var s' := Apply(s, step);
    assert s'.consumer == s.consumer && s'.seen == s.seen && s'.released == s.released && s.accepted <= s'.accepted;
  }

  lemma FrontStep<T>(s0: State<T>, s: State<T>, step: Step<T>)
    requires CopiedTheFront(s0, s) && Inv(s) && Enabled(s, step) && !step.ReadStore? && WrapSafe(|s.samples|, Written(s))
    ensures CopiedTheFront(s0, Apply(s, step))
  {
    if step == ReadCopy { CopyNextOfFront(s0, s); } else { ProducerLeavesCopies(s0, s, step); }
  }

  /** The frames a call of read copies out are the oldest ones waiting when it began, as many as there are up to the request. */
  lemma {:induction false} ReadCallCopiesTheFront<T>(states: seq<State<T>>, steps: seq<Step<T>>, i: nat, j: nat)
    requires InCall(states, steps, i, j) && states[i].consumer.want.Frames? && SafeUpTo(states, j)
    ensures CopiedTheFront(states[i], states[j])
    decreases j
  {
    SafeStateIsGood(states, steps, j, j - 1);
    assert Enabled(states[j - 1], steps[j - 1]);
    if j == i + 1 {
      NoneCopiedYet(states[i]);
    } else {
      ReadCallCopiesTheFront(states, steps, i, j - 1);
      FrontStep(states[i], states[j - 1], steps[j - 1]);
    }
  }

  lemma {:induction false} CapacityIsFixed<T>(states: seq<State<T>>, steps: seq<Step<T>>, n: nat)
    requires Run(states, steps) && n <= |steps|
    ensures |states[n].samples| == |states[0].samples|
  {
    if n > 0 {
      CapacityIsFixed(states, steps, n - 1);
      assert Enabled(states[n - 1], steps[n - 1]) && states[n] == Apply(states[n - 1], steps[n - 1]);
    }
  }

  lemma DriverRingIsSafe<T>(states: seq<State<T>>, steps: seq<Step<T>>, n: nat)
    requires Run(states, steps) && n <= |steps| && |states[0].samples| == 16384
    ensures SafeUpTo(states, n)
  {
    DriverCapacityDividesWord();
    forall i | 0 <= i <= n ensures |states[i].samples| > 0 && WrapSafe(|states[i].samples|, Written(states[i])) {
      CapacityIsFixed(states, steps, i);
    }
  }

  /**
   * The driver's ring of 16384 frames keeps its invariant for ever, counter wrap included, and as long as only `read`
   * consumes it, what is copied out is a prefix of what was accepted.
   */
  lemma DriverRingReadsAPrefixForEver<T>(states: seq<State<T>>, steps: seq<Step<T>>, n: nat)
    requires Run(states, steps) && n <= |steps| && |states[0].samples| == 16384
    ensures Inv(states[n])
    ensures (forall i | 0 <= i < n :: steps[i] != ReadBegin(Resampled)) ==>
              seq(|states[n].seen|, k requires 0 <= k < |states[n].seen| => states[n].seen[k].1) <= states[n].accepted
  {
    DriverRingIsSafe(states, steps, n);
    InvariantOfEveryInterleaving(states, steps, n);
    if forall i | 0 <= i < n :: steps[i] != ReadBegin(Resampled) { FramesReadAreAPrefixOfFramesAccepted(states, steps, n); }
  }
}
