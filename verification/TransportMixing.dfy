/** What the order of mixes means for NS6Transport: when two calls may be swapped, and what a whole run leaves. */
module TransportMixing {
  import opened Samples24
  import opened TransportTimeline

  /** One call of ns6_transport_mix_at_shared; `valid` is the format test. */
  datatype Chunk = Chunk(valid: bool, time: nat, frames: seq<Frame24>)

  function MixIt(t: Timeline, a: Chunk): (Timeline, bool) { Mix(t, a.valid, a.time, a.frames) }

  function End(a: Chunk): nat { a.time + |a.frames| }

  /** The call gets as far as the ring. */
  predicate Effective(a: Chunk) { a.valid && a.frames != [] && End(a) <= LIMIT }

  /** The call leaves the reader where it is. */
  predicate Settled(t: Timeline, time: nat) {
    t.initialized && ((time < t.cursor + RING && t.cursor < time + RING) || Written(t, t.cursor))
  }

  /** Some of the block is ahead of a reader at c, and none of it beyond the ring. */
  predicate Lands(c: nat, a: Chunk) { Effective(a) && c < End(a) <= c + RING }

  /** The part of the block at or after c. */
  function Landed(c: nat, a: Chunk): Block
    requires Lands(c, a)
  {
    Block(Max(a.time, c), if a.time < c then a.frames[c - a.time..] else a.frames)
  }

  // ------------------------------------------------------------------ one call

  /** A settled mix lands or adds nothing, and touches nothing else but the high-water mark. */
  lemma SettledMix(t: Timeline, a: Chunk)
    requires Settled(t, a.time)
    ensures var (t', ok) := MixIt(t, a);
            && ok == (a.valid && (a.frames == [] || (End(a) <= LIMIT && End(a) <= t.cursor + RING)))
            && t' == if Lands(t.cursor, a)
                     then t.(highWater := Max(t.highWater, End(a)), blocks := t.blocks + [Landed(t.cursor, a)]) else t
  {
    if Lands(t.cursor, a) && t.cursor <= a.time { assert a.frames[0..] == a.frames; }
  }

  /** A mix that sets the reader puts it at the block's start and takes the block whole if a ring can hold it. */
  lemma UnsettledMix(t: Timeline, a: Chunk)
    requires !Settled(t, a.time) && Effective(a) && |a.frames| <= RING
    ensures MixIt(t, a) == (t.(initialized := true, cursor := a.time, highWater := End(a),
                               blocks := t.blocks + [Block(a.time, a.frames)]), true)
    ensures Written(MixIt(t, a).0, a.time)
  {
    var t' := t.(initialized := true, cursor := a.time, highWater := a.time);
    assert MixBase(t, a.time) == a.time;
    if t.initialized { assert a.time != t.cursor; }
    assert Aligned(t, a.time) == t';
    WholeBlockLands(t', a);
    WrittenAtItsStart(t.blocks, Block(a.time, a.frames));
  }

  /** A reader at the start of a block takes it whole. */
  lemma WholeBlockLands(t: Timeline, a: Chunk)
    requires t.cursor == t.highWater == a.time && 0 < |a.frames| <= RING
    ensures MixAligned(t, a.time, a.frames) == (t.(highWater := End(a), blocks := t.blocks + [Block(a.time, a.frames)]), true)
  {
    assert a.frames[0..] == a.frames;
  }

  lemma WrittenAtItsStart(blocks: seq<Block>, b: Block)
    requires b.frames != []
    ensures SumAt(blocks + [b], b.start).Some?
  {
    SumAtAppend(blocks, b, b.start);
  }

  /** A block longer than the ring is refused, adds nothing, and still moves a reader with nothing to read to its start. */
  lemma OverlongMixMovesTheReader(t: Timeline, a: Chunk)
    requires !Settled(t, a.time) && Effective(a) && |a.frames| > RING
    ensures MixIt(t, a) == (t.(initialized := true, cursor := a.time, highWater := a.time), false)
  {
    if t.initialized { assert MixBase(t, a.time) == a.time != t.cursor; }
  }

  lemma IneffectiveMix(t: Timeline, a: Chunk)
    requires !Effective(a)
    ensures MixIt(t, a) == (t, a.valid && a.frames == [])
  {
  }

  lemma SettledStaysSettled(t: Timeline, a: Chunk, time: nat)
    requires Settled(t, a.time) && Settled(t, time)
    ensures Settled(MixIt(t, a).0, time)
  {
    SettledMix(t, a);
    if Lands(t.cursor, a) { SumAtAppend(t.blocks, Landed(t.cursor, a), t.cursor); }
  }

  // ------------------------------------------------------------------ clipping

  /** No channel of the two frames clips against the other over s. */
  predicate NothingClips(s: Frame24, x: Frame24, y: Frame24) {
    forall c | 0 <= c < 4 ::
      (x[c] >= 0 && y[c] >= 0) || (x[c] <= 0 && y[c] <= 0) || (InRange24(s[c] + x[c]) && InRange24(s[c] + y[c]))
  }

  predicate Samples(f: Frame24) { forall c | 0 <= c < 4 :: InRange24(f[c]) }

  lemma MixFramesSwapIff(s: Frame24, x: Frame24, y: Frame24)
    requires Samples(s) && Samples(x) && Samples(y)
    ensures MixFrame(MixFrame(s, x), y) == MixFrame(MixFrame(s, y), x) <==> NothingClips(s, x, y)
  {
    var xy, yx := MixFrame(MixFrame(s, x), y), MixFrame(MixFrame(s, y), x);
    forall c | 0 <= c < 4
      ensures xy[c] == yx[c] <==> ((x[c] >= 0 && y[c] >= 0) || (x[c] <= 0 && y[c] <= 0) || (InRange24(s[c] + x[c]) && InRange24(s[c] + y[c])))
    {
      SaturatingOrderIrrelevantIff(s[c], x[c], y[c]);
    }
    assert (forall c | 0 <= c < 4 :: xy[c] == yx[c]) <==> xy == yx;
  }

  /** Two blocks over whatever a position held are heard the same in either order exactly when they do not meet there or nothing clips. */
  lemma BlockOrderIsInaudibleIff(blocks: seq<Block>, a: Block, b: Block, p: nat)
    requires SumAt(blocks, p).Some? ==> Samples(SumAt(blocks, p).value)
    requires (Covers(a, p) ==> Samples(a.frames[p - a.start])) && (Covers(b, p) ==> Samples(b.frames[p - b.start]))
    ensures SumAt(blocks + [a] + [b], p) == SumAt(blocks + [b] + [a], p)
            <==> (Covers(a, p) && Covers(b, p) && SumAt(blocks, p).Some? ==>
                    NothingClips(SumAt(blocks, p).value, a.frames[p - a.start], b.frames[p - b.start]))
  {
    SumAtAppend(blocks, a, p);
    SumAtAppend(blocks, b, p);
    SumAtAppend(blocks + [a], b, p);
    SumAtAppend(blocks + [b], a, p);
    if SumAt(blocks, p).None? {
      TwoBlocksCommute(blocks, a, b, p);
    } else if Covers(a, p) && Covers(b, p) {
      MixFramesSwapIff(SumAt(blocks, p).value, a.frames[p - a.start], b.frames[p - b.start]);
    }
  }

  predicate AllSamples(b: Block) { forall i | 0 <= i < |b.frames| :: Samples(b.frames[i]) }

  /** Sums of 24-bit blocks are 24-bit. */
  lemma {:induction false} SumsAreSamples(blocks: seq<Block>, p: nat)
    requires forall i | 0 <= i < |blocks| :: AllSamples(blocks[i])
    ensures SumAt(blocks, p).Some? ==> Samples(SumAt(blocks, p).value)
  {
    if blocks != [] { SumsAreSamples(blocks[..|blocks| - 1], p); }
  }

  // ------------------------------------------------------------------ two calls

  predicate SameReader(x: Timeline, y: Timeline) {
    x.initialized == y.initialized && x.cursor == y.cursor && x.highWater == y.highWater && x.fraction == y.fraction
  }

  /**
   * When neither call moves the reader, both orders give the same answers, cursor, high-water mark and fraction,
   * and the same frame at every position that was silent.
   */
  lemma SettledMixesCommute(t: Timeline, a: Chunk, b: Chunk, p: nat)
    requires Settled(t, a.time) && Settled(t, b.time)
    ensures var (t1, okA) := MixIt(t, a);
            var (t12, okB) := MixIt(t1, b);
            var (t2, okB') := MixIt(t, b);
            var (t21, okA') := MixIt(t2, a);
            && okA == okA' && okB == okB' && SameReader(t12, t21)
            && (SumAt(t.blocks, p).None? ==> SumAt(t12.blocks, p) == SumAt(t21.blocks, p))
  {
    SettledMix(t, a);
    SettledMix(t, b);
    SettledStaysSettled(t, a, b.time);
    SettledStaysSettled(t, b, a.time);
    SettledMix(MixIt(t, a).0, b);
    SettledMix(MixIt(t, b).0, a);
    if Lands(t.cursor, a) && Lands(t.cursor, b) && SumAt(t.blocks, p).None? {
      TwoBlocksCommute(t.blocks, Landed(t.cursor, a), Landed(t.cursor, b), p);
    }
  }

  predicate SameAt(x: seq<Block>, y: seq<Block>, p: nat) { SumAt(x, p) == SumAt(y, p) }

  ghost predicate SameFrom(x: seq<Block>, y: seq<Block>, c: nat) { forall p: nat | c <= p :: SameAt(x, y, p) }

  ghost predicate Alike(x: Timeline, y: Timeline) { SameReader(x, y) && SameFrom(x.blocks, y.blocks, x.cursor) }

  lemma AlikeIsSymmetric(x: Timeline, y: Timeline)
    requires Alike(x, y)
    ensures Alike(y, x)
  {
    forall p: nat | y.cursor <= p ensures SameAt(y.blocks, x.blocks, p) { assert SameAt(x.blocks, y.blocks, p); }
  }

  /** The two orders cannot be told apart: answers, reader, and every frame still to be read. */
  ghost predicate OrdersAgree(t: Timeline, a: Chunk, b: Chunk) {
    var (t1, okA) := MixIt(t, a);
    var (t12, okB) := MixIt(t1, b);
    var (t2, okB') := MixIt(t, b);
    var (t21, okA') := MixIt(t2, a);
    okA == okA' && okB == okB' && Alike(t12, t21)
  }

  /** The block is taken or dropped by a reader that stays, and does not give it anything to read at once. */
  predicate LeavesReaderIdle(t: Timeline, a: Chunk) {
    End(a) <= t.cursor + RING && !(a.time <= t.cursor < End(a))
  }

  /** Nothing clips at p if both blocks meet a frame already there. */
  predicate MeetSafelyAt(t: Timeline, a: Chunk, b: Chunk, p: nat) {
    SumAt(t.blocks, p).Some? && a.time <= p < End(a) && b.time <= p < End(b) ==>
      NothingClips(SumAt(t.blocks, p).value, a.frames[p - a.time], b.frames[p - b.time])
  }

  ghost predicate MeetSafely(t: Timeline, c: nat, a: Chunk, b: Chunk) { forall p: nat | c <= p :: MeetSafelyAt(t, a, b, p) }

  /** What a caller can look at before the calls to know that their order will not matter. */
  ghost predicate OrderIsFree(t: Timeline, a: Chunk, b: Chunk) {
    if !Effective(a) || !Effective(b) then true
    else match (Settled(t, a.time), Settled(t, b.time))
      case (true, true) => Lands(t.cursor, a) && Lands(t.cursor, b) ==> MeetSafely(t, t.cursor, a, b)
      case (true, false) => LeavesReaderIdle(t, a)
      case (false, true) => LeavesReaderIdle(t, b)
      case (false, false) => a.time == b.time && MeetSafely(t, a.time, a, b)
  }

  /** All the samples in play are 24-bit, as the ring's three bytes make them. */
  predicate InPlay(t: Timeline, a: Chunk, b: Chunk) {
    && (forall i | 0 <= i < |t.blocks| :: AllSamples(t.blocks[i]))
    && AllSamples(Block(a.time, a.frames)) && AllSamples(Block(b.time, b.frames))
  }

  lemma LandedFrame(c: nat, a: Chunk, p: nat)
    requires Lands(c, a) && c <= p
    ensures Covers(Landed(c, a), p) <==> a.time <= p < End(a)
    ensures Covers(Landed(c, a), p) ==> Landed(c, a).frames[p - Landed(c, a).start] == a.frames[p - a.time]
  {
  }

  lemma LandedBlocksSwapAt(t: Timeline, c: nat, a: Chunk, b: Chunk, p: nat)
    requires Lands(c, a) && Lands(c, b) && InPlay(t, a, b) && c <= p
    ensures SameAt(t.blocks + [Landed(c, a)] + [Landed(c, b)], t.blocks + [Landed(c, b)] + [Landed(c, a)], p)
            <==> MeetSafelyAt(t, a, b, p)
  {
    LandedFrame(c, a, p);
    LandedFrame(c, b, p);
    SumsAreSamples(t.blocks, p);
    if Covers(Landed(c, a), p) { assert Samples(Block(a.time, a.frames).frames[p - a.time]); }
    if Covers(Landed(c, b), p) { assert Samples(Block(b.time, b.frames).frames[p - b.time]); }
    BlockOrderIsInaudibleIff(t.blocks, Landed(c, a), Landed(c, b), p);
  }

  lemma LandedBlocksSwapIff(t: Timeline, c: nat, a: Chunk, b: Chunk, ab: seq<Block>, ba: seq<Block>)
    requires Lands(c, a) && Lands(c, b) && InPlay(t, a, b)
    requires ab == t.blocks + [Landed(c, a)] + [Landed(c, b)] && ba == t.blocks + [Landed(c, b)] + [Landed(c, a)]
    ensures SameFrom(ab, ba, c) <==> MeetSafely(t, c, a, b)
  {
    forall p: nat | c <= p ensures SameAt(ab, ba, p) <==> MeetSafelyAt(t, a, b, p) { LandedBlocksSwapAt(t, c, a, b, p); }
    if SameFrom(ab, ba, c) {
      forall p: nat | c <= p ensures MeetSafelyAt(t, a, b, p) { assert SameAt(ab, ba, p); }
    }
    if MeetSafely(t, c, a, b) {
      forall p: nat | c <= p ensures SameAt(ab, ba, p) { assert MeetSafelyAt(t, a, b, p); }
    }
  }

  lemma SettledPair(t: Timeline, a: Chunk, b: Chunk)
    requires Settled(t, a.time) && Settled(t, b.time)
    ensures var t1 := MixIt(t, a).0;
            var t12 := MixIt(t1, b).0;
            && t12.cursor == t1.cursor == t.cursor
            && t1.blocks == (if Lands(t.cursor, a) then t.blocks + [Landed(t.cursor, a)] else t.blocks)
            && t12.blocks == (if Lands(t.cursor, b) then t1.blocks + [Landed(t.cursor, b)] else t1.blocks)
  {
    SettledMix(t, a);
    SettledStaysSettled(t, a, b.time);
    SettledMix(MixIt(t, a).0, b);
  }

  lemma BothSettled(t: Timeline, a: Chunk, b: Chunk)
    requires Effective(a) && Effective(b) && Settled(t, a.time) && Settled(t, b.time) && InPlay(t, a, b)
    ensures OrdersAgree(t, a, b) <==> (Lands(t.cursor, a) && Lands(t.cursor, b) ==> MeetSafely(t, t.cursor, a, b))
  {
    SettledMixesCommute(t, a, b, 0);
    SettledPair(t, a, b);
    SettledPair(t, b, a);
    var t12, t21 := MixIt(MixIt(t, a).0, b).0, MixIt(MixIt(t, b).0, a).0;
    if Lands(t.cursor, a) && Lands(t.cursor, b) {
      LandedBlocksSwapIff(t, t.cursor, a, b, t12.blocks, t21.blocks);
    } else {
      assert t12.blocks == t21.blocks;
    }
  }

  lemma BothUnsettled(t: Timeline, a: Chunk, b: Chunk)
    requires Effective(a) && Effective(b) && |a.frames| <= RING && |b.frames| <= RING
    requires !Settled(t, a.time) && !Settled(t, b.time) && InPlay(t, a, b)
    ensures OrdersAgree(t, a, b) <==> a.time == b.time && MeetSafely(t, a.time, a, b)
  {
    UnsettledMix(t, a);
    UnsettledMix(t, b);
    var t1, t2 := MixIt(t, a).0, MixIt(t, b).0;
    SettledMix(t1, b);
    SettledMix(t2, a);
    if a.time == b.time {
      LandedBlocksSwapIff(t, a.time, a, b, MixIt(t1, b).0.blocks, MixIt(t2, a).0.blocks);
    }
  }

  /** After a settled block the reader has something to read exactly when it had before or the block covers it. */
  lemma SettledMixWrites(t: Timeline, a: Chunk)
    requires Settled(t, a.time) && Effective(a) && !Written(t, t.cursor) && End(a) <= t.cursor + RING
    ensures Written(MixIt(t, a).0, t.cursor) <==> a.time <= t.cursor < End(a)
  {
    SettledMix(t, a);
    if Lands(t.cursor, a) { SumAtAppend(t.blocks, Landed(t.cursor, a), t.cursor); }
  }

  lemma OneUnsettled(t: Timeline, a: Chunk, b: Chunk)
    requires Effective(a) && Effective(b) && |a.frames| <= RING && |b.frames| <= RING
    requires t.initialized && Settled(t, a.time) && !Settled(t, b.time) && t.cursor + RING <= b.time
    ensures OrdersAgree(t, a, b) <==> LeavesReaderIdle(t, a)
  {
    SettledMix(t, a);
    UnsettledMix(t, b);
    var t1, t2 := MixIt(t, a).0, MixIt(t, b).0;
    SettledMix(t2, a);
    if End(a) <= t.cursor + RING {
      SettledMixWrites(t, a);
      if a.time <= t.cursor < End(a) {
        SettledMix(t1, b);
      } else {
        UnsettledMix(t1, b);
        PassedBlockIsSilent(t, a, b);
      }
    }
  }

  /** A block that ended before the reader's new place is not heard there. */
  lemma PassedBlockIsSilent(t: Timeline, a: Chunk, b: Chunk)
    requires Settled(t, a.time) && End(a) <= b.time
    ensures SameFrom(MixIt(t, a).0.blocks + [Block(b.time, b.frames)], t.blocks + [Block(b.time, b.frames)], b.time)
  {
    var late := Block(b.time, b.frames);
    SettledMix(t, a);
    forall p: nat | b.time <= p ensures SameAt(MixIt(t, a).0.blocks + [late], t.blocks + [late], p) {
      SumAtAppend(MixIt(t, a).0.blocks, late, p);
      SumAtAppend(t.blocks, late, p);
      if Lands(t.cursor, a) { SumAtAppend(t.blocks, Landed(t.cursor, a), p); }
    }
  }

  lemma AgreementIsSymmetric(t: Timeline, a: Chunk, b: Chunk)
    ensures OrdersAgree(t, a, b) <==> OrdersAgree(t, b, a)
  {
    var t12, t21 := MixIt(MixIt(t, a).0, b).0, MixIt(MixIt(t, b).0, a).0;
    if Alike(t12, t21) { AlikeIsSymmetric(t12, t21); }
    if Alike(t21, t12) { AlikeIsSymmetric(t21, t12); }
  }

  lemma IneffectiveOrdersAgree(t: Timeline, a: Chunk, b: Chunk)
    requires !Effective(a)
    ensures OrdersAgree(t, a, b)
  {
    IneffectiveMix(t, a);
    IneffectiveMix(MixIt(t, b).0, a);
  }

  /**
   * Two mixes of at most a ring each, neither of which moves the reader back, can be swapped if and only if the
   * state before them is one of these: neither moves the reader, or both put it at one place, and where both meet a
   * frame already there nothing clips; or one moves it and the other, mixed where the reader stood, is not refused and
   * gives it nothing to read.
   */
  lemma OrdersAgreeIff(t: Timeline, a: Chunk, b: Chunk)
    requires |a.frames| <= RING && |b.frames| <= RING && InPlay(t, a, b)
    requires Forward(t, MixIn(a.valid, a.time, a.frames)) && Forward(t, MixIn(b.valid, b.time, b.frames))
    ensures OrdersAgree(t, a, b) <==> OrderIsFree(t, a, b)
  {
    if !Effective(a) {
      IneffectiveOrdersAgree(t, a, b);
    } else if !Effective(b) {
      IneffectiveOrdersAgree(t, b, a);
      AgreementIsSymmetric(t, a, b);
    } else if Settled(t, a.time) && Settled(t, b.time) {
      BothSettled(t, a, b);
    } else if Settled(t, a.time) {
      OneUnsettled(t, a, b);
    } else if Settled(t, b.time) {
      OneUnsettled(t, b, a);
      AgreementIsSymmetric(t, a, b);
    } else {
      BothUnsettled(t, a, b);
    }
  }

  /** On a fresh ring the first block places the reader, so an earlier second block loses its start. */
  lemma FreshRingHearsTheOrder(x: Frame24, y: Frame24)
    ensures var a, b := Chunk(true, 100, [x, x]), Chunk(true, 99, [y, y]);
            var late, early := MixIt(MixIt(Fresh, a).0, b).0, MixIt(MixIt(Fresh, b).0, a).0;
            && late.cursor == 100 && SumAt(late.blocks, 99) == None
            && early.cursor == 99 && SumAt(early.blocks, 99) == Some(y)
            && !OrdersAgree(Fresh, a, b)
  {
    var a, b := Chunk(true, 100, [x, x]), Chunk(true, 99, [y, y]);
    UnsettledMix(Fresh, a);
    UnsettledMix(Fresh, b);
    var t1, t2 := MixIt(Fresh, a).0, MixIt(Fresh, b).0;
    SettledMix(t1, b);
    SettledMix(t2, a);
    SumAtAppend([], Block(100, a.frames), 99);
    SumAtAppend([], Block(99, b.frames), 99);
    SumAtAppend(t1.blocks, Landed(100, b), 99);
    SumAtAppend(t2.blocks, Landed(99, a), 99);
  }

  // ------------------------------------------------------------------ whole runs

  /** The call is accepted and its block reaches p at or after the reader. */
  predicate Reaches(t: Timeline, op: MixOp, p: nat) {
    op.MixIn? && op.valid && op.time <= p < op.time + |op.frames|
    && var (t', ok) := Mix(t, op.valid, op.time, op.frames); ok && t'.cursor <= p
  }

  function AddFrame(before: Option<Frame24>, f: Frame24): Option<Frame24> {
    Some(if before.Some? then MixFrame(before.value, f) else f)
  }

  function HeardFrom(before: Option<Frame24>, t: Timeline, op: MixOp, p: nat): Option<Frame24> {
    if Reaches(t, op, p) then AddFrame(before, op.frames[p - op.time]) else before
  }

  /** What a run leaves at p: the frames for p of the calls that reach it, added up in order with saturation. */
  function Heard(before: Option<Frame24>, t: Timeline, ops: seq<MixOp>, p: nat): Option<Frame24>
    requires t.fraction >= 0.0
    decreases |ops|
  {
    if ops == [] || Do(t, ops[0]).fraction < 0.0 then before
    else
      Heard(HeardFrom(before, t, ops[0], p), Do(t, ops[0]), ops[1..], p)
  }

  lemma CallAddsWhatReaches(t: Timeline, op: MixOp, p: nat)
    requires WellFormed(t)
    ensures SumAt(Do(t, op).blocks, p) == HeardFrom(SumAt(t.blocks, p), t, op, p)
  {
    if op.MixIn? && Effective(Chunk(op.valid, op.time, op.frames)) {
      var (t', ok) := Mix(t, true, op.time, op.frames);
      MixTakenIffWithinTheRing(t, op.time, op.frames);
      assert Reaches(t, op, p) <==> ok && op.time <= p < op.time + |op.frames| && t'.cursor <= p;
      if ok { MixDropsOnlyTheLatePart(t, op.time, op.frames, p); }
    } else {
      assert Do(t, op).blocks == t.blocks;
    }
  }

  lemma HeardNext(t: Timeline, ops: seq<MixOp>, p: nat)
    requires WellFormed(t) && ops != [] && Do(t, ops[0]).fraction >= 0.0
    ensures Heard(SumAt(t.blocks, p), t, ops, p) == Heard(SumAt(Do(t, ops[0]).blocks, p), Do(t, ops[0]), ops[1..], p)
  {
    CallAddsWhatReaches(t, ops[0], p);
  }

  lemma {:induction false} RunAddsWhatReaches(t: Timeline, ops: seq<MixOp>, p: nat)
    requires WellFormed(t)
    ensures SumAt(DoAll(t, ops).blocks, p) == Heard(SumAt(t.blocks, p), t, ops, p)
    decreases |ops|
  {
    if ops != [] {
      StepKeepsWellFormed(t, ops[0]);
      HeardNext(t, ops, p);
      RunAddsWhatReaches(Do(t, ops[0]), ops[1..], p);
    }
  }

  /** From a fresh ring every position ends up with the in-order saturating sum of the accepted frames that reached it. */
  lemma FreshRunIsSumOfAcceptedFrames(ops: seq<MixOp>, p: nat)
    ensures SumAt(DoAll(Fresh, ops).blocks, p) == Heard(None, Fresh, ops, p)
  {
    RunAddsWhatReaches(Fresh, ops, p);
  }
}
