/** NS6Transport: the position-tagged ring shared by the HAL and the USB service, proved to be a Timeline. */
module Transport {
  import opened RingIndex
  import opened Resampling
  import opened TransportTimeline

  /** Slot s carries tag p only if p belongs there and the slot holds what was written for p. */
  ghost predicate Slots(samples: seq<Frame24>, tags: seq<nat>, blocks: seq<Block>) {
    && |samples| == RING && |tags| == RING
    && (forall s | 0 <= s < RING && tags[s] != LIMIT ::
          tags[s] % RING == s && SumAt(blocks, tags[s]) == Some(samples[s]))
  }

  /** And every position written at or after the cursor still carries its tag: the ring accounts for everything written. */
  ghost predicate Tagged(samples: seq<Frame24>, tags: seq<nat>, cursor: nat, limit: nat, blocks: seq<Block>) {
    && Slots(samples, tags, blocks)
    && (forall p: nat | SumAt(blocks, p).Some? :: p < limit && (cursor <= p ==> tags[p % RING] == p))
  }

  lemma TagMeansWritten(samples: seq<Frame24>, tags: seq<nat>, cursor: nat, limit: nat, blocks: seq<Block>, p: nat)
    requires Tagged(samples, tags, cursor, limit, blocks) && cursor <= p < LIMIT
    ensures tags[p % RING] == p <==> SumAt(blocks, p).Some?
    ensures tags[p % RING] == p ==> SumAt(blocks, p) == Some(samples[p % RING])
  {
  }

  // ------------------------------------------------------------------ what the write loop leaves

  /** The position in slot s of the ring that starts at `start`. */
  function Pos(start: nat, s: nat): (p: nat)
    requires s < RING
    ensures start <= p < start + RING && p % RING == s
  {
    start + (s - start) % RING
  }

  lemma PosOfSlot(start: nat, p: nat)
    requires start <= p < start + RING
    ensures Pos(start, p % RING) == p
  {
  }

  /** What a mix leaves in slot s: a frame of the block, added to what the slot held if it carries that position's tag. */
  function SampleAfter(samples: seq<Frame24>, tags: seq<nat>, start: nat, frames: seq<Frame24>, s: nat): Frame24
    requires |samples| == RING && |tags| == RING && s < RING
  {
    var p := Pos(start, s);
    if p >= start + |frames| then samples[s]
    else if tags[s] == p then MixFrame(samples[s], frames[p - start])
    else frames[p - start]
  }

  function SamplesAfter(samples: seq<Frame24>, tags: seq<nat>, start: nat, frames: seq<Frame24>): (r: seq<Frame24>)
    requires |samples| == RING && |tags| == RING
    ensures |r| == RING
  {
    seq<Frame24>(RING, s requires 0 <= s < RING => SampleAfter(samples, tags, start, frames, s))
  }

  function TagsAfter(tags: seq<nat>, start: nat, n: nat): (r: seq<nat>)
    requires |tags| == RING
    ensures |r| == RING
  {
    seq(RING, s requires 0 <= s < RING => if Pos(start, s) < start + n then Pos(start, s) else tags[s])
  }

  /** One turn of the write loop. */
  lemma NextSlot(samples: seq<Frame24>, tags: seq<nat>, start: nat, frames: seq<Frame24>, i: nat)
    requires |samples| == RING && |tags| == RING && i < |frames| && i < RING
    ensures var slot := (start + i) % RING;
            var value := if tags[slot] == start + i then MixFrame(samples[slot], frames[i]) else frames[i];
            && TagsAfter(tags, start, i)[slot] == tags[slot]
            && SamplesAfter(samples, tags, start, frames[..i])[slot] == samples[slot]
            && SamplesAfter(samples, tags, start, frames[..i + 1]) == SamplesAfter(samples, tags, start, frames[..i])[slot := value]
            && TagsAfter(tags, start, i + 1) == TagsAfter(tags, start, i)[slot := start + i]
  {
    PosOfSlot(start, start + i);
  }

  lemma NothingWritten(samples: seq<Frame24>, tags: seq<nat>, start: nat)
    requires |samples| == RING && |tags| == RING
    ensures SamplesAfter(samples, tags, start, []) == samples && TagsAfter(tags, start, 0) == tags
  {
  }

  /**
   * Every frame written before and not yet passed is still in its slot, or is drowned out by the block's own frame;
   * and none lies beyond `limit`.
   */
  ghost predicate Recalls(tags: seq<nat>, blocks: seq<Block>, cursor: nat, limit: nat, start: nat, frames: seq<Frame24>)
    requires |tags| == RING
  {
    forall p: nat | SumAt(blocks, p).Some? ::
      p < limit && (cursor <= p ==> tags[p % RING] == p || Drowned(blocks, start, frames, p))
  }

  predicate Drowned(blocks: seq<Block>, start: nat, frames: seq<Frame24>, p: nat)
    requires SumAt(blocks, p).Some?
  {
    start <= p < start + |frames| && MixFrame(SumAt(blocks, p).value, frames[p - start]) == frames[p - start]
  }

  lemma SlotAfter(samples: seq<Frame24>, tags: seq<nat>, cursor: nat, limit: nat, blocks: seq<Block>,
                  start: nat, frames: seq<Frame24>, s: nat)
    requires Slots(samples, tags, blocks) && cursor <= start && s < RING && start + |frames| <= LIMIT
    requires Recalls(tags, blocks, cursor, limit, start, frames) && |frames| <= RING
    requires TagsAfter(tags, start, |frames|)[s] != LIMIT
    ensures var p := TagsAfter(tags, start, |frames|)[s];
            p % RING == s && SumAt(blocks + [Block(start, frames)], p) == Some(SamplesAfter(samples, tags, start, frames)[s])
  {
    var p := TagsAfter(tags, start, |frames|)[s];
    SumAtAppend(blocks, Block(start, frames), p);
    if Pos(start, s) >= start + |frames| && start <= p < start + RING { PosOfSlot(start, p); }
  }

  /** A position keeps its tag through the write loop, or gets it there. */
  lemma TagAfter(tags: seq<nat>, cursor: nat, start: nat, n: nat, p: nat)
    requires |tags| == RING && cursor <= start && start + n <= cursor + RING && cursor <= p < cursor + RING
    ensures TagsAfter(tags, start, n)[p % RING] == if start <= p < start + n then p else tags[p % RING]
  {
    PosOfSlot(start, if p < start then p + RING else p);
  }

  /**
   * After its write loop a mix leaves the ring an account of everything written, the new block included, if and only
   * if the ring recalled everything written before from the cursor on, or the block drowns out what it did not.
   */
  lemma MixKeepsAccountIff(samples: seq<Frame24>, tags: seq<nat>, cursor: nat, limit: nat, blocks: seq<Block>,
                           start: nat, frames: seq<Frame24>)
    requires Slots(samples, tags, blocks) && cursor <= start && limit <= cursor + RING
    requires start + |frames| <= cursor + RING && start + |frames| <= LIMIT
    ensures var end := Max(limit, start + |frames|);
            Tagged(SamplesAfter(samples, tags, start, frames), TagsAfter(tags, start, |frames|), cursor, end,
                   blocks + [Block(start, frames)])
            <==> Recalls(tags, blocks, cursor, end, start, frames)
  {
    var end, b := Max(limit, start + |frames|), Block(start, frames);
    var samples', tags' := SamplesAfter(samples, tags, start, frames), TagsAfter(tags, start, |frames|);
    if Recalls(tags, blocks, cursor, end, start, frames) {
      forall s | 0 <= s < RING && tags'[s] != LIMIT
        ensures tags'[s] % RING == s && SumAt(blocks + [b], tags'[s]) == Some(samples'[s])
      {
        SlotAfter(samples, tags, cursor, end, blocks, start, frames, s);
      }
      forall p: nat | SumAt(blocks + [b], p).Some? ensures p < end && (cursor <= p ==> tags'[p % RING] == p) {
        SumAtAppend(blocks, b, p);
        if cursor <= p < end { TagAfter(tags, cursor, start, |frames|, p); }
      }
    }
    if Tagged(samples', tags', cursor, end, blocks + [b]) {
      forall p: nat | SumAt(blocks, p).Some?
        ensures p < end && (cursor <= p ==> tags[p % RING] == p || Drowned(blocks, start, frames, p))
      {
        AccountRecalls(samples, tags, cursor, end, blocks, start, frames, p);
      }
    }
  }

  lemma AccountRecalls(samples: seq<Frame24>, tags: seq<nat>, cursor: nat, end: nat, blocks: seq<Block>,
                       start: nat, frames: seq<Frame24>, p: nat)
    requires Slots(samples, tags, blocks) && cursor <= start && start + |frames| <= end <= cursor + RING
    requires start + |frames| <= LIMIT && SumAt(blocks, p).Some?
    requires Tagged(SamplesAfter(samples, tags, start, frames), TagsAfter(tags, start, |frames|), cursor, end,
                    blocks + [Block(start, frames)])
    ensures p < end && (cursor <= p ==> tags[p % RING] == p || Drowned(blocks, start, frames, p))
  {
    SumAtAppend(blocks, Block(start, frames), p);
    if cursor <= p {
      TagAfter(tags, cursor, start, |frames|, p);
      if start <= p < start + |frames| { PosOfSlot(start, p); }
    }
  }

  // ------------------------------------------------------------------ what a mix call leaves

  /** The part of a mix call that is not behind an aligned reader, if the ring takes it. */
  function Kept(t: Timeline, time: nat, frames: seq<Frame24>): seq<Frame24> {
    var late := if time < t.cursor then t.cursor - time else 0;
    if late < |frames| && time + |frames| <= t.cursor + RING then frames[late..] else []
  }

  /** Whether a mix that moves the reader back finds what it needs: see MixKeepsAccountIff. */
  ghost predicate RebaseRecalls(tags: seq<nat>, t: Timeline, valid: bool, time: nat, frames: seq<Frame24>)
    requires |tags| == RING
  {
    valid && frames != [] && time + |frames| <= LIMIT && MixBase(t, time) < t.cursor ==>
      var kept := Kept(Aligned(t, time), time, frames);
      Recalls(tags, t.blocks, time, time + |kept|, time, kept)
  }

  /** Where the reader is not moved back, a ring that accounts for everything recalls everything. */
  lemma AlignedRecalls(samples: seq<Frame24>, tags: seq<nat>, t: Timeline, time: nat, frames: seq<Frame24>)
    requires Tagged(samples, tags, t.cursor, t.highWater, t.blocks) && WellFormed(t) && RebaseRecalls(tags, t, true, time, frames)
    requires frames != [] && time + |frames| <= LIMIT
    ensures var a := Aligned(t, time);
            var kept := Kept(a, time, frames);
            && (kept == [] ==> Tagged(samples, tags, a.cursor, a.highWater, t.blocks))
            && Recalls(tags, t.blocks, a.cursor, Max(a.highWater, Max(time, a.cursor) + |kept|), Max(time, a.cursor), kept)
  {
  }

  /** The scan finds nothing exactly when nothing is written at the cursor. */
  lemma ScanStart(t: Timeline)
    requires t.initialized && (Written(t, t.cursor) ==> t.cursor < t.highWater)
    ensures Available(t) == 0 <==> !Written(t, t.cursor)
  {
  }

  /** The frames in `out` are the first ones a dequeue of n produces, and `phase` is where the rest begins. */
  ghost predicate SoFar(t: Timeline, fraction: real, step: real, n: nat, out: seq<Frame24>, phase: real)
    requires fraction >= 0.0 && step >= 0.0 && phase >= 0.0
  {
    && |out| <= n && phase == PhaseAt(fraction, step, |out|)
    && Output(t, fraction, step, n) == out + Output(t, phase, step, n - |out|)
  }

  lemma OutputNext(t: Timeline, fraction: real, step: real, n: nat, out: seq<Frame24>, phase: real, f: Frame24)
    requires fraction >= 0.0 && step >= 0.0 && phase >= 0.0 && SoFar(t, fraction, step, n, out, phase)
    requires |out| < n && StopAt(t, phase) == NoStop && f == FrameAt(t, phase)
    ensures SoFar(t, fraction, step, n, out + [f], phase + step)
  {
    var rest := Output(t, phase + step, step, n - |out| - 1);
    assert out + ([f] + rest) == out + [f] + rest;
  }

  lemma OutputEnds(t: Timeline, fraction: real, step: real, n: nat, out: seq<Frame24>, phase: real)
    requires fraction >= 0.0 && step >= 0.0 && phase >= 0.0 && SoFar(t, fraction, step, n, out, phase)
    requires |out| == n || StopAt(t, phase) != NoStop
    ensures out == Output(t, fraction, step, n)
  {
  }

  class Shared {
    const samples: array<Frame24>
    const tags: array<nat>
    var cursor: nat
    var highWater: nat
    var initialized: bool
    var readFraction: real

    // Every block written since the ring was last cleared.
    ghost var blocks: seq<Block>

    ghost function Abs(): Timeline
      reads this
    {
      Line(initialized, cursor, highWater, readFraction, blocks)
    }

    ghost predicate Valid()
      reads this, samples, tags
    {
      && samples.Length == RING && tags.Length == RING
      && WellFormed(Abs()) && highWater <= LIMIT
      && Tagged(samples[..], tags[..], cursor, highWater, blocks)
    }

    constructor ()
      ensures Valid() && fresh(samples) && fresh(tags) && Abs() == Fresh
    {
      samples := new Frame24[RING](_ => [0, 0, 0, 0]);
      tags := new nat[RING](_ => LIMIT);
      cursor, highWater, initialized, readFraction := 0, 0, false, 0.0;
      blocks := [];
    }

    method ClearTags()
      requires tags.Length == RING && samples.Length == RING
      modifies tags
      ensures forall c: nat, w: nat :: Tagged(samples[..], tags[..], c, w, [])
    {
      for i := 0 to RING
        invariant forall s | 0 <= s < i :: tags[s] == LIMIT
      {
        tags[i] := LIMIT;
      }
    }

    /** ns6_transport_reset_shared: the reader's phase is left alone. */
    method Reset()
      requires Valid()
      modifies this, tags
      ensures Valid() && Abs() == Fresh.(fraction := old(readFraction))
    {
      ClearTags();
      cursor, highWater, initialized := 0, 0, false;
      blocks := [];
    }

    /** ns6_transport_discard_shared. */
    method Discard()
      requires Valid()
      modifies this, tags
      ensures Valid() && Abs() == Fresh
    {
      initialized := false;
      ClearTags();
      cursor, highWater, readFraction := 0, 0, 0.0;
      blocks := [];
    }

    /** Writes a block into the slots from `start` on; with `mixing`, onto frames already tagged there. */
    method WriteBlock(start: nat, frames: seq<Frame24>, mixing: bool)
      requires samples.Length == RING && tags.Length == RING && |frames| <= RING
      requires start + |frames| <= LIMIT && (!mixing ==> forall s | 0 <= s < RING && tags[s] != LIMIT :: tags[s] < start)
      modifies samples, tags
      ensures samples[..] == SamplesAfter(old(samples[..]), old(tags[..]), start, frames)
      ensures tags[..] == TagsAfter(old(tags[..]), start, |frames|)
    {
      ghost var samples0, tags0 := samples[..], tags[..];
      NothingWritten(samples0, tags0, start);
      assert frames[..0] == [];
      for i := 0 to |frames|
        invariant samples[..] == SamplesAfter(samples0, tags0, start, frames[..i]) && tags[..] == TagsAfter(tags0, start, i)
      {
        WriteFrame(start, frames, i, mixing, samples0, tags0);
      }
      assert frames[..|frames|] == frames;
    }

    method WriteFrame(start: nat, frames: seq<Frame24>, i: nat, mixing: bool, ghost samples0: seq<Frame24>, ghost tags0: seq<nat>)
      requires samples.Length == RING && tags.Length == RING && i < |frames| <= RING && |samples0| == RING && |tags0| == RING
      requires samples[..] == SamplesAfter(samples0, tags0, start, frames[..i]) && tags[..] == TagsAfter(tags0, start, i)
      requires !mixing ==> tags0[(start + i) % RING] != start + i
      modifies samples, tags
      ensures samples[..] == SamplesAfter(samples0, tags0, start, frames[..i + 1]) && tags[..] == TagsAfter(tags0, start, i + 1)
    {
      NextSlot(samples0, tags0, start, frames, i);
      var slot := (start + i) % RING;
      assert tags[slot] == tags[..][slot] && samples[slot] == samples[..][slot];
      var value := if mixing && tags[slot] == start + i then MixFrame(samples[slot], frames[i]) else frames[i];
      Store(slot, value, start + i);
    }

    method Store(slot: nat, value: Frame24, tag: nat)
      requires slot < samples.Length == tags.Length
      modifies samples, tags
      ensures samples[..] == old(samples[..])[slot := value] && tags[..] == old(tags[..])[slot := tag]
    {
      samples[slot] := value;
      tags[slot] := tag;
    }

    /** ns6_transport_enqueue_at_shared; `timestamp` is read by no branch. */
    method EnqueueAt(valid: bool, timestamp: nat, frames: seq<Frame24>) returns (ok: bool)
      requires Valid() && cursor <= LIMIT
      modifies this, samples, tags
      ensures Valid() && (Abs(), ok) == Enqueue(old(Abs()), valid, frames)
    {
      if !valid { return false; }
      if frames == [] { return true; }
      if highWater > LIMIT - |frames| { return false; }
      if !initialized {
        cursor := highWater;
        initialized := true;
      }
      var start := highWater;
      if start < cursor {
        start := cursor;
        highWater := cursor;
      }
      if (start + |frames|) % (LIMIT + 1) <= cursor { return true; }
      if start - cursor > RING || |frames| > RING - (start - cursor) { return false; }
      AddBlock(start, frames, false);
      ok := true;
    }

    /** ns6_transport_available_shared: scans tags from the cursor. */
    method AvailableFrames() returns (count: nat)
      requires Valid()
      ensures count == Available(Abs())
    {
      if !initialized || highWater <= cursor { return 0; }
      var limit := Min(highWater - cursor, RING);
      count := 0;
      while count < limit && tags[(cursor + count) % RING] == cursor + count
        invariant count <= limit
        invariant Available(Abs()) == count + Scan(Abs(), cursor + count, limit - count)
      {
        TagMeansWritten(samples[..], tags[..], cursor, highWater, blocks, cursor + count);
        count := count + 1;
      }
    }

    /** The alignment step of a mix: initialise, or rebase an empty ring to a far block. */
    method Align(time: nat)
      requires Valid() && time <= LIMIT && cursor <= LIMIT
      modifies this
      ensures Abs() == Aligned(old(Abs()), time)
    {
      if !initialized {
        cursor, highWater, initialized := time, time, true;
      }
      if (if time > cursor then time - cursor else cursor - time) >= RING {
        var available := AvailableFrames();
        ScanStart(Abs());
        if cursor < LIMIT { TagMeansWritten(samples[..], tags[..], cursor, highWater, blocks, cursor); }
        if available == 0 {
          cursor, highWater := time, time;
        }
      }
    }

    /** Writes a block that fits into the ring and raises the high water mark to its end. */
    method AddBlock(start: nat, frames: seq<Frame24>, mixing: bool)
      requires samples.Length == RING && tags.Length == RING && Slots(samples[..], tags[..], blocks)
      requires WellFormed(Abs()) && highWater <= LIMIT && initialized
      requires cursor <= start && start + |frames| <= Min(cursor + RING, LIMIT)
      requires Recalls(tags[..], blocks, cursor, Max(highWater, start + |frames|), start, frames)
      requires !mixing ==> highWater <= start && Tagged(samples[..], tags[..], cursor, highWater, blocks)
      modifies this, samples, tags
      ensures Valid()
      ensures Abs() == old(Abs()).(blocks := old(blocks) + [Block(start, frames)],
                                   highWater := Max(old(highWater), start + |frames|))
    {
      MixKeepsAccountIff(samples[..], tags[..], cursor, highWater, blocks, start, frames);
      WriteBlock(start, frames, mixing);
      blocks := blocks + [Block(start, frames)];
      if start + |frames| > highWater { highWater := start + |frames|; }
    }

    /** The part of a mix after the alignment. */
    method Land(time: nat, frames: seq<Frame24>) returns (ok: bool)
      requires samples.Length == RING && tags.Length == RING && Slots(samples[..], tags[..], blocks)
      requires WellFormed(Abs()) && highWater <= LIMIT && initialized && frames != [] && time + |frames| <= LIMIT
      requires var kept := Kept(Abs(), time, frames);
               && (kept == [] ==> Tagged(samples[..], tags[..], cursor, highWater, blocks))
               && Recalls(tags[..], blocks, cursor, Max(highWater, Max(time, cursor) + |kept|), Max(time, cursor), kept)
      modifies this, samples, tags
      ensures Valid() && (Abs(), ok) == MixAligned(old(Abs()), time, frames)
    {
      var late := 0;
      if time < cursor {
        late := cursor - time;
        if late >= |frames| { return true; }
      }
      var start := time + late;
      var rest := frames[late..];
      if start - cursor >= RING || |rest| > RING - (start - cursor) { return false; }
      assert start == Max(time, cursor) && rest == Kept(Abs(), time, frames) && start + |rest| == time + |frames|;
      AddBlock(start, rest, true);
      ok := true;
    }

    /** ns6_transport_mix_at_shared. */
    method MixAt(valid: bool, time: nat, frames: seq<Frame24>) returns (ok: bool)
      requires Valid() && cursor <= LIMIT && RebaseRecalls(tags[..], Abs(), valid, time, frames)
      modifies this, samples, tags
      ensures Valid() && (Abs(), ok) == Mix(old(Abs()), valid, time, frames)
    {
      if !valid { return false; }
      if frames == [] { return true; }
      if time > LIMIT - |frames| { return false; }
      AlignedRecalls(samples[..], tags[..], Abs(), time, frames);
      Align(time);
      ok := Land(time, frames);
    }

    /** The stop test and the interpolated frame at one phase of a dequeue. */
    method Pick(phase: real) returns (stop: Stop, frame: Frame24)
      requires Valid() && phase >= 0.0
      ensures stop == StopAt(Abs(), phase)
      ensures stop == NoStop ==> frame == FrameAt(Abs(), phase)
    {
      frame := [0, 0, 0, 0];
      var fraction := Frac(phase);
      var first := cursor + phase.Floor;
      var second := first + if fraction > 0.0 then 1 else 0;
      if second >= highWater { return Empty, frame; }
      if second - cursor >= RING { return RingLimit, frame; }
      TagMeansWritten(samples[..], tags[..], cursor, highWater, blocks, first);
      TagMeansWritten(samples[..], tags[..], cursor, highWater, blocks, second);
      if tags[first % RING] != first || tags[second % RING] != second { return MissingTag, frame; }
      return NoStop, Interpolate24(samples[first % RING], samples[second % RING], fraction);
    }

    method DequeueLoop(n: nat, step: real) returns (out: seq<Frame24>, stop: Stop)
      requires Valid() && step >= 0.0
      ensures out == Output(Abs(), readFraction, step, n)
      ensures stop == if |out| == n then NoStop else StopAt(Abs(), PhaseAt(readFraction, step, |out|))
    {
      out, stop := [], NoStop;
      var phase := readFraction;
      while |out| < n && stop == NoStop
        invariant phase >= 0.0 && SoFar(Abs(), readFraction, step, n, out, phase)
        invariant stop == NoStop || (|out| < n && stop == StopAt(Abs(), phase))
        decreases n - |out|, stop == NoStop
      {
        stop, out, phase := DequeueOne(n, step, out, phase);
      }
      OutputEnds(Abs(), readFraction, step, n, out, phase);
    }

    /** One turn of the dequeue: stop where the reader stands, or produce one frame and step on. */
    method DequeueOne(n: nat, step: real, out: seq<Frame24>, phase: real)
      returns (stop: Stop, next: seq<Frame24>, end: real)
      requires Valid() && step >= 0.0 && phase >= 0.0
      requires SoFar(Abs(), readFraction, step, n, out, phase) && |out| < n
      ensures stop == StopAt(Abs(), phase)
      ensures if stop == NoStop then |next| == |out| + 1 && end == phase + step else next == out && end == phase
      ensures SoFar(Abs(), readFraction, step, n, next, end)
    {
      var frame;
      stop, frame := Pick(phase);
      if stop != NoStop { return stop, out, phase; }
      OutputNext(Abs(), readFraction, step, n, out, phase, frame);
      next, end := out + [frame], phase + step;
    }

    /** ns6_transport_dequeue_resampled_shared_diagnostic. */
    method DequeueResampled(n: nat, sourceStep: real) returns (out: seq<Frame24>, stop: Stop)
      requires Valid()
      modifies this
      ensures Valid() && (Abs(), out, stop) == Dequeue(old(Abs()), n, sourceStep)
    {
      if n == 0 || !initialized { return [], Invalid; }
      var step := EffectiveStep(sourceStep);
      out, stop := DequeueLoop(n, step);
      MoveReader(PhaseAt(readFraction, step, |out|));
    }

    method MoveReader(phase: real)
      requires Valid() && initialized && phase >= 0.0
      modifies this
      ensures Valid() && Abs() == MoveTo(old(Abs()), phase)
    {
      cursor, readFraction := cursor + phase.Floor, Frac(phase);
    }

    /** ns6_transport_advance_resampled_shared. */
    method AdvanceResampled(n: nat, sourceStep: real) returns (skipped: nat)
      requires Valid()
      modifies this
      ensures Valid() && (Abs(), skipped) == Advance(old(Abs()), n, sourceStep)
    {
      if !initialized { return 0; }
      var phase := PhaseAfter(readFraction, EffectiveStep(sourceStep), n);
      skipped := phase.Floor;
      MoveReader(phase);
    }

    /** ns6_transport_advance_shared. */
    method AdvanceFrames(n: nat) returns (skipped: nat)
      requires Valid()
      modifies this
      ensures Valid() && (Abs(), skipped) == AdvanceWhole(old(Abs()), n)
    {
      if !initialized { return 0; }
      cursor := cursor + n;
      skipped := n;
    }
  }

  // ------------------------------------------------------------------ a rebase that forgets

  function TwoRead(f: Frame24, g: Frame24): Timeline {
    Line(true, RING + 1, RING + 1, 0.0, [Block(0, [f]), Block(RING, [g])])
  }

  lemma TwoReadAt(f: Frame24, g: Frame24, p: nat)
    ensures SumAt([Block(0, [f])], p) == if p == 0 then Some(f) else None
    ensures SumAt([Block(0, [f]), Block(RING, [g])], p) == if p == 0 then Some(f) else if p == RING then Some(g) else None
  {
    assert [] + [Block(0, [f])] == [Block(0, [f])] && [Block(0, [f])] + [Block(RING, [g])] == [Block(0, [f]), Block(RING, [g])];
    SumAtAppend([], Block(0, [f]), p);
    SumAtAppend([Block(0, [f])], Block(RING, [g]), p);
  }

  /** Taking the one frame at the cursor. */
  lemma TakeOne(t: Timeline)
    requires t.initialized && t.fraction == 0.0 && t.highWater == t.cursor + 1 && Written(t, t.cursor)
    ensures Dequeue(t, 1, 1.0).0 == t.(cursor := t.cursor + 1)
  {
    assert StopAt(t, 0.0) == NoStop;
    assert Output(t, 1.0, 1.0, 0) == [] && |Output(t, 0.0, 1.0, 1)| == 1;
    assert PhaseAt(0.0, 1.0, 1) == 1.0;
  }

  lemma RunToTwoRead(f: Frame24, g: Frame24)
    ensures var t1 := Mix(Fresh, true, 0, [f]).0;
            var t2 := Dequeue(t1, 1, 1.0).0;
            var t3 := Mix(t2, true, RING, [g]).0;
            var t4 := AdvanceWhole(t3, RING - 1).0;
            && t2.cursor == 1 && t2.fraction == 0.0 && MixBase(t2, RING) == 1
            && t3.cursor == 1 && t3.blocks == TwoRead(f, g).blocks
            && t4.fraction == 0.0 && Dequeue(t4, 1, 1.0).0 == TwoRead(f, g)
  {
    TwoReadAt(f, g, 0);
    TwoReadAt(f, g, RING);
    assert [f][0..] == [f] && [g][0..] == [g];
    var t1 := Line(true, 0, 1, 0.0, [Block(0, [f])]);
    assert Mix(Fresh, true, 0, [f]).0 == t1;
    TakeOne(t1);
    var t2 := t1.(cursor := 1);
    var t3 := Line(true, 1, RING + 1, 0.0, TwoRead(f, g).blocks);
    assert Mix(t2, true, RING, [g]).0 == t3;
    TakeOne(t3.(cursor := RING));
  }

  /**
   * Frames at 0 and RING share a slot. Once both are read, a mix at 0 moves the reader back to 0: f was written there
   * and the slot carries the later tag, so the ring is left with x alone where everything written adds up to f and x.
   */
  method BackwardRebaseMeetsAStaleTag(f: Frame24, g: Frame24, x: Frame24) returns (ring: Shared)
    ensures ring.Valid() && ring.Abs() == TwoRead(f, g)
    ensures ring.tags[0] == RING && SampleAfter(ring.samples[..], ring.tags[..], 0, [x], 0) == x
    ensures var t := Mix(ring.Abs(), true, 0, [x]).0;
            t.cursor == 0 && SumAt(t.blocks, 0) == Some(MixFrame(f, x))
    ensures !RebaseRecalls(ring.tags[..], ring.Abs(), true, 0, [x])
  {
    RunToTwoRead(f, g);
    ring := new Shared();
    var _ := ring.MixAt(true, 0, [f]);
    var _, _ := ring.DequeueResampled(1, 1.0);
    var _ := ring.MixAt(true, RING, [g]);
    TwoReadAt(f, g, RING);
    assert ring.tags[RING % RING] == RING;
    var _ := ring.AdvanceFrames(RING - 1);
    var _, _ := ring.DequeueResampled(1, 1.0);
    StaleTagForgets(ring.samples[..], ring.tags[..], f, g, x);
  }

  lemma StaleTagForgets(samples: seq<Frame24>, tags: seq<nat>, f: Frame24, g: Frame24, x: Frame24)
    requires |samples| == RING && |tags| == RING && tags[0] == RING
    ensures SampleAfter(samples, tags, 0, [x], 0) == x
    ensures var t := Mix(TwoRead(f, g), true, 0, [x]).0;
            t.cursor == 0 && SumAt(t.blocks, 0) == Some(MixFrame(f, x))
    ensures !RebaseRecalls(tags, TwoRead(f, g), true, 0, [x])
  {
    var t := TwoRead(f, g);
    TwoReadAt(f, g, 0);
    TwoReadAt(f, g, RING);
    TwoReadAt(f, g, RING + 1);
    PosOfSlot(0, 0);
    assert [x][0..] == [x] && MixBase(t, 0) == 0;
    assert Mix(t, true, 0, [x]).0.blocks == t.blocks + [Block(0, [x])];
    SumAtAppend(t.blocks, Block(0, [x]), 0);
    assert SumAt(t.blocks, RING).Some?;
  }
}
