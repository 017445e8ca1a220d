/** AudioOutputRing: the bounded frame ring between the CoreAudio mix callback and the USB packetizer. */
module AudioOutputRing {
  import opened RingIndex
  import opened Resampling

  const SIZE_MAX: nat := 0xFFFF_FFFF_FFFF_FFFF

  predicate InRange(capacityFrames: nat, channels: nat) {
    0 < capacityFrames <= 0x7fff_ffff && 0 < channels
  }

  /** In range, and the number of samples fits a 64-bit size. */
  predicate ValidDimensions(capacityFrames: nat, channels: nat) {
    InRange(capacityFrames, channels) && channels <= SIZE_MAX / capacityFrames
  }

  /** The frames in `out` are the first ones of the resampled result, and `phase` is where the rest begins. */
  ghost predicate SoFar(q: seq<Frame>, fraction: real, step: real, n: nat, out: seq<Frame>, phase: real)
    requires fraction >= 0.0 && step >= 0.0 && phase >= 0.0
  {
    && |out| <= n && phase == PhaseAt(fraction, step, |out|)
    && Taken(LerpAt, false, q, fraction, step, n) == out + Taken(LerpAt, false, q, phase, step, n - |out|)
  }

  lemma OneMore(q: seq<Frame>, fraction: real, step: real, n: nat, out: seq<Frame>, phase: real, f: Frame)
    requires fraction >= 0.0 && step >= 0.0 && phase >= 0.0 && SoFar(q, fraction, step, n, out, phase)
    requires |out| < n && phase.Floor < |q| && f == LerpAt(q, phase)
    ensures SoFar(q, fraction, step, n, out + [f], phase + step)
  {
    var rest := Taken(LerpAt, false, q, phase + step, step, n - |out| - 1);
    assert !Starved(|q|, phase, false);
    assert out + ([f] + rest) == out + [f] + rest;
  }

  lemma LerpAtIs(q: seq<Frame>, phase: real, a: Frame, b: Frame)
    requires phase >= 0.0 && phase.Floor < |q| && a == q[phase.Floor]
    requires b == q[phase.Floor + if Frac(phase) > 0.0 && phase.Floor + 1 < |q| then 1 else 0]
    ensures Lerp(a, b, Frac(phase)) == LerpAt(q, phase)
  {
  }

  lemma Finished(q: seq<Frame>, fraction: real, step: real, n: nat, out: seq<Frame>, phase: real)
    requires fraction >= 0.0 && step >= 0.0 && phase >= 0.0 && SoFar(q, fraction, step, n, out, phase)
    requires |out| == n || phase.Floor >= |q|
    ensures out == Taken(LerpAt, false, q, fraction, step, n)
  {
  }

  class Ring {
    const capacity: nat
    const channels: nat
    const samples: array<Frame>
    var writeFrame: nat
    var readFrame: nat
    var readFraction: real

    // Every frame ever accepted by Write, and how many of them have been given back.
    ghost var accepted: seq<Frame>
    ghost var released: nat

    ghost predicate Valid()
      reads this, samples
    {
      && InRange(capacity, channels)
      && samples.Length == capacity
      && released <= |accepted| <= released + capacity
      && WrapSafe(capacity, |accepted|)
      && writeFrame == |accepted| % WORD && readFrame == released % WORD
      && Stored(samples[..], released, accepted)
      && (forall i | 0 <= i < |accepted| :: |accepted[i]| == channels)
      && 0.0 <= readFraction < 1.0
    }

    /** The frames written and not yet given back, oldest first. */
    ghost function Queue(): (q: seq<Frame>)
      requires released <= |accepted|
      reads this
    {
      accepted[released..]
    }

    constructor (capacityFrames: nat, channels: nat)
      requires ValidDimensions(capacityFrames, channels)
      ensures Valid() && fresh(samples) && Queue() == [] && readFraction == 0.0
      ensures this.capacity == capacityFrames && this.channels == channels
    {
      this.capacity := capacityFrames;
      this.channels := channels;
      samples := new Frame[capacityFrames](_ => []);
      writeFrame, readFrame, readFraction := 0, 0, 0.0;
      accepted, released := [], 0;
    }

    /** The source's constructor throws on dimensions outside its range. */
    static method Create(capacityFrames: nat, channels: nat) returns (ring: Ring?)
      ensures (ring == null) == !ValidDimensions(capacityFrames, channels)
      ensures ring != null ==> fresh(ring) && fresh(ring.samples) && ring.Valid() && ring.Queue() == []
    {
      if capacityFrames == 0 || capacityFrames > (WORD - 1) / 2 || channels == 0 || channels > SIZE_MAX / capacityFrames {
        return null;
      }
      ring := new Ring(capacityFrames, channels);
    }

    /** Copies input[..count] to the slots after the last accepted frame. */
    method CopyIn(input: seq<Frame>, count: nat)
      requires Valid() && count <= |input| && |accepted| + count <= released + capacity
      requires WrapSafe(capacity, |accepted| + count)
      modifies samples
      ensures Stored(samples[..], released, accepted + input[..count])
    {
      assert accepted + input[..0] == accepted;
      for i := 0 to count
        invariant Stored(samples[..], released, accepted + input[..i])
      {
        StoreNext(input, count, i);
      }
    }

    method StoreNext(input: seq<Frame>, count: nat, i: nat)
      requires samples.Length == capacity > 0 && i < count <= |input|
      requires released <= |accepted| && |accepted| + count <= released + capacity
      requires WrapSafe(capacity, |accepted| + count) && writeFrame == |accepted| % WORD
      requires Stored(samples[..], released, accepted + input[..i])
      modifies samples
      ensures Stored(samples[..], released, accepted + input[..i + 1])
    {
      StoredAppend(samples[..], released, accepted + input[..i], input[i]);
      CopyIndexIsSlot(|accepted|, count, i, capacity);
      assert accepted + input[..i] + [input[i]] == accepted + input[..i + 1];
      var slot := CopyIndex(writeFrame, count, i, capacity);
      ghost var next := samples[..][slot := input[i]];
      samples[slot] := input[i];
      assert samples[..] == next;
    }

    /** Appends as many frames as fit and says how many. */
    method Write(input: seq<Frame>) returns (count: nat)
      requires Valid() && |input| < WORD && (forall i | 0 <= i < |input| :: |input[i]| == channels)
      requires WrapSafe(capacity, |accepted| + |input|)
      modifies this, samples
      ensures Valid() && readFraction == old(readFraction)
      ensures count == Min(|input|, capacity - |old(Queue())|)
      ensures Queue() == old(Queue()) + input[..count]
    {
      count := 0;
      if |input| == 0 { return; }
      Sub32IsDistance(|accepted|, released);
      var used := Sub32(writeFrame, readFrame);
      count := Min(|input|, capacity - used);
      CopyIn(input, count);
      Add32IsSum(|accepted|, count);
      writeFrame := Add32(writeFrame, count);
      accepted := accepted + input[..count];
    }

    /** The frame at an offset from the read counter. */
    method FrameAt(offset: nat) returns (f: Frame)
      requires Valid() && offset < |Queue()|
      ensures f == Queue()[offset]
    {
      SlotOfOffset(released, offset, capacity);
      f := samples[Slot(readFrame + offset, capacity)];
    }

    method AvailableFrames() returns (n: nat)
      requires Valid()
      ensures n == |Queue()|
    {
      Sub32IsDistance(|accepted|, released);
      n := Min(Sub32(writeFrame, readFrame), capacity);
    }

    method Release(consumed: nat)
      requires Valid() && consumed <= |Queue()|
      modifies this`readFrame, this`released
      ensures Valid() && Queue() == old(Queue())[consumed..]
    {
      Add32IsSum(released, consumed);
      readFrame := Add32(readFrame, consumed);
      released := released + consumed;
    }

    /** Removes and returns the oldest frames, as many as there are up to `frames`. */
    method Read(frames: nat) returns (out: seq<Frame>)
      requires Valid() && frames < WORD
      modifies this`readFrame, this`released
      ensures Valid()
      ensures var n := Min(frames, |old(Queue())|);
              out == old(Queue())[..n] && Queue() == old(Queue())[n..]
    {
      out := [];
      if frames == 0 { return; }
      Sub32IsDistance(|accepted|, released);
      var count := Min(frames, Sub32(writeFrame, readFrame));
      for i := 0 to count
        invariant Valid() && Queue() == old(Queue()) && out == Queue()[..i]
      {
        var f := CopyOut(count, i);
        out := out + [f];
      }
      Release(count);
    }

    method CopyOut(count: nat, i: nat) returns (f: Frame)
      requires Valid() && i < count <= |Queue()|
      ensures f == Queue()[i]
    {
      CopyIndexIsSlot(released, count, i, capacity);
      f := samples[CopyIndex(readFrame, count, i, capacity)];
    }

    method Interpolate(phase: real, available: nat) returns (f: Frame)
      requires Valid() && available == |Queue()| && phase >= 0.0 && phase.Floor < available
      ensures f == LerpAt(Queue(), phase)
    {
      var first := phase.Floor;
      var fraction := Frac(phase);
      var second := first + if fraction > 0.0 && first + 1 < available then 1 else 0;
      var a := FrameAt(first);
      var b := FrameAt(second);
      LerpAtIs(Queue(), phase, a, b);
      f := Lerp(a, b, fraction);
    }

    method ResampleLoop(frames: nat, step: real, available: nat) returns (out: seq<Frame>, phase: real)
      requires Valid() && available == |Queue()| && step >= 0.0
      ensures out == Taken(LerpAt, false, Queue(), readFraction, step, frames)
      ensures phase == PhaseAt(readFraction, step, |out|)
    {
      out, phase := [], readFraction;
      while |out| < frames && phase.Floor < available
        invariant phase >= 0.0 && SoFar(Queue(), readFraction, step, frames, out, phase)
        decreases frames - |out|
      {
        out, phase := ResampleOne(frames, step, available, out, phase);
      }
      Finished(Queue(), readFraction, step, frames, out, phase);
    }

    method ResampleOne(frames: nat, step: real, available: nat, out: seq<Frame>, phase: real)
      returns (next: seq<Frame>, end: real)
      requires Valid() && available == |Queue()| && step >= 0.0 && phase >= 0.0
      requires SoFar(Queue(), readFraction, step, frames, out, phase) && |out| < frames && phase.Floor < available
      ensures end == phase + step && |next| == |out| + 1
      ensures SoFar(Queue(), readFraction, step, frames, next, end)
    {
      var f := Interpolate(phase, available);
      OneMore(Queue(), readFraction, step, frames, out, phase, f);
      next, end := out + [f], phase + step;
    }

    /** Resamples up to `frames` output frames off the front of the queue. */
    method ReadResampled(frames: nat, sourceStep: real) returns (out: seq<Frame>)
      requires Valid() && frames < WORD
      modifies this`readFrame, this`released, this`readFraction
      ensures Valid()
      ensures Pull(out, Queue(), readFraction)
              == Resampling.ReadResampled(old(Queue()), old(readFraction), frames, EffectiveStep(sourceStep))
      ensures var step := if 0.5 <= sourceStep <= 1.5 then sourceStep else 1.0;
              StandsAt(old(Queue()), Queue(), readFraction, PhaseAt(old(readFraction), step, |out|))
    {
      ReadTakesTheGivenStep(Queue(), readFraction, frames, sourceStep);
      var step := EffectiveStep(sourceStep);
      var available := AvailableFrames();
      var phase;
      out, phase := ResampleLoop(frames, step, available);
      Release(Min(phase.Floor, available));
      readFraction := Frac(phase);
    }

    /** Skips the source frames that `frames` output frames would have used, if the phase converts to 32 bits. */
    method AdvanceResampled(frames: nat, sourceStep: real)
      requires Valid() && PhaseAt(readFraction, EffectiveStep(sourceStep), frames).Floor < WORD
      modifies this`readFrame, this`released, this`readFraction
      ensures Valid()
      ensures Pull([], Queue(), readFraction)
              == Skip(old(Queue()), old(readFraction), frames, EffectiveStep(sourceStep))
      ensures var step := if 0.5 <= sourceStep <= 1.5 then sourceStep else 1.0;
              StandsAt(old(Queue()), Queue(), readFraction, PhaseAt(old(readFraction), step, frames))
    {
      SkipTakesTheGivenStep(Queue(), readFraction, frames, sourceStep);
      var phase := PhaseAfter(readFraction, EffectiveStep(sourceStep), frames);
      var available := AvailableFrames();
      Release(Min(phase.Floor, available));
      readFraction := Frac(phase);
    }
  }
}
