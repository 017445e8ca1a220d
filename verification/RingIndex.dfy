/** Index arithmetic shared by the rings: 32-bit counters, slots and the "stored window" predicate. */
module RingIndex {

  const WORD: nat := 0x1_0000_0000

  function Min(a: nat, b: nat): nat { if a <= b then a else b }

  /** 32-bit modular addition and subtraction. */
  function Add32(a: nat, b: nat): nat { (a + b) % WORD }
  function Sub32(a: nat, b: nat): nat { (a - b) % WORD }

  /** The slot the code computes for an unbounded position: the counter is wrapped to 32 bits first. */
  function Slot(p: nat, cap: nat): nat
    requires cap > 0
  {
    p % WORD % cap
  }

  /** Positions below `end` map to distinct slots within any window of `cap` frames. */
  predicate WrapSafe(cap: nat, end: nat)
    requires cap > 0
  {
    DividesWord(cap) || end <= WORD
  }

  /** p modulo cap, by repeated subtraction. */
  function Wrap(p: nat, cap: nat): (r: nat)
    requires cap > 0
    ensures r < cap
    decreases p
  {
    if p < cap then p else Wrap(p - cap, cap)
  }

  /** The capacity divides 2^32. */
  predicate DividesWord(cap: nat)
    requires cap > 0
  {
    Wrap(WORD, cap) == 0
  }

  lemma {:induction false} WrapIsMod(p: nat, cap: nat)
    requires cap > 0
    ensures Wrap(p, cap) == p % cap
  {
    if p < cap {
      ModOf(p, cap, 0, p);
    } else {
      WrapIsMod(p - cap, cap);
      ModMultiple(p - cap, cap, 1);
    }
  }

  lemma DriverCapacityDividesWord()
    ensures DividesWord(16384)
  {
    WrapIsMod(WORD, 16384);
  }

  /** `samples` holds history[lo..], each frame in the slot of its position. */
  predicate Stored<T(==)>(samples: seq<T>, lo: nat, history: seq<T>)
    requires |samples| > 0
  {
    forall p | lo <= p < |history| :: samples[Wrap(p, |samples|)] == history[p]
  }

  lemma ModOf(p: nat, m: nat, q: nat, r: nat)
    requires r < m && p == q * m + r
    ensures p % m == r && p / m == q
  {
    QuotientUnique(p / m, p % m, q, r, m);
  }

  lemma QuotientUnique(a: nat, r: nat, b: nat, s: nat, m: nat)
    requires r < m && s < m && a * m + r == b * m + s
    ensures a == b && r == s
  {
    if a != b {
      var d := if a < b then b - a else a - b;
      assert d * m == if a < b then b * m - a * m else a * m - b * m;
      MulAtLeast(d, m);
    }
  }

  lemma MulAtLeast(d: nat, m: nat)
    requires d >= 1
    ensures d * m >= m
  {
    assert d * m == m + (d - 1) * m;
  }

  lemma {:induction false} WrapShift(p: nat, i: nat, m: nat)
    requires m > 0 && i <= m
    ensures Wrap(p + i, m) == if Wrap(p, m) + i < m then Wrap(p, m) + i else Wrap(p, m) + i - m
  {
    if p >= m { WrapShift(p - m, i, m); }
  }

  lemma SlotsDistinct(p: nat, q: nat, m: nat)
    requires m > 0 && p < q < p + m
    ensures Wrap(p, m) != Wrap(q, m)
  {
    WrapShift(p, q - p, m);
  }

  lemma ModMultiple(p: nat, m: nat, k: nat)
    requires m > 0
    ensures (p + k * m) % m == p % m
  {
    assert p + k * m == (p / m + k) * m + p % m;
    ModOf(p + k * m, m, p / m + k, p % m);
  }

  lemma {:induction false} ModOfMod(p: nat, word: nat, k: nat, cap: nat)
    requires cap > 0 && word == k * cap && word > 0
    ensures p % word % cap == p % cap
  {
    if p < word {
      ModOf(p, word, 0, p);
    } else {
      ModOfMod(p - word, word, k, cap);
      ModMultiple(p - word, word, 1);
      ModMultiple(p - word, cap, k);
    }
  }

  lemma {:induction false} WrapZeroIsMultiple(p: nat, cap: nat) returns (k: nat)
    requires cap > 0 && Wrap(p, cap) == 0
    ensures p == k * cap
  {
    if p < cap {
      k := 0;
    } else {
      var j := WrapZeroIsMultiple(p - cap, cap);
      k := j + 1;
    }
  }

  lemma SlotIsMod(p: nat, cap: nat)
    requires cap > 0 && (DividesWord(cap) || p < WORD)
    ensures Slot(p, cap) == Wrap(p, cap)
  {
    WrapIsMod(p, cap);
    if DividesWord(cap) {
      var k := WrapZeroIsMultiple(WORD, cap);
      ModOfMod(p, WORD, k, cap);
    }
  }

  /**
   * The rings' indexing keeps every window of `cap` consecutive positions apart for ever exactly when
   * the capacity divides 2^32; otherwise the counter wrap itself makes two frames of one window collide.
   */
  lemma {:induction false} WindowsStayApartIffCapacityDividesWord(cap: nat)
    requires 0 < cap < WORD
    ensures WORD % cap == 0 <==> (forall p: nat, q: nat | p < q < p + cap :: Slot(p, cap) != Slot(q, cap))
  {
    WrapIsMod(WORD, cap);
    if WORD % cap == 0 {
      forall p: nat, q: nat | p < q < p + cap ensures Slot(p, cap) != Slot(q, cap) {
        SlotIsMod(p, cap);
        SlotIsMod(q, cap);
        SlotsDistinct(p, q, cap);
      }
    } else {
      WrapCollides(cap);
    }
  }

  lemma WrapCollides(cap: nat)
    requires 0 < cap < WORD && WORD % cap != 0
    ensures Slot(WORD - 1, cap) == Slot(WORD + WORD % cap - 1, cap)
  {
    var r := WORD % cap;
    assert WORD - 1 == WORD / cap * cap + (r - 1);
    ModOf(WORD - 1, cap, WORD / cap, r - 1);
    ModOf(WORD + r - 1, WORD, 1, r - 1);
    ModOf(r - 1, cap, 0, r - 1);
  }

  lemma Sub32IsDistance(hi: nat, lo: nat)
    requires lo <= hi < lo + WORD
    ensures Sub32(hi % WORD, lo % WORD) == hi - lo
  {
  }

  lemma Add32IsSum(a: nat, b: nat)
    ensures Add32(a % WORD, b) == (a + b) % WORD
  {
  }

  /** Putting the next frame in its slot extends the stored window by that frame. */
  lemma StoredAppend<T>(samples: seq<T>, lo: nat, history: seq<T>, x: T)
    requires |samples| > 0 && Stored(samples, lo, history)
    requires lo <= |history| < lo + |samples|
    ensures Stored(samples[Wrap(|history|, |samples|) := x], lo, history + [x])
  {
    forall q | lo <= q < |history| ensures Wrap(q, |samples|) != Wrap(|history|, |samples|) {
      SlotsDistinct(q, |history|, |samples|);
    }
  }

  /** Where the two memcpy pieces put frame i of a transfer of `count` frames starting at counter c. */
  function CopyIndex(c: nat, count: nat, i: nat, cap: nat): nat
    requires cap > 0
  {
    var offset := c % cap;
    var first := Min(count, cap - offset);
    if i < first then offset + i else i - first
  }

  /** The split copy lands on the slot of the position it copies. */
  lemma CopyIndexIsSlot(p: nat, count: nat, i: nat, cap: nat)
    requires 0 < cap && i < count <= cap && WrapSafe(cap, p + count)
    ensures CopyIndex(p % WORD, count, i, cap) == Wrap(p + i, cap)
  {
    SlotIsMod(p, cap);
    WrapShift(p, i, cap);
  }

  lemma SlotOfOffset(p: nat, offset: nat, cap: nat)
    requires cap > 0 && (DividesWord(cap) || p + offset < WORD)
    ensures Slot(p % WORD + offset, cap) == Wrap(p + offset, cap)
  {
    SlotIsMod(p + offset, cap);
    AddAfterWrap(p, offset);
  }

  lemma AddAfterWrap(p: nat, offset: nat)
    ensures (p % WORD + offset) % WORD == (p + offset) % WORD
  {
  }
}
