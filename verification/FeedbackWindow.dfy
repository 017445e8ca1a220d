/** The 40000-report sliding sum kept by AudioPacketPolicy and by NS6ClockControl, and the microframe patterns. */
module FeedbackWindow {
  import opened RingIndex

  const WINDOW: nat := 40000

  /** A report the device may legitimately send: frames per millisecond. */
  predicate ValidReport(v: nat) { 42 <= v <= 46 }

  function Sum(s: seq<nat>): nat { if s == [] then 0 else s[0] + Sum(s[1..]) }

  /** The last n elements, or all of them if there are fewer. */
  function Last(s: seq<nat>, n: nat): (r: seq<nat>)
    ensures |r| == Min(|s|, n)
  {
    s[|s| - Min(|s|, n)..]
  }

  datatype Window = Window(data: seq<nat>, sum: nat, count: nat, index: nat)

  function EmptyWindow(): Window { Window(seq(WINDOW, _ => 0), 0, 0, 0) }

  /** Replaces the oldest report once the window is full. */
  function Observe(w: Window, v: nat): Window
    requires |w.data| == WINDOW && w.index < WINDOW && (w.count == WINDOW ==> w.data[w.index] <= w.sum)
  {
    var full := w.count == WINDOW;
    Window(w.data[w.index := v],
           (if full then w.sum - w.data[w.index] else w.sum) + v,
           if full then w.count else w.count + 1,
           (w.index + 1) % WINDOW)
  }

  /** The window after the reports `seen`: its sum is that of the last 40000 of them. */
  ghost predicate Tracks(w: Window, seen: seq<nat>) {
    && |w.data| == WINDOW
    && w.count == Min(|seen|, WINDOW)
    && w.index == Wrap(|seen|, WINDOW)
    && Stored(w.data, |seen| - w.count, seen)
    && w.sum == Sum(Last(seen, WINDOW))
  }

  lemma {:induction false} SumAppend(a: seq<nat>, v: nat)
    ensures Sum(a + [v]) == Sum(a) + v
  {
    if a != [] {
      SumAppend(a[1..], v);
      assert (a + [v])[1..] == a[1..] + [v];
    }
  }

  lemma {:induction false} SumConcat(a: seq<nat>, b: seq<nat>)
    ensures Sum(a + b) == Sum(a) + Sum(b)
  {
    if a == [] {
      assert a + b == b;
    } else {
      SumConcat(a[1..], b);
      assert (a + b)[1..] == a[1..] + b;
    }
  }

  lemma LastStep(seen: seq<nat>, v: nat)
    ensures Sum(Last(seen + [v], WINDOW)) + (if |seen| >= WINDOW then seen[|seen| - WINDOW] else 0)
            == Sum(Last(seen, WINDOW)) + v
  {
    var now := Last(seen, WINDOW);
    SumAppend(now, v);
    if |seen| >= WINDOW {
      assert Last(seen + [v], WINDOW) == (now + [v])[1..];
    } else {
      assert Last(seen + [v], WINDOW) == now + [v];
    }
  }

  lemma EvictedIsOldest(w: Window, seen: seq<nat>)
    requires Tracks(w, seen) && w.count == WINDOW
    ensures w.data[w.index] == seen[|seen| - WINDOW] <= w.sum
  {
    var oldest := |seen| - WINDOW;
    WrapShift(oldest, WINDOW, WINDOW);
    assert Last(seen, WINDOW)[0] == seen[oldest];
  }

  lemma ObserveTracks(w: Window, seen: seq<nat>, v: nat)
    requires Tracks(w, seen)
    ensures w.count == WINDOW ==> w.data[w.index] <= w.sum
    ensures w.index < WINDOW && Tracks(Observe(w, v), seen + [v])
  {
    if w.count == WINDOW { EvictedIsOldest(w, seen); }
    LastStep(seen, v);
    WrapShift(|seen|, 1, WINDOW);
    var lo := |seen + [v]| - Min(|seen| + 1, WINDOW);
    assert Stored(w.data, lo, seen);
    StoredAppend(w.data, lo, seen, v);
  }

  lemma EmptyTracks()
    ensures Tracks(EmptyWindow(), [])
  {
  }

  /** Once full, the rate in millihertz is 25 times the sum: the division by the window loses nothing. */
  lemma FullWindowRateIsExact(sum: nat)
    ensures sum * 1000000 / WINDOW == 25 * sum && sum * 1000000 % WINDOW == 0
  {
  }

  // ------------------------------------------------------------------ patterns

  /** Eight microframe packet sizes, one millisecond. */
  type Group = g: seq<nat> | |g| == 8 witness [6, 5, 6, 5, 6, 5, 6, 5]

  function Total(g: Group): nat { g[0] + g[1] + g[2] + g[3] + g[4] + g[5] + g[6] + g[7] }

  predicate FiveOrSix(g: Group) { forall i | 0 <= i < 8 :: g[i] == 5 || g[i] == 6 }

  datatype Built = Rejected | Built(packets: Group)

  /** AudioFeedbackPatternPolicy::build. */
  function Build(framesPerMillisecond: nat): (b: Built)
    ensures b.Built? <==> ValidReport(framesPerMillisecond)
    ensures b.Built? ==> Total(b.packets) == framesPerMillisecond && FiveOrSix(b.packets)
  {
    if framesPerMillisecond < 42 || framesPerMillisecond > 46 then Rejected
    else
      PatternRow(framesPerMillisecond);
      Built(seq<nat>(8, i requires 0 <= i < 8 => PacketSize(framesPerMillisecond, i)))
  }

  /** The pattern table: which of the eight packets of a millisecond carry six frames. */
  function PacketSize(v: nat, i: nat): nat {
    var six :=
      match v
      case 42 => i == 0 || i == 4
      case 43 => i == 2 || i == 4 || i == 6
      case 44 => i % 2 == 0
      case 45 => i == 0 || i % 2 == 1
      case _ => i % 4 != 0;
    if six then 6 else 5
  }

  lemma PatternRow(v: nat)
    requires ValidReport(v)
    ensures PacketSize(v, 0) + PacketSize(v, 1) + PacketSize(v, 2) + PacketSize(v, 3)
            + PacketSize(v, 4) + PacketSize(v, 5) + PacketSize(v, 6) + PacketSize(v, 7) == v
  {
  }

  /** The table, row by row. */
  lemma PatternTable()
    ensures Pattern(42) == [6, 5, 5, 5, 6, 5, 5, 5]
    ensures Pattern(43) == [5, 5, 6, 5, 6, 5, 6, 5]
    ensures Pattern(44) == [6, 5, 6, 5, 6, 5, 6, 5]
    ensures Pattern(45) == [6, 6, 5, 6, 5, 6, 5, 6]
    ensures Pattern(46) == [5, 6, 6, 6, 5, 6, 6, 6]
    ensures forall v: nat | v < 42 || v > 46 :: Build(v) == Rejected
  {
  }

  function Pattern(v: nat): (g: Group)
    requires ValidReport(v)
    ensures Total(g) == v && FiveOrSix(g)
  {
    Build(v).packets
  }

  // ------------------------------------------------------------------ cadence

  /** Frames due after k service intervals. */
  function Quota(rate: nat, service: nat, k: nat): nat
    requires service > 0
  {
    k * rate / service
  }

  /** The same by addition and subtraction alone: what is due in all, and the whole services in it. */
  function Due(rate: nat, k: nat): nat {
    if k == 0 then 0 else Due(rate, k - 1) + rate
  }

  function Whole(x: nat, service: nat): nat
    requires service > 0
  {
    if x < service then 0 else 1 + Whole(x - service, service)
  }

  function Sent(rate: nat, service: nat, k: nat): nat
    requires service > 0
  {
    Whole(Due(rate, k), service)
  }

  lemma {:induction false} DueIsProduct(rate: nat, k: nat)
    ensures Due(rate, k) == k * rate
  {
    if k == 0 {
      assert 0 * rate == 0;
    } else {
      DueIsProduct(rate, k - 1);
      assert k * rate == (k - 1) * rate + rate;
    }
  }

  lemma {:induction false} WholeIsQuotient(x: nat, service: nat)
    requires service > 0
    ensures Whole(x, service) == x / service && Wrap(x, service) == x % service
  {
    if x < service {
      ModOf(x, service, 0, x);
    } else {
      WholeIsQuotient(x - service, service);
      var q, r := (x - service) / service, (x - service) % service;
      assert x == (q + 1) * service + r;
      ModOf(x, service, q + 1, r);
    }
  }

  lemma SentIsQuota(rate: nat, service: nat, k: nat)
    requires service > 0
    ensures Sent(rate, service, k) == Quota(rate, service, k)
  {
    DueIsProduct(rate, k);
    WholeIsQuotient(Due(rate, k), service);
  }

  /** Adding two amounts carries when their remainders fill a service. */
  lemma {:induction false} WholeOfSum(a: nat, b: nat, m: nat)
    requires m > 0
    ensures var carry := Wrap(a, m) + Wrap(b, m) >= m;
            && Whole(a + b, m) == Whole(a, m) + Whole(b, m) + (if carry then 1 else 0)
            && Wrap(a + b, m) == Wrap(a, m) + Wrap(b, m) - (if carry then m else 0)
    decreases a + b
  {
    if a >= m {
      WholeOfSum(a - m, b, m);
    } else if b >= m {
      WholeOfSum(a, b - m, m);
    }
  }

  lemma QuotaStep(rate: nat, service: nat, k: nat)
    requires service > 0
    ensures var carry := k * rate % service + rate % service >= service;
            && Quota(rate, service, k + 1) == Quota(rate, service, k) + rate / service + (if carry then 1 else 0)
            && (k + 1) * rate % service == k * rate % service + rate % service - (if carry then service else 0)
  {
    assert (k + 1) * rate == k * rate + rate;
    DivOfSum(k * rate, rate, service);
  }

  lemma Distribute(a: nat, b: nat, c: nat, m: nat)
    ensures (a + b + c) * m == a * m + b * m + c * m
  {
  }

  lemma DivOfSum(a: nat, b: nat, m: nat)
    requires m > 0
    ensures var carry := if a % m + b % m >= m then 1 else 0;
            (a + b) / m == a / m + b / m + carry && (a + b) % m == a % m + b % m - carry * m
  {
    var q, p, whole, rem := a / m, a % m, b / m, b % m;
    var carry := if p + rem >= m then 1 else 0;
    Distribute(q, whole, carry, m);
    ModOf(a + b, m, q + whole + carry, p + rem - carry * m);
  }

  /** 44.1 frames per millisecond in whole frames: 44 each, and one more every tenth. */
  lemma TenthsOfFrames(n: nat)
    ensures 441 * n / 10 == 44 * n + n / 10
  {
    ModOf(441 * n, 10, 44 * n + n / 10, n % 10);
  }

  lemma ProductMonotone(base: real, x: real, y: real)
    requires base >= 0.0 && x <= y
    ensures base * x <= base * y
  {
    assert base * y - base * x == base * (y - x);
  }
}
