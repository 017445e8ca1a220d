/** Runs of a deterministic step function, and induction over them. */
module Runs {

  /** Feeds the events to `step` in order; returns the last state and everything emitted. */
  function Run<S, E, O>(step: (S, E) -> (S, seq<O>), s: S, events: seq<E>): (S, seq<O>) {
    if events == [] then (s, [])
    else
      var (s1, out) := Run(step, s, events[..|events| - 1]);
      var (s2, more) := step(s1, events[|events| - 1]);
      (s2, out + more)
  }

  /** A property of (state, events so far, output so far) that holds at the start and survives each step holds always. */
  lemma {:induction false} RunInvariant<S(!new), E(!new), O(!new)>(
      step: (S, E) -> (S, seq<O>), inv: (S, seq<E>, seq<O>) -> bool, s: S, events: seq<E>)
    requires inv(s, [], [])
    requires forall t, es, os, e {:trigger inv(t, es, os), step(t, e)} :: inv(t, es, os) ==> inv(step(t, e).0, es + [e], os + step(t, e).1)
    ensures inv(Run(step, s, events).0, events, Run(step, s, events).1)
  {
    if events != [] {
      var n := |events| - 1;
      RunInvariant(step, inv, s, events[..n]);
      assert events == events[..n] + [events[n]];
    }
  }

  /** Feeding a and then b is feeding a + b. */
  lemma {:induction false} RunSplit<S, E, O>(step: (S, E) -> (S, seq<O>), s: S, a: seq<E>, b: seq<E>)
    ensures var (s1, out) := Run(step, s, a);
            var (s2, more) := Run(step, s1, b);
            Run(step, s, a + b) == (s2, out + more)
    decreases |b|
  {
    var (s1, out) := Run(step, s, a);
    if b == [] {
      assert a + b == a && out + [] == out;
    } else {
      var n := |b| - 1;
      RunSplit(step, s, a, b[..n]);
      var (s2, more) := Run(step, s1, b[..n]);
      var (s3, last) := step(s2, b[n]);
      RunAppend(step, s, a + b[..n], b[n]);
      assert a + b == a + b[..n] + [b[n]];
      assert out + more + last == out + (more + last);
    }
  }

  lemma RunAppend<S, E, O>(step: (S, E) -> (S, seq<O>), s: S, es: seq<E>, e: E)
    ensures var (s1, out) := Run(step, s, es);
            var (s2, more) := step(s1, e);
            Run(step, s, es + [e]) == (s2, out + more)
  {
    assert (es + [e])[..|es|] == es;
  }

  /** As long as nothing has been emitted, the next event emits what its own step emits. */
  lemma RunThen<S, E, O>(step: (S, E) -> (S, seq<O>), s: S, es: seq<E>, t: S, e: E)
    requires Run(step, s, es) == (t, [])
    ensures Run(step, s, es + [e]) == step(t, e)
  {
    RunAppend(step, s, es, e);
    assert [] + step(t, e).1 == step(t, e).1;
  }

  /** The elements of xs that satisfy `keep`, in order. */
  function Keep<A>(keep: A -> bool, xs: seq<A>): seq<A> {
    if xs == [] then []
    else Keep(keep, xs[..|xs| - 1]) + if keep(xs[|xs| - 1]) then [xs[|xs| - 1]] else []
  }

  lemma {:induction false} KeepSplit<A>(keep: A -> bool, a: seq<A>, b: seq<A>)
    ensures Keep(keep, a + b) == Keep(keep, a) + Keep(keep, b)
    decreases |b|
  {
    if b == [] {
      assert a + b == a;
    } else {
      var n := |b| - 1;
      KeepSplit(keep, a, b[..n]);
      assert (a + b)[..|a + b| - 1] == a + b[..n];
    }
  }

  lemma {:induction false} KeepAll<A>(keep: A -> bool, xs: seq<A>)
    requires forall i | 0 <= i < |xs| :: keep(xs[i])
    ensures Keep(keep, xs) == xs
  {
    if xs != [] {
      KeepAll(keep, xs[..|xs| - 1]);
      assert xs == xs[..|xs| - 1] + [xs[|xs| - 1]];
    }
  }

  lemma {:induction false} KeepNone<A>(keep: A -> bool, xs: seq<A>)
    requires forall i | 0 <= i < |xs| :: !keep(xs[i])
    ensures Keep(keep, xs) == []
  {
    if xs != [] { KeepNone(keep, xs[..|xs| - 1]); }
  }

  /** Events that change nothing and emit nothing can be left out. */
  lemma {:induction false} RunSkips<S(!new), E(!new), O(!new)>(step: (S, E) -> (S, seq<O>), keep: E -> bool, s: S, es: seq<E>)
    requires forall t, e {:trigger step(t, e)} | !keep(e) :: step(t, e) == (t, [])
    ensures Run(step, s, es) == Run(step, s, Keep(keep, es))
  {
    if es != [] {
      var n := |es| - 1;
      RunSkips(step, keep, s, es[..n]);
      var (s1, out) := Run(step, s, es[..n]);
      if keep(es[n]) {
        RunAppend(step, s, Keep(keep, es[..n]), es[n]);
      } else {
        assert step(s1, es[n]) == (s1, []);
        assert out + [] == out;
        assert Keep(keep, es) == Keep(keep, es[..n]);
      }
    }
  }

  /** A step that feeds parts to an inner step, run over events, is the inner step run over all the parts. */
  lemma {:induction false} RunVia<S(!new), E(!new), F(!new), O(!new)>(
      outer: (S, E) -> (S, seq<O>), inner: (S, F) -> (S, seq<O>), parts: E -> seq<F>, s: S, es: seq<E>)
    requires forall t, e {:trigger outer(t, e)} :: outer(t, e) == Run(inner, t, parts(e))
    ensures Run(outer, s, es) == Run(inner, s, Concat(parts, es))
  {
    if es != [] {
      var n := |es| - 1;
      RunVia(outer, inner, parts, s, es[..n]);
      RunSplit(inner, s, Concat(parts, es[..n]), parts(es[n]));
    }
  }

  /** n repetitions of a step that emits one value each time. */
  function Repeat<S, O>(next: S -> (S, O), s: S, n: nat): (S, seq<O>) {
    if n == 0 then (s, [])
    else
      var (s1, out) := Repeat(next, s, n - 1);
      var (s2, x) := next(s1);
      (s2, out + [x])
  }

  lemma {:induction false} RepeatCompose<S, O>(next: S -> (S, O), s: S, n: nat, m: nat)
    ensures var (s1, a) := Repeat(next, s, n);
            var (s2, b) := Repeat(next, s1, m);
            Repeat(next, s, n + m) == (s2, a + b)
    decreases m
  {
    var (s1, a) := Repeat(next, s, n);
    if m == 0 {
      assert a + [] == a;
    } else {
      RepeatCompose(next, s, n, m - 1);
      var (s2, b) := Repeat(next, s1, m - 1);
      assert a + (b + [next(s2).1]) == (a + b) + [next(s2).1];
    }
  }

  /** Following a chain of states link by link emits the labels of the links. */
  lemma {:induction false} RepeatChain<S, O>(next: S -> (S, O), states: seq<S>, outs: seq<O>, n: nat)
    requires |states| == |outs| + 1 && n <= |outs|
    requires forall i | 0 <= i < |outs| :: next(states[i]) == (states[i + 1], outs[i])
    ensures Repeat(next, states[0], n) == (states[n], outs[..n])
  {
    if n > 0 {
      RepeatChain(next, states, outs, n - 1);
      assert outs[..n] == outs[..n - 1] + [outs[n - 1]];
    }
  }

  function Flatten<O>(blocks: seq<seq<O>>): seq<O> {
    if blocks == [] then [] else Flatten(blocks[..|blocks| - 1]) + blocks[|blocks| - 1]
  }

  lemma FlattenAppend<O>(blocks: seq<seq<O>>, b: seq<O>)
    ensures Flatten(blocks + [b]) == Flatten(blocks) + b
  {
    assert (blocks + [b])[..|blocks|] == blocks;
  }

  lemma FlattenOne<O>(b: seq<O>)
    ensures Flatten([b]) == b
  {
    FlattenAppend([], b);
    assert [] + [b] == [b];
  }

  lemma {:induction false} FlattenCons<O>(b: seq<O>, blocks: seq<seq<O>>)
    ensures Flatten([b] + blocks) == b + Flatten(blocks)
  {
    if blocks != [] {
      var n := |blocks| - 1;
      FlattenCons(b, blocks[..n]);
      assert ([b] + blocks)[..n + 1] == [b] + blocks[..n];
    }
  }

  lemma {:induction false} FlattenSplit<O>(a: seq<seq<O>>, b: seq<seq<O>>)
    ensures Flatten(a + b) == Flatten(a) + Flatten(b)
    decreases |b|
  {
    if b == [] {
      assert a + b == a;
    } else {
      var n := |b| - 1;
      FlattenSplit(a, b[..n]);
      assert (a + b)[..|a| + n] == a + b[..n] && (a + b)[|a| + n] == b[n];
      assert Flatten(a) + (Flatten(b[..n]) + b[n]) == Flatten(a) + Flatten(b[..n]) + b[n];
    }
  }

  /** When eight repetitions from any good state make one block step, 8 * k repetitions make k block steps. */
  lemma {:induction false} RepeatEights<S(!new), O(!new)>(
      next: S -> (S, O), block: S -> (S, seq<O>), ok: S -> bool, s: S, n: nat, k: nat)
    requires ok(s) && n == 8
    requires forall t {:trigger block(t)} | ok(t) :: Repeat(next, t, n) == block(t) && ok(block(t).0)
    ensures var (s', blocks) := Repeat(block, s, k);
            ok(s') && Repeat(next, s, 8 * k) == (s', Flatten(blocks))
    decreases k
  {
    if k > 0 {
      RepeatEights(next, block, ok, s, n, k - 1);
      var (s1, before) := Repeat(block, s, k - 1);
      RepeatCompose(next, s, 8 * (k - 1), n);
      FlattenAppend(before, block(s1).1);
      assert Repeat(next, s1, n) == block(s1);
    }
  }

  /** Every value emitted from good states is good. */
  lemma {:induction false} RepeatAll<S(!new), O(!new)>(
      next: S -> (S, O), ok: S -> bool, good: O -> bool, s: S, n: nat)
    requires ok(s)
    requires forall t {:trigger next(t)} | ok(t) :: good(next(t).1) && ok(next(t).0)
    ensures ok(Repeat(next, s, n).0) && |Repeat(next, s, n).1| == n
    ensures forall i | 0 <= i < n :: good(Repeat(next, s, n).1[i])
    decreases n
  {
    if n > 0 { RepeatAll(next, ok, good, s, n - 1); }
  }

  function SumOf<O>(size: O -> int, xs: seq<O>): int {
    if xs == [] then 0 else SumOf(size, xs[..|xs| - 1]) + size(xs[|xs| - 1])
  }

  /** When every step from a good state adds what it emits to a weight and one to a clock, so do n steps. */
  lemma {:induction false} RepeatAddsUp<S(!new), O(!new)>(
      next: S -> (S, O), ok: S -> bool, weight: S -> int, clock: S -> int, size: O -> int, s: S, n: nat)
    requires ok(s)
    requires forall t {:trigger next(t)} | ok(t) ::
               ok(next(t).0) && clock(next(t).0) == clock(t) + 1 && weight(next(t).0) == weight(t) + size(next(t).1)
    ensures var (s', out) := Repeat(next, s, n);
            ok(s') && clock(s') == clock(s) + n && weight(s') == weight(s) + SumOf(size, out)
    decreases n
  {
    if n > 0 {
      RepeatAddsUp(next, ok, weight, clock, size, s, n - 1);
      var (s1, out) := Repeat(next, s, n - 1);
      assert (out + [next(s1).1])[..|out|] == out;
    }
  }

  /** The concatenation of f(x) for the elements of xs in order. */
  function Concat<A, B>(f: A -> seq<B>, xs: seq<A>): seq<B> {
    if xs == [] then [] else Concat(f, xs[..|xs| - 1]) + f(xs[|xs| - 1])
  }

  lemma ConcatAppend<A, B>(f: A -> seq<B>, xs: seq<A>, x: A)
    ensures Concat(f, xs + [x]) == Concat(f, xs) + f(x)
  {
    assert (xs + [x])[..|xs|] == xs;
  }

  lemma {:induction false} ConcatSplit<A, B>(f: A -> seq<B>, xs: seq<A>, ys: seq<A>)
    ensures Concat(f, xs + ys) == Concat(f, xs) + Concat(f, ys)
    decreases |ys|
  {
    if ys == [] {
      assert xs + ys == xs;
    } else {
      var n := |ys| - 1;
      ConcatSplit(f, xs, ys[..n]);
      ConcatAppend(f, xs + ys[..n], ys[n]);
      assert xs + ys == xs + ys[..n] + [ys[n]];
    }
  }

  lemma {:induction false} ConcatLength<A(!new), B>(f: A -> seq<B>, xs: seq<A>, n: nat)
    requires forall x :: |f(x)| == n
    ensures |Concat(f, xs)| == |xs| * n
  {
    if xs != [] {
      ConcatLength(f, xs[..|xs| - 1], n);
      assert |xs| * n == (|xs| - 1) * n + n;
    }
  }
}
