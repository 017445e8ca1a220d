/** ControllerActivation's handshake reply matcher: finds a seven-byte reply in a stream cut into buffers anywhere. */
module Handshake {
  import opened Samples24
  import opened Runs
  import opened MidiMessages

  const REPLY: seq<Byte> := [0xf0, 0x00, 0x01, 0x3f, 0x00, 0x79, 0x51]

  /** One byte that is not filler, in state `matched`. */
  function Match(matched: nat, b: Byte): nat
    requires matched < 7
  {
    if b == REPLY[matched] then matched + 1 else if b == REPLY[0] then 1 else 0
  }

  /** consume: the new state and whether the reply was completed; after a match the rest of the buffer is dropped. */
  function Consume(matched: nat, bytes: seq<Byte>): (nat, bool)
    requires matched < 7
    decreases |bytes|
  {
    if bytes == [] then (matched, false)
    else if bytes[0] == FILLER then Consume(matched, bytes[1..])
    else
      var next := Match(matched, bytes[0]);
      if next == 7 then (0, true) else Consume(next, bytes[1..])
  }

  /** The reply, byte by byte, and with filler in it. */
  lemma TheReplyIsReported()
    ensures Consume(0, [0xf0, 0x00, 0x01, 0x3f, 0x00, 0x79, 0x51]) == (0, true)
    ensures Consume(0, [0xf0, 0xfd, 0x00, 0x01, 0x3f, 0xfd]) == (4, false) && Consume(4, [0x00, 0x79, 0x51, 0xf0]) == (0, true)
  {
    var a: seq<Byte> := [0xf0, 0x00, 0x01, 0x3f, 0x00, 0x79, 0x51];
    assert a[1..] == [0x00, 0x01, 0x3f, 0x00, 0x79, 0x51] && a[1..][1..] == [0x01, 0x3f, 0x00, 0x79, 0x51];
    assert Consume(2, [0x01, 0x3f, 0x00, 0x79, 0x51]) == Consume(4, [0x00, 0x79, 0x51]) == (0, true);
    assert Consume(0, [0xf0, 0xfd, 0x00, 0x01, 0x3f, 0xfd]) == Consume(2, [0x01, 0x3f, 0xfd]);
  }

  /** The input ends with the first m bytes of the reply. */
  predicate EndsWith(input: seq<Byte>, m: nat) {
    m <= 7 && m <= |input| && input[|input| - m..] == REPLY[..m]
  }

  /** m is the length of the longest start of the reply the input ends with. */
  predicate Longest(input: seq<Byte>, m: nat) {
    EndsWith(input, m) && forall j | m < j <= 7 :: !EndsWith(input, j)
  }

  predicate Contains(input: seq<Byte>) {
    exists n :: 0 <= n <= |input| && EndsWith(input[..n], 7)
  }

  lemma EndsWithNext(input: seq<Byte>, b: Byte, m: nat)
    requires m < 7
    ensures EndsWith(input + [b], m + 1) <==> EndsWith(input, m) && b == REPLY[m]
  {
    var next := input + [b];
    if m <= |input| {
      assert next[|next| - (m + 1)..] == input[|input| - m..] + [b];
      assert REPLY[..m + 1] == REPLY[..m] + [REPLY[m]];
      if EndsWith(next, m + 1) {
        assert next[|next| - (m + 1)..][..m] == input[|input| - m..] && REPLY[..m + 1][..m] == REPLY[..m];
        assert next[|next| - (m + 1)..][m] == b;
      }
    }
  }

  lemma EndsWithAt(input: seq<Byte>, m: nat, i: nat)
    requires EndsWith(input, m) && i < m
    ensures input[|input| - m + i] == REPLY[i]
  {
    assert input[|input| - m..][i] == REPLY[..m][i];
  }

  lemma FirstByteIsUnique(i: nat)
    requires i < 7 && REPLY[i] == REPLY[0]
    ensures i == 0
  {
  }

  /** The reply's first byte occurs nowhere else in it, so two different starts cannot both end the input. */
  lemma StartsDoNotOverlap(input: seq<Byte>, j: nat, m: nat)
    requires EndsWith(input, m) && EndsWith(input, j) && j <= m < 7
    ensures j == 0 || j == m
  {
    if 0 < j {
      EndsWithAt(input, j, 0);
      EndsWithAt(input, m, m - j);
      FirstByteIsUnique(m - j);
    }
  }

  lemma NothingLonger(input: seq<Byte>, matched: nat, b: Byte, j: nat)
    requires matched < 7 && Longest(input, matched) && Match(matched, b) < j <= 7
    ensures !EndsWith(input + [b], j)
  {
    EndsWithNext(input, b, j - 1);
    if EndsWith(input, j - 1) { StartsDoNotOverlap(input, j - 1, matched); }
  }

  /** One byte keeps the state equal to the longest match. */
  lemma MatchTracks(input: seq<Byte>, matched: nat, b: Byte)
    requires matched < 7 && Longest(input, matched)
    ensures Longest(input + [b], Match(matched, b))
  {
    EndsWithNext(input, b, matched);
    EndsWithNext(input, b, 0);
    forall j | Match(matched, b) < j <= 7 ensures !EndsWith(input + [b], j) {
      NothingLonger(input, matched, b, j);
    }
  }

  lemma ContainsNext(input: seq<Byte>, b: Byte)
    ensures Contains(input + [b]) <==> Contains(input) || EndsWith(input + [b], 7)
  {
    var next := input + [b];
    forall n | 0 <= n <= |input| ensures next[..n] == input[..n] {
    }
    assert next[..|next|] == next;
  }

  lemma {:induction false} ContainsGrows(input: seq<Byte>, more: seq<Byte>)
    requires Contains(input)
    ensures Contains(input + more)
  {
    var n :| 0 <= n <= |input| && EndsWith(input[..n], 7);
    assert (input + more)[..n] == input[..n];
  }

  /** The right answer once the stream so far is `input`: reported iff it contains the reply, else the longest match. */
  predicate Right(input: seq<Byte>, matched: nat, found: bool) {
    matched < 7 && found == Contains(input) && (if found then matched == 0 else Longest(input, matched))
  }

  /**
   * On a stream in which the reply has not occurred yet, a buffer is reported exactly when it completes the first
   * occurrence, and otherwise the state is the longest start of the reply the stream now ends with.
   */
  lemma {:induction false} ConsumeTracks(input: seq<Byte>, matched: nat, bytes: seq<Byte>)
    requires Right(input, matched, false)
    ensures var (matched', found) := Consume(matched, bytes);
            Right(input + Keep(NotFiller, bytes), matched', found)
    decreases |bytes|
  {
    if bytes == [] {
      assert input + [] == input;
    } else {
      var b, rest := bytes[0], bytes[1..];
      assert bytes == [b] + rest;
      KeepFirst(b, rest);
      if b == FILLER {
        ConsumeTracks(input, matched, rest);
        assert [] + Keep(NotFiller, rest) == Keep(NotFiller, rest);
      } else {
        assert input + ([b] + Keep(NotFiller, rest)) == input + [b] + Keep(NotFiller, rest);
        ByteTracks(input, matched, b);
        if Match(matched, b) == 7 {
          ContainsGrows(input + [b], Keep(NotFiller, rest));
        } else {
          ConsumeTracks(input + [b], Match(matched, b), rest);
        }
      }
    }
  }

  lemma ByteTracks(input: seq<Byte>, matched: nat, b: Byte)
    requires Right(input, matched, false)
    ensures var next := Match(matched, b);
            if next == 7 then Contains(input + [b]) else Right(input + [b], next, false)
  {
    MatchTracks(input, matched, b);
    ContainsNext(input, b);
  }

  lemma KeepFirst(b: Byte, rest: seq<Byte>)
    ensures Keep(NotFiller, [b] + rest) == (if b != FILLER then [b] else []) + Keep(NotFiller, rest)
  {
    KeepSplit(NotFiller, [b], rest);
  }

  /** The state after a number of buffers none of which was reported. */
  function StateAfter(buffers: seq<seq<Byte>>, n: nat): (m: nat)
    requires n <= |buffers|
    ensures m < 7
  {
    if n == 0 then 0
    else
      var m := Consume(StateAfter(buffers, n - 1), buffers[n - 1]).0;
      if m < 7 then m else 0
  }

  predicate Found(buffers: seq<seq<Byte>>, n: nat)
    requires n < |buffers|
  {
    Consume(StateAfter(buffers, n), buffers[n]).1
  }

  /** The bytes of the first n buffers without filler. */
  function Stream(buffers: seq<seq<Byte>>, n: nat): seq<Byte>
    requires n <= |buffers|
  {
    if n == 0 then [] else Stream(buffers, n - 1) + Keep(NotFiller, buffers[n - 1])
  }

  /**
   * However the stream is cut into buffers: as long as none has been reported, the state is the length of the
   * longest start of the reply that the stream ends with, and the next buffer is reported exactly when the
   * reply first occurs in it.
   */
  lemma {:induction false} FirstReplyIsFoundForEverySplit(buffers: seq<seq<Byte>>, n: nat)
    requires n <= |buffers| && forall i | 0 <= i < n :: !Found(buffers, i)
    ensures Right(Stream(buffers, n), StateAfter(buffers, n), false)
    ensures n < |buffers| ==> (Found(buffers, n) <==> Contains(Stream(buffers, n + 1)))
  {
    if n == 0 {
      assert !Contains([]) && EndsWith([], 0);
    } else {
      FirstReplyIsFoundForEverySplit(buffers, n - 1);
      ConsumeTracks(Stream(buffers, n - 1), StateAfter(buffers, n - 1), buffers[n - 1]);
      assert !Found(buffers, n - 1);
    }
    if n < |buffers| { ConsumeTracks(Stream(buffers, n), StateAfter(buffers, n), buffers[n]); }
  }

  class ReplyParser {
    var matched: nat

    constructor ()
      ensures matched == 0
    {
      matched := 0;
    }

    /** consume. */
    method Feed(bytes: seq<Byte>) returns (found: bool)
      requires matched < 7
      modifies this
      ensures matched < 7 && (matched, found) == Consume(old(matched), bytes)
    {
      assert bytes[0..] == bytes;
      for i := 0 to |bytes|
        invariant matched < 7 && Consume(matched, bytes[i..]) == Consume(old(matched), bytes)
      {
        var b := bytes[i];
        assert bytes[i..][1..] == bytes[i + 1..];
        if b != FILLER {
          if b == REPLY[matched] {
            matched := matched + 1;
            if matched == 7 {
              matched := 0;
              return true;
            }
          } else {
            matched := if b == REPLY[0] then 1 else 0;
          }
        }
      }
      return false;
    }
  }
}
