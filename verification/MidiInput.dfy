/** MIDI channel messages as bytes. */
module MidiMessages {
  import opened Samples24

  /** Filler the controller puts between messages. */
  const FILLER: Byte := 0xfd

  predicate IsStatus(b: Byte) { 0x80 <= b <= 0xef }

  predicate IsData(b: Byte) { b < 0x80 }

  /** midiMessageLength: program change and channel pressure have one data byte. */
  function Size(status: Byte): (n: nat)
    ensures n == 2 || n == 3
  {
    if 0xc0 <= status <= 0xdf then 2 else 3
  }

  /** Program change (0xC0) and channel pressure (0xD0) take two bytes on every channel, the other channel messages three. */
  lemma SizeByKind(kind: nat, channel: nat)
    requires 8 <= kind <= 14 && channel < 16
    ensures IsStatus(16 * kind + channel) && Size(16 * kind + channel) == if kind == 12 || kind == 13 then 2 else 3
  {
  }

  /** The start of a channel message: a status byte and data bytes. */
  predicate Started(m: seq<Byte>) {
    m != [] && IsStatus(m[0]) && |m| <= Size(m[0]) && forall i | 1 <= i < |m| :: IsData(m[i])
  }

  predicate Whole(m: seq<Byte>) { Started(m) && |m| == Size(m[0]) }

  predicate AllWhole(messages: seq<seq<Byte>>) { forall i | 0 <= i < |messages| :: Whole(messages[i]) }

  predicate NotFiller(b: Byte) { b != FILLER }

  predicate Clean(bytes: seq<Byte>) { forall i | 0 <= i < |bytes| :: NotFiller(bytes[i]) }
}

/** MIDIInputParser: the streaming parser of 42-byte reports. */
module MidiInputParser {
  import opened Samples24
  import opened Runs
  import opened MidiMessages

  const REPORT: nat := 42
  const PAYLOAD: nat := 41

  /** One byte: the message in progress afterwards, and the message it completed, if any. */
  function FeedByte(p: seq<Byte>, b: Byte): (seq<Byte>, seq<seq<Byte>>) {
    if b == FILLER then (p, [])
    else if b >= 0x80 then (if IsStatus(b) then [b] else [], [])
    else if p == [] then (p, [])
    else if |p| + 1 == Size(p[0]) then ([], [p + [b]])
    else (p + [b], [])
  }

  /** A report of the wrong length drops the message in progress; byte 41 is never data. */
  function FeedReport(p: seq<Byte>, report: seq<Byte>): (seq<Byte>, seq<seq<Byte>>) {
    if |report| != REPORT then ([], []) else Run(FeedByte, p, Payload(report))
  }

  function Payload(report: seq<Byte>): seq<Byte> {
    if |report| < PAYLOAD then report else report[..PAYLOAD]
  }

  predicate InProgress(p: seq<Byte>) { p == [] || (Started(p) && |p| < Size(p[0])) }

  // ------------------------------------------------------------------ reports are one stream

  lemma {:induction false} ReportsAreConcatenated(p: seq<Byte>, reports: seq<seq<Byte>>)
    requires forall i | 0 <= i < |reports| :: |reports[i]| == REPORT
    ensures Run(FeedReport, p, reports) == Run(FeedByte, p, Concat(Payload, reports))
  {
    if reports != [] {
      var n := |reports| - 1;
      ReportsAreConcatenated(p, reports[..n]);
      RunSplit(FeedByte, p, Concat(Payload, reports[..n]), Payload(reports[n]));
    }
  }

  /** Any sequence of reports is parsed as one pass over their payloads with the filler taken out. */
  lemma ReportsAreOneStream(p: seq<Byte>, reports: seq<seq<Byte>>)
    requires forall i | 0 <= i < |reports| :: |reports[i]| == REPORT
    ensures Run(FeedReport, p, reports) == Run(FeedByte, p, Keep(NotFiller, Concat(Payload, reports)))
  {
    ReportsAreConcatenated(p, reports);
    RunSkips(FeedByte, NotFiller, p, Concat(Payload, reports));
  }

  // ------------------------------------------------------------------ what comes out

  lemma ByteEmits(p: seq<Byte>, b: Byte)
    requires InProgress(p)
    ensures var (p', out) := FeedByte(p, b);
            InProgress(p') && (out == [] || (out == [p + [b]] && p' == [] && Whole(p + [b]))) && |p'| <= |p| + 1
  {
  }

  lemma ByteKeepsWhole(p: seq<Byte>, b: Byte)
    requires InProgress(p)
    ensures var (p', out) := FeedByte(p, b);
            InProgress(p') && AllWhole(out) && |Flatten(out)| + |p'| <= |p| + 1
  {
    ByteEmits(p, b);
    FlattenOne(p + [b]);
  }

  /** The parser emits whole channel messages only, and no more bytes than it was given. */
  lemma {:induction false} EmitsWholeMessages(p: seq<Byte>, bytes: seq<Byte>)
    requires InProgress(p)
    ensures var (p', out) := Run(FeedByte, p, bytes);
            InProgress(p') && AllWhole(out) && |Flatten(out)| + |p'| <= |p| + |bytes|
  {
    if bytes != [] {
      var n := |bytes| - 1;
      EmitsWholeMessages(p, bytes[..n]);
      var (q, out) := Run(FeedByte, p, bytes[..n]);
      ByteKeepsWhole(q, bytes[n]);
      FlattenSplit(out, FeedByte(q, bytes[n]).1);
    }
  }

  /** One report yields at most 43 bytes. */
  lemma ReportFitsOutput(p: seq<Byte>, report: seq<Byte>)
    requires InProgress(p)
    ensures var (p', out) := FeedReport(p, report);
            InProgress(p') && AllWhole(out) && |Flatten(out)| <= 43
  {
    if |report| == REPORT { EmitsWholeMessages(p, Payload(report)); }
  }

  /** A whole message parses to itself. */
  lemma ParseOne(m: seq<Byte>)
    requires Whole(m)
    ensures Run(FeedByte, [], m) == ([], [m])
  {
    var a, b := [m[0]], [m[0]] + [m[1]];
    RunThen(FeedByte, [], [], [], m[0]);
    assert [] + [m[0]] == a;
    RunThen(FeedByte, [], a, a, m[1]);
    if |m| == 3 {
      RunThen(FeedByte, [], b, b, m[2]);
      assert b + [m[2]] == m;
    } else {
      assert b == m;
    }
  }

  /** Parsing undoes writing whole messages one after the other. */
  lemma {:induction false} ParseWhole(messages: seq<seq<Byte>>)
    requires AllWhole(messages)
    ensures Run(FeedByte, [], Flatten(messages)) == ([], messages)
  {
    if messages != [] {
      var n := |messages| - 1;
      ParseWhole(messages[..n]);
      ParseOne(messages[n]);
      RunSplit(FeedByte, [], Flatten(messages[..n]), messages[n]);
      assert messages == messages[..n] + [messages[n]];
    }
  }

  // ------------------------------------------------------------------ when a message comes out

  predicate EndsWith(stream: seq<Byte>, m: seq<Byte>) { |m| <= |stream| && stream[|stream| - |m|..] == m }

  /** A channel message without its last byte or bytes. */
  predicate Unfinished(m: seq<Byte>) { Started(m) && |m| < Size(m[0]) }

  /** p is the unfinished message the stream ends with, or empty if there is none. */
  ghost predicate Pending(stream: seq<Byte>, p: seq<Byte>) {
    && InProgress(p) && EndsWith(stream, p)
    && forall m | Unfinished(m) && EndsWith(stream, m) :: m == p
  }

  lemma EndsWithNext(stream: seq<Byte>, b: Byte, m: seq<Byte>)
    requires m != []
    ensures EndsWith(stream + [b], m) <==> m[|m| - 1] == b && EndsWith(stream, m[..|m| - 1])
  {
    var n := |m| - 1;
    if n <= |stream| {
      assert (stream + [b])[|stream| - n..] == stream[|stream| - n..] + [b];
      assert m == m[..n] + [m[n]];
    }
  }

  /** One byte that is not filler keeps the state the unfinished message the stream ends with. */
  lemma ByteTracksPending(stream: seq<Byte>, p: seq<Byte>, b: Byte)
    requires Pending(stream, p) && b != FILLER
    ensures Pending(stream + [b], FeedByte(p, b).0)
  {
    var p' := FeedByte(p, b).0;
    ByteEmits(p, b);
    if p' != [] {
      EndsWithNext(stream, b, p');
      assert |p'| == 1 || p'[..|p'| - 1] == p;
    }
    forall m | Unfinished(m) && EndsWith(stream + [b], m) ensures m == p' {
      EndsWithNext(stream, b, m);
      var start := m[..|m| - 1];
      if |m| > 1 {
        assert Unfinished(start);
        assert m == start + [b];
      } else {
        assert m == [b];
      }
    }
  }

  /**
   * After any stream the parser holds the unfinished message the stream ends with, and the next byte brings out a message
   * if and only if the stream then ends with that message whole.
   */
  lemma {:induction false} EmitsExactlyWholeMessages(stream: seq<Byte>, b: Byte, m: seq<Byte>)
    requires Clean(stream) && b != FILLER
    ensures Pending(stream, Run(FeedByte, [], stream).0)
    ensures FeedByte(Run(FeedByte, [], stream).0, b).1 == [m] <==> Whole(m) && EndsWith(stream + [b], m)
  {
    var p := Run(FeedByte, [], stream).0;
    if stream != [] {
      var n := |stream| - 1;
      EmitsExactlyWholeMessages(stream[..n], stream[n], m);
      ByteTracksPending(stream[..n], Run(FeedByte, [], stream[..n]).0, stream[n]);
      assert stream == stream[..n] + [stream[n]];
    } else {
      assert forall x: seq<Byte> | Unfinished(x) :: !EndsWith([], x);
    }
    EmitsHere(stream, p, b, m);
  }

  lemma EmitsHere(stream: seq<Byte>, p: seq<Byte>, b: Byte, m: seq<Byte>)
    requires Pending(stream, p) && b != FILLER
    ensures FeedByte(p, b).1 == [m] <==> Whole(m) && EndsWith(stream + [b], m)
  {
    ByteEmits(p, b);
    if m != [] { EndsWithNext(stream, b, m); }
    if FeedByte(p, b).1 == [m] { assert m[..|m| - 1] == p; }
    if Whole(m) && EndsWith(stream + [b], m) {
      var start := m[..|m| - 1];
      assert Unfinished(start);
      assert m == start + [b] && start == p;
    }
  }

  /** A report of any other length than 42 is dropped with the message in progress, and byte 41 is never parsed. */
  lemma OnlyPayloadIsParsed(p: seq<Byte>, report: seq<Byte>)
    ensures |report| != 42 ==> FeedReport(p, report) == ([], [])
    ensures |report| == 42 ==> FeedReport(p, report) == Run(FeedByte, p, report[..41])
  {
  }

  // ------------------------------------------------------------------ the parser object

  class Parser {
    var message: seq<Byte>
    var used: nat
    var expected: nat

    ghost predicate Valid()
      reads this
    {
      && |message| == 3 && used <= 2 && InProgress(message[..used])
      && expected == if used == 0 then 0 else Size(message[0])
    }

    ghost function Abs(): seq<Byte>
      reads this
      requires used <= |message|
    {
      message[..used]
    }

    constructor ()
      ensures Valid() && Abs() == []
    {
      message, used, expected := [0, 0, 0], 0, 0;
    }

    method Feed(byte: Byte) returns (output: seq<Byte>)
      requires Valid()
      modifies this
      ensures Valid() && Abs() == FeedByte(old(Abs()), byte).0
      ensures output == Flatten(FeedByte(old(Abs()), byte).1)
    {
      output := [];
      if byte == FILLER { return; }
      if byte >= 0x80 {
        used, expected := 0, 0;
        if byte <= 0xef {
          message := message[0 := byte];
          used, expected := 1, Size(byte);
        }
        return;
      }
      if expected == 0 || used >= 3 { return; }
      ghost var before := Abs();
      message := message[used := byte];
      used := used + 1;
      assert Abs() == before + [byte];
      if used == expected {
        output := message[..expected];
        FlattenOne(output);
        used, expected := 0, 0;
      }
    }

    /** feedReport. */
    method Parse(report: seq<Byte>) returns (output: seq<Byte>)
      requires Valid()
      modifies this
      ensures Valid() && Abs() == FeedReport(old(Abs()), report).0
      ensures output == Flatten(FeedReport(old(Abs()), report).1) && |output| <= PAYLOAD + 2
    {
      ReportFitsOutput(Abs(), report);
      output := [];
      if |report| != REPORT {
        used, expected := 0, 0;
        return;
      }
      for i := 0 to PAYLOAD
        invariant Valid() && Abs() == Run(FeedByte, old(Abs()), report[..i]).0
        invariant output == Flatten(Run(FeedByte, old(Abs()), report[..i]).1)
      {
        var more := Feed(report[i]);
        FeedNext(old(Abs()), report, i);
        output := output + more;
      }
    }
  }

  lemma FeedNext(p: seq<Byte>, report: seq<Byte>, i: nat)
    requires i < |report|
    ensures var (q, out) := Run(FeedByte, p, report[..i]);
            var (q', more) := FeedByte(q, report[i]);
            var r := Run(FeedByte, p, report[..i + 1]);
            r.0 == q' && Flatten(r.1) == Flatten(out) + Flatten(more)
  {
    var (q, out) := Run(FeedByte, p, report[..i]);
    assert report[..i + 1] == report[..i] + [report[i]];
    RunAppend(FeedByte, p, report[..i], report[i]);
    FlattenSplit(out, FeedByte(q, report[i]).1);
  }
}
