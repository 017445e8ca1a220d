/** MIDIUserSessionBridge's batching of application MIDI into datagrams, and the report built around each. */
module MidiBridge {
  import opened RingIndex
  import opened Samples24
  import opened Runs
  import opened MidiMessages
  import opened MidiInputParser
  import MidiEncoder

  const DATAGRAM: nat := 41
  const SYSEX: Byte := 0xf0

  /** The datagram being filled and those already sent. */
  datatype Batch = Batch(report: seq<Byte>, sent: seq<seq<Byte>>)

  const EMPTY := Batch([], [])

  /** sendToDriver: nothing is sent for an empty report. */
  function Flush(b: Batch): Batch {
    if b.report == [] then b else Batch([], b.sent + [b.report])
  }

  function AddMessage(b: Batch, m: seq<Byte>): Batch {
    var b' := if |b.report| + |m| > DATAGRAM then Flush(b) else b;
    b'.(report := b'.report + m)
  }

  /** Sends bytes in pieces of at most one datagram. */
  function SendPieces(sent: seq<seq<Byte>>, bytes: seq<Byte>): seq<seq<Byte>>
    decreases |bytes|
  {
    if bytes == [] then sent
    else var n := Min(DATAGRAM, |bytes|); SendPieces(sent + [bytes[..n]], bytes[n..])
  }

  /** The length of the channel message that starts at `offset`, or 0 if none fits there. */
  function MessageAt(data: seq<Byte>, offset: nat): (n: nat)
    requires offset < |data|
    ensures offset + n <= |data|
  {
    if IsStatus(data[offset]) && offset + Size(data[offset]) <= |data| then Size(data[offset]) else 0
  }

  /** One packet from `offset` on: messages are batched, system exclusive is sent through, other bytes are skipped. */
  function ReadPacket(b: Batch, data: seq<Byte>, offset: nat): Batch
    requires offset <= |data|
    decreases |data| - offset
  {
    if offset == |data| then b
    else if data[offset] == SYSEX then Batch([], SendPieces(Flush(b).sent, data[offset..]))
    else
      var n := MessageAt(data, offset);
      if n == 0 then ReadPacket(b, data, offset + 1)
      else ReadPacket(AddMessage(b, data[offset..offset + n]), data, offset + n)
  }

  function ReadPackets(packets: seq<seq<Byte>>): Batch {
    if packets == [] then EMPTY
    else ReadPacket(ReadPackets(packets[..|packets| - 1]), packets[|packets| - 1], 0)
  }

  /** receiveFromApplication: the datagrams sent for a packet list. */
  function Datagrams(packets: seq<seq<Byte>>): seq<seq<Byte>> {
    Flush(ReadPackets(packets)).sent
  }

  // ------------------------------------------------------------------ any input

  /** The bytes of a packet that are forwarded. */
  function Forwarded(data: seq<Byte>, offset: nat): seq<Byte>
    requires offset <= |data|
    decreases |data| - offset
  {
    if offset == |data| then []
    else if data[offset] == SYSEX then data[offset..]
    else
      var n := MessageAt(data, offset);
      if n == 0 then Forwarded(data, offset + 1) else data[offset..offset + n] + Forwarded(data, offset + n)
  }

  function ForwardedOf(data: seq<Byte>): seq<Byte> { Forwarded(data, 0) }

  predicate Fits(d: seq<Byte>) { 0 < |d| <= 41 }

  predicate AllFit(sent: seq<seq<Byte>>) { forall i | 0 <= i < |sent| :: Fits(sent[i]) }

  predicate Sized(b: Batch) { |b.report| <= DATAGRAM && AllFit(b.sent) }

  function Contents(b: Batch): seq<Byte> { Flatten(b.sent) + b.report }

  lemma FlushKeepsContents(b: Batch)
    requires Sized(b)
    ensures Sized(Flush(b)) && Flush(b).report == [] && Contents(Flush(b)) == Contents(b)
  {
    FlattenAppend(b.sent, b.report);
  }

  lemma AddMessageAppends(b: Batch, m: seq<Byte>)
    requires Sized(b) && |m| <= 3
    ensures Sized(AddMessage(b, m)) && Contents(AddMessage(b, m)) == Contents(b) + m
  {
    FlushKeepsContents(b);
    var b' := if |b.report| + |m| > DATAGRAM then Flush(b) else b;
    assert Flatten(b'.sent) + (b'.report + m) == Contents(b') + m;
  }

  lemma {:induction false} PiecesKeepBytes(sent: seq<seq<Byte>>, bytes: seq<Byte>)
    requires AllFit(sent)
    ensures AllFit(SendPieces(sent, bytes)) && Flatten(SendPieces(sent, bytes)) == Flatten(sent) + bytes
    decreases |bytes|
  {
    if bytes != [] {
      var n := Min(DATAGRAM, |bytes|);
      FlattenAppend(sent, bytes[..n]);
      PiecesKeepBytes(sent + [bytes[..n]], bytes[n..]);
      assert Flatten(sent) + bytes[..n] + bytes[n..] == Flatten(sent) + bytes;
    }
  }

  lemma SysexAppends(b: Batch, rest: seq<Byte>)
    requires Sized(b)
    ensures var b' := Batch([], SendPieces(Flush(b).sent, rest));
            Sized(b') && Contents(b') == Contents(b) + rest
  {
    FlushKeepsContents(b);
    PiecesKeepBytes(Flush(b).sent, rest);
    assert Contents(Flush(b)) == Flatten(Flush(b).sent);
  }

  lemma {:induction false} PacketAppendsForwarded(b: Batch, data: seq<Byte>, offset: nat)
    requires Sized(b) && offset <= |data|
    ensures var b' := ReadPacket(b, data, offset);
            Sized(b') && Contents(b') == Contents(b) + Forwarded(data, offset)
    decreases |data| - offset
  {
    if offset < |data| {
      if data[offset] == SYSEX {
        SysexAppends(b, data[offset..]);
      } else {
        var n := MessageAt(data, offset);
        if n == 0 {
          PacketAppendsForwarded(b, data, offset + 1);
        } else {
          var m := data[offset..offset + n];
          AddMessageAppends(b, m);
          PacketAppendsForwarded(AddMessage(b, m), data, offset + n);
          assert Contents(b) + m + Forwarded(data, offset + n) == Contents(b) + (m + Forwarded(data, offset + n));
        }
      }
    }
  }

  lemma {:induction false} PacketsAppendForwarded(packets: seq<seq<Byte>>)
    ensures var b := ReadPackets(packets);
            Sized(b) && Contents(b) == Concat(ForwardedOf, packets)
  {
    if packets != [] {
      var n := |packets| - 1;
      PacketsAppendForwarded(packets[..n]);
      PacketAppendsForwarded(ReadPackets(packets[..n]), packets[n], 0);
    }
  }

  /** For any packets: datagrams have 1 to 41 bytes and, joined, are exactly the forwarded bytes in order. */
  lemma DatagramsCarryForwardedBytes(packets: seq<seq<Byte>>)
    ensures AllFit(Datagrams(packets)) && Flatten(Datagrams(packets)) == Concat(ForwardedOf, packets)
    ensures forall i | 0 <= i < |Datagrams(packets)| :: 1 <= |Datagrams(packets)[i]| <= 41
  {
    PacketsAppendForwarded(packets);
    FlushKeepsContents(ReadPackets(packets));
  }

  // ------------------------------------------------------------------ whole messages

  /** The bytes are whole channel messages one after the other. */
  ghost predicate Framed(bytes: seq<Byte>) {
    exists messages: seq<seq<Byte>> :: AllWhole(messages) && Flatten(messages) == bytes
  }

  ghost predicate AllFramed(blocks: seq<seq<Byte>>) { forall i | 0 <= i < |blocks| :: Framed(blocks[i]) }

  ghost predicate FramedBatch(b: Batch) { Framed(b.report) && AllFramed(b.sent) }

  lemma FramedEmpty()
    ensures Framed([])
  {
    var none: seq<seq<Byte>> := [];
    assert AllWhole(none) && Flatten(none) == [];
  }

  lemma FramedAppend(bytes: seq<Byte>, m: seq<Byte>)
    requires Framed(bytes) && Whole(m)
    ensures Framed(bytes + m)
  {
    var messages: seq<seq<Byte>> :| AllWhole(messages) && Flatten(messages) == bytes;
    FlattenAppend(messages, m);
    assert AllWhole(messages + [m]);
  }

  lemma FramedConcat(a: seq<Byte>, b: seq<Byte>)
    requires Framed(a) && Framed(b)
    ensures Framed(a + b)
  {
    var x: seq<seq<Byte>> :| AllWhole(x) && Flatten(x) == a;
    var y: seq<seq<Byte>> :| AllWhole(y) && Flatten(y) == b;
    FlattenSplit(x, y);
    assert AllWhole(x + y);
  }

  lemma AddMessageKeepsFramed(b: Batch, m: seq<Byte>)
    requires FramedBatch(b) && Whole(m)
    ensures FramedBatch(AddMessage(b, m))
  {
    FramedEmpty();
    FramedAppend(b.report, m);
    FramedAppend([], m);
  }

  /** A packet of whole messages is forwarded whole, and no datagram boundary falls inside a message. */
  lemma {:induction false} WholePacket(b: Batch, data: seq<Byte>, offset: nat, messages: seq<seq<Byte>>)
    requires FramedBatch(b) && offset <= |data| && AllWhole(messages) && data[offset..] == Flatten(messages)
    ensures FramedBatch(ReadPacket(b, data, offset)) && Forwarded(data, offset) == data[offset..]
    decreases |messages|
  {
    if messages != [] {
      var m, rest := messages[0], messages[1..];
      assert messages == [m] + rest;
      FlattenCons(m, rest);
      FirstMessage(data, offset, m, Flatten(rest));
      AddMessageKeepsFramed(b, m);
      WholePacket(AddMessage(b, m), data, offset + |m|, rest);
      assert data[offset..] == m + data[offset + |m|..];
    }
  }

  lemma FirstMessage(data: seq<Byte>, offset: nat, m: seq<Byte>, rest: seq<Byte>)
    requires offset <= |data| && Whole(m) && data[offset..] == m + rest
    ensures offset + |m| <= |data| && data[offset..offset + |m|] == m && data[offset + |m|..] == rest
    ensures data[offset] == m[0] && MessageAt(data, offset) == |m|
  {
    assert data[offset..][0] == m[0];
    assert data[offset..][..|m|] == m;
    assert data[offset..][|m|..] == rest;
  }

  lemma {:induction false} WholePackets(packets: seq<seq<Byte>>)
    requires AllFramed(packets)
    ensures FramedBatch(ReadPackets(packets)) && Concat(ForwardedOf, packets) == Flatten(packets) && Framed(Flatten(packets))
  {
    FramedEmpty();
    if packets != [] {
      var n := |packets| - 1;
      WholePackets(packets[..n]);
      var data := packets[n];
      assert Framed(data);
      var messages: seq<seq<Byte>> :| AllWhole(messages) && Flatten(messages) == data;
      assert data[0..] == data;
      WholePacket(ReadPackets(packets[..n]), data, 0, messages);
      FramedConcat(Flatten(packets[..n]), data);
    }
  }

  /** Whole messages in: datagrams of at most 41 bytes, each of whole messages, that join to the input. */
  lemma WholeMessagesAreBatchedWhole(packets: seq<seq<Byte>>)
    requires AllFramed(packets)
    ensures AllFit(Datagrams(packets)) && AllFramed(Datagrams(packets)) && Flatten(Datagrams(packets)) == Flatten(packets)
  {
    WholePackets(packets);
    DatagramsCarryForwardedBytes(packets);
  }

  // ------------------------------------------------------------------ how full datagrams are

  /** A datagram is closed only when the next message does not fit, and something waits once anything was sent. */
  predicate Packed(b: Batch) {
    && (forall i | 0 <= i < |b.sent| :: b.sent[i] != []) && (b.sent != [] ==> b.report != [])
    && (forall i | 0 <= i < |b.sent| - 1 :: |b.sent[i]| + Size(b.sent[i + 1][0]) > 41)
    && (b.sent != [] ==> |b.sent[|b.sent| - 1]| + Size(b.report[0]) > 41)
  }

  lemma AddMessageKeepsPacked(b: Batch, m: seq<Byte>)
    requires Packed(b) && Whole(m)
    ensures Packed(AddMessage(b, m)) && AddMessage(b, m).report != []
  {
  }

  lemma {:induction false} WholePacketKeepsPacked(b: Batch, data: seq<Byte>, offset: nat, messages: seq<seq<Byte>>)
    requires Packed(b) && offset <= |data| && AllWhole(messages) && data[offset..] == Flatten(messages)
    ensures Packed(ReadPacket(b, data, offset))
    decreases |messages|
  {
    if messages != [] {
      var m, rest := messages[0], messages[1..];
      assert messages == [m] + rest;
      FlattenCons(m, rest);
      FirstMessage(data, offset, m, Flatten(rest));
      AddMessageKeepsPacked(b, m);
      WholePacketKeepsPacked(AddMessage(b, m), data, offset + |m|, rest);
    }
  }

  lemma {:induction false} WholePacketsKeepPacked(packets: seq<seq<Byte>>)
    requires AllFramed(packets)
    ensures Packed(ReadPackets(packets))
  {
    if packets != [] {
      var n := |packets| - 1;
      WholePacketsKeepPacked(packets[..n]);
      assert Framed(packets[n]);
      var messages: seq<seq<Byte>> :| AllWhole(messages) && Flatten(messages) == packets[n];
      assert packets[n][0..] == packets[n];
      WholePacketKeepsPacked(ReadPackets(packets[..n]), packets[n], 0, messages);
    }
  }

  /** Whole messages are batched as full as they go: the first message of a datagram would not have fitted into the one before. */
  lemma DatagramsAreFull(packets: seq<seq<Byte>>, i: nat)
    requires AllFramed(packets) && i + 1 < |Datagrams(packets)|
    ensures Datagrams(packets)[i + 1] != [] && |Datagrams(packets)[i]| + Size(Datagrams(packets)[i + 1][0]) > 41
  {
    WholePacketsKeepPacked(packets);
  }

  lemma {:induction false} PiecesAreFull(sent: seq<seq<Byte>>, bytes: seq<Byte>, i: nat)
    requires |sent| <= i < |SendPieces(sent, bytes)| - 1
    ensures |SendPieces(sent, bytes)[i]| == 41
    decreases |bytes|
  {
    if bytes != [] {
      var n := Min(DATAGRAM, |bytes|);
      SentComesFirst(sent + [bytes[..n]], bytes[n..]);
      if i > |sent| { PiecesAreFull(sent + [bytes[..n]], bytes[n..], i); }
    }
  }

  lemma {:induction false} SentComesFirst(sent: seq<seq<Byte>>, bytes: seq<Byte>)
    ensures sent <= SendPieces(sent, bytes)
    ensures |SendPieces(sent, bytes)| > |sent| <==> bytes != []
    decreases |bytes|
  {
    if bytes != [] {
      var n := Min(DATAGRAM, |bytes|);
      SentComesFirst(sent + [bytes[..n]], bytes[n..]);
    }
  }

  /** A system exclusive message goes through whole, in pieces of 41 bytes and a rest. */
  lemma SystemExclusiveGoesThrough(data: seq<Byte>, i: nat)
    requires data != [] && data[0] == 0xf0
    ensures Flatten(Datagrams([data])) == data
    ensures i + 1 < |Datagrams([data])| ==> |Datagrams([data])[i]| == 41
  {
    assert [data][..0] == [] && ReadPackets([data]) == ReadPacket(EMPTY, data, 0) && data[0..] == data;
    assert Datagrams([data]) == SendPieces([], data);
    PiecesKeepBytes([], data);
    assert [] + data == data;
    if i + 1 < |Datagrams([data])| { PiecesAreFull([], data, i); }
  }

  /** Data without a status and system bytes other than 0xf0 are not forwarded. */
  lemma {:induction false} StrayBytesAreDropped(data: seq<Byte>, offset: nat)
    requires offset <= |data| && forall i | offset <= i < |data| :: data[i] < 0x80 || data[i] > 0xf0
    ensures Forwarded(data, offset) == []
    decreases |data| - offset
  {
    if offset < |data| { StrayBytesAreDropped(data, offset + 1); }
  }

  // ------------------------------------------------------------------ the round trip

  /** buildPacket: the message, filler up to byte 40, and a zero. */
  function ReportOf(d: seq<Byte>): (r: seq<Byte>)
    requires Fits(d)
    ensures |r| == 42 && r[..|d|] == d && (forall i | |d| <= i < 41 :: r[i] == 0xfd) && r[41] == 0
  {
    d + seq(PAYLOAD - |d|, _ => FILLER) + [0]
  }

  function Reports(sent: seq<seq<Byte>>): (r: seq<seq<Byte>>)
    requires AllFit(sent)
    ensures |r| == |sent|
  {
    seq(|sent|, i requires 0 <= i < |sent| => ReportOf(sent[i]))
  }

  lemma {:induction false} WholeMessagesAreClean(messages: seq<seq<Byte>>)
    requires AllWhole(messages)
    ensures Clean(Flatten(messages))
  {
    if messages != [] {
      var n := |messages| - 1;
      WholeMessagesAreClean(messages[..n]);
      assert Whole(messages[n]);
    }
  }

  lemma FramedIsClean(d: seq<Byte>)
    requires Framed(d)
    ensures Clean(d)
  {
    var messages: seq<seq<Byte>> :| AllWhole(messages) && Flatten(messages) == d;
    WholeMessagesAreClean(messages);
  }

  lemma KeepDropsFilling(d: seq<Byte>, filling: seq<Byte>)
    requires Clean(d) && forall i | 0 <= i < |filling| :: filling[i] == FILLER
    ensures Keep(NotFiller, d + filling) == d
  {
    KeepSplit(NotFiller, d, filling);
    KeepAll(NotFiller, d);
    KeepNone(NotFiller, filling);
    assert d + [] == d;
  }

  lemma PayloadIsDatagram(d: seq<Byte>)
    requires Fits(d) && Framed(d)
    ensures Keep(NotFiller, Payload(ReportOf(d))) == d
  {
    FramedIsClean(d);
    var filling := Payload(ReportOf(d))[|d|..];
    assert Payload(ReportOf(d)) == d + filling;
    KeepDropsFilling(d, filling);
  }

  lemma {:induction false} PayloadsAreDatagrams(sent: seq<seq<Byte>>)
    requires AllFit(sent) && AllFramed(sent)
    ensures Keep(NotFiller, Concat(Payload, Reports(sent))) == Flatten(sent)
  {
    if sent != [] {
      var n := |sent| - 1;
      PayloadsAreDatagrams(sent[..n]);
      assert Reports(sent) == Reports(sent[..n]) + [ReportOf(sent[n])];
      ConcatAppend(Payload, Reports(sent[..n]), ReportOf(sent[n]));
      KeepSplit(NotFiller, Concat(Payload, Reports(sent[..n])), Payload(ReportOf(sent[n])));
      PayloadIsDatagram(sent[n]);
    }
  }

  /**
   * The round trip: any packets of whole channel messages, batched into datagrams, wrapped into reports and fed to
   * a fresh parser, come out as the same messages, and the encoder turns them into one word each.
   */
  lemma RoundTrip(packets: seq<seq<Byte>>, messages: seq<seq<Byte>>, capacity: nat)
    requires AllFramed(packets) && AllWhole(messages) && Flatten(messages) == Flatten(packets) && |messages| <= capacity
    ensures AllFit(Datagrams(packets))
    ensures Run(FeedReport, [], Reports(Datagrams(packets))) == ([], messages)
    ensures MidiEncoder.Encode(Flatten(messages), capacity) == MidiEncoder.Encoded(MidiEncoder.Words(messages))
  {
    WholeMessagesAreBatchedWhole(packets);
    var sent := Datagrams(packets);
    ReportsAreOneStream([], Reports(sent));
    PayloadsAreDatagrams(sent);
    ParseWhole(messages);
    MidiEncoder.WholeMessagesEncode(messages, capacity);
  }

  /** Whatever reports arrive, the parser's output is always accepted by the encoder, one word per message. */
  lemma ParserOutputAlwaysEncodes(reports: seq<seq<Byte>>, capacity: nat)
    requires forall i | 0 <= i < |reports| :: |reports[i]| == REPORT
    ensures var out := Run(FeedReport, [], reports).1;
            AllWhole(out) && (|out| <= capacity ==>
              MidiEncoder.Encode(Flatten(out), capacity) == MidiEncoder.Encoded(MidiEncoder.Words(out)))
  {
    ReportsAreConcatenated([], reports);
    EmitsWholeMessages([], Concat(Payload, reports));
    MidiEncoder.WholeMessagesEncode(Run(FeedReport, [], reports).1, capacity);
  }

  // ------------------------------------------------------------------ the code

  method ForwardSysex(sent: seq<seq<Byte>>, bytes: seq<Byte>) returns (out: seq<seq<Byte>>)
    ensures out == SendPieces(sent, bytes)
  {
    out := sent;
    var part := 0;
    assert bytes[0..] == bytes;
    while part < |bytes|
      invariant part <= |bytes| && SendPieces(out, bytes[part..]) == SendPieces(sent, bytes)
    {
      var count := Min(DATAGRAM, |bytes| - part);
      assert bytes[part..][..count] == bytes[part..part + count] && bytes[part..][count..] == bytes[part + count..];
      out := out + [bytes[part..part + count]];
      part := part + count;
    }
  }

  method ReceivePacket(before: Batch, data: seq<Byte>) returns (b: Batch)
    ensures b == ReadPacket(before, data, 0)
  {
    b := before;
    var offset := 0;
    while offset < |data|
      invariant offset <= |data| && ReadPacket(b, data, offset) == ReadPacket(before, data, 0)
      decreases |data| - offset
    {
      if data[offset] == SYSEX {
        var out := ForwardSysex(Flush(b).sent, data[offset..]);
        return Batch([], out);
      }
      var n := MessageAt(data, offset);
      if n == 0 {
        offset := offset + 1;
      } else {
        b := AddMessage(b, data[offset..offset + n]);
        offset := offset + n;
      }
    }
  }

  method ReceiveFromApplication(packets: seq<seq<Byte>>) returns (sent: seq<seq<Byte>>)
    ensures sent == Datagrams(packets)
  {
    var b := EMPTY;
    for i := 0 to |packets|
      invariant b == ReadPackets(packets[..i])
    {
      b := ReceivePacket(b, packets[i]);
      assert packets[..i + 1][..i] == packets[..i];
    }
    assert packets[..|packets|] == packets;
    sent := Flush(b).sent;
  }

  /** buildPacket. */
  method BuildPacket(message: seq<Byte>, packet: array<Byte>) returns (ok: bool)
    requires packet.Length == REPORT
    modifies packet
    ensures ok == (1 <= |message| <= 41)
    ensures packet[..] == if ok then ReportOf(message) else old(packet[..])
  {
    if |message| == 0 || |message| >= REPORT { return false; }
    for i := 0 to REPORT
      invariant forall j | 0 <= j < i :: packet[j] == FILLER
    {
      packet[i] := FILLER;
    }
    for i := 0 to |message|
      invariant forall j | 0 <= j < i :: packet[j] == message[j]
      invariant forall j | i <= j < REPORT :: packet[j] == FILLER
    {
      packet[i] := message[i];
    }
    packet[REPORT - 1] := 0;
    ok := true;
  }
}
