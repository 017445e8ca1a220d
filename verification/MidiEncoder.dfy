/** MIDIInputEventEncoder: channel messages as Universal MIDI Packet words of message type 2. */
module MidiEncoder {
  import opened Samples24
  import opened Runs
  import opened MidiMessages

  type Word = x: int | 0 <= x < 0x1_0000_0000

  /** Message type 2 in the top nibble, group 0, then status and data bytes. */
  function Pack(status: Byte, data1: Byte, data2: Byte): (w: Word)
    requires IsStatus(status) && IsData(data1) && IsData(data2)
  {
    0x2000_0000 + status * 0x1_0000 + data1 * 0x100 + data2
  }

  function WordOf(m: seq<Byte>): Word
    requires Whole(m)
  {
    Pack(m[0], m[1], if |m| == 3 then m[2] else 0)
  }

  function Unpack(w: Word): (m: seq<Byte>) {
    var status: Byte, data1: Byte, data2: Byte := w / 0x1_0000 % 0x100, w / 0x100 % 0x100, w % 0x100;
    if Size(status) == 2 then [status, data1] else [status, data1, data2]
  }

  /** A word is a type-2 packet of group 0 and decodes to the message it came from. */
  lemma UnpackOfWord(m: seq<Byte>)
    requires Whole(m)
    ensures Unpack(WordOf(m)) == m && WordOf(m) / 0x1000_0000 == 2 && WordOf(m) / 0x100_0000 % 0x10 == 0
    ensures WordOf(m) / 0x1_0000 % 0x100 == m[0] && WordOf(m) / 0x100 % 0x100 == m[1]
    ensures WordOf(m) % 0x100 == if |m| == 3 then m[2] else 0
  {
    var status: int, data1: int, data2: int := m[0], m[1], if |m| == 3 then m[2] else 0;
    WordParts(status, data1, data2);
  }

  lemma WordParts(status: int, data1: int, data2: int)
    requires 0x80 <= status <= 0xef && 0 <= data1 < 0x80 && 0 <= data2 < 0x80
    ensures var w := 0x2000_0000 + status * 0x1_0000 + data1 * 0x100 + data2;
            && w / 0x1_0000 % 0x100 == status && w / 0x100 % 0x100 == data1 && w % 0x100 == data2
            && w / 0x1000_0000 == 2 && w / 0x100_0000 % 0x10 == 0
  {
    var w := 0x2000_0000 + status * 0x1_0000 + data1 * 0x100 + data2;
    assert w / 0x100 == 0x20_0000 + status * 0x100 + data1;
    assert w / 0x1_0000 == 0x2000 + status;
    assert w / 0x100_0000 == 0x20;
  }

  function Words(messages: seq<seq<Byte>>): seq<Word>
    requires AllWhole(messages)
  {
    seq<Word>(|messages|, i requires 0 <= i < |messages| => WordOf(messages[i]))
  }

  datatype Encoded = Refused | Encoded(words: seq<Word>)

  /** The message at the front of the bytes is whole. */
  predicate Leads(bytes: seq<Byte>) {
    bytes != [] && IsStatus(bytes[0]) && Size(bytes[0]) <= |bytes| && Whole(bytes[..Size(bytes[0])])
  }

  /** encode: all the words, or none when a byte is out of place or the words do not fit. */
  function Encode(bytes: seq<Byte>, capacity: nat): Encoded
    decreases |bytes|
  {
    if bytes == [] then Encoded([])
    else if !Leads(bytes) || capacity == 0 then Refused
    else
      match Encode(bytes[Size(bytes[0])..], capacity - 1)
      case Refused => Refused
      case Encoded(words) => Encoded([WordOf(bytes[..Size(bytes[0])])] + words)
  }

  /** Whole messages that fit are accepted, one word each, in order. */
  lemma {:induction false} WholeMessagesEncode(messages: seq<seq<Byte>>, capacity: nat)
    requires AllWhole(messages)
    ensures Encode(Flatten(messages), capacity) == if |messages| <= capacity then Encoded(Words(messages)) else Refused
    decreases |messages|
  {
    if messages != [] {
      var m, rest := messages[0], messages[1..];
      assert messages == [m] + rest;
      FlattenCons(m, rest);
      var bytes := Flatten(messages);
      assert bytes[..|m|] == m && bytes[|m|..] == Flatten(rest);
      if capacity > 0 {
        WholeMessagesEncode(rest, capacity - 1);
        assert |messages| <= capacity ==> Words(messages) == [WordOf(m)] + Words(rest);
      }
    }
  }

  /** Whatever is accepted is a sequence of whole messages. */
  lemma {:induction false} AcceptedBytesAreWholeMessages(bytes: seq<Byte>, capacity: nat) returns (messages: seq<seq<Byte>>)
    requires Encode(bytes, capacity).Encoded?
    ensures AllWhole(messages) && Flatten(messages) == bytes && |messages| <= capacity
    ensures Encode(bytes, capacity).words == Words(messages)
    decreases |bytes|
  {
    if bytes == [] {
      messages := [];
    } else {
      var m := bytes[..Size(bytes[0])];
      var rest := AcceptedBytesAreWholeMessages(bytes[|m|..], capacity - 1);
      messages := [m] + rest;
      FlattenCons(m, rest);
      assert Words(messages) == [WordOf(m)] + Words(rest);
    }
  }

  /** The encoder accepts exactly the byte strings made of at most `capacity` whole channel messages. */
  lemma EncodesIffWholeMessages(bytes: seq<Byte>, capacity: nat)
    ensures Encode(bytes, capacity).Encoded?
            <==> exists messages: seq<seq<Byte>> :: AllWhole(messages) && Flatten(messages) == bytes && |messages| <= capacity
  {
    if Encode(bytes, capacity).Encoded? {
      var messages := AcceptedBytesAreWholeMessages(bytes, capacity);
    }
    forall messages: seq<seq<Byte>> | AllWhole(messages) && Flatten(messages) == bytes && |messages| <= capacity
      ensures Encode(bytes, capacity).Encoded?
    {
      WholeMessagesEncode(messages, capacity);
    }
  }

  /** The writing loop: `count` words are out and the rest of the bytes starts at `consumed`. */
  ghost predicate SoFar(bytes: seq<Byte>, capacity: nat, words: seq<Word>, consumed: nat) {
    && consumed <= |bytes| && |words| <= capacity
    && Encode(bytes, capacity)
       == match Encode(bytes[consumed..], capacity - |words|)
          case Refused => Refused
          case Encoded(more) => Encoded(words + more)
  }

  lemma OneMore(bytes: seq<Byte>, capacity: nat, words: seq<Word>, consumed: nat)
    requires SoFar(bytes, capacity, words, consumed) && Leads(bytes[consumed..]) && |words| < capacity
    ensures var size := Size(bytes[consumed]);
            SoFar(bytes, capacity, words + [WordOf(bytes[consumed..][..size])], consumed + size)
  {
    var size := Size(bytes[consumed]);
    var word := WordOf(bytes[consumed..][..size]);
    assert bytes[consumed..][size..] == bytes[consumed + size..];
    match Encode(bytes[consumed + size..], capacity - |words| - 1)
    case Refused =>
    case Encoded(more) => assert words + ([word] + more) == words + [word] + more;
  }

  lemma Blocked(bytes: seq<Byte>, capacity: nat, words: seq<Word>, consumed: nat)
    requires SoFar(bytes, capacity, words, consumed) && consumed < |bytes|
    requires !Leads(bytes[consumed..]) || |words| == capacity
    ensures Encode(bytes, capacity) == Refused
  {
  }

  /** Writes the words into `words` and returns how many; 0 when the bytes are refused. */
  method EncodeInto(bytes: seq<Byte>, words: array<Word>) returns (count: nat)
    modifies words
    ensures count <= words.Length
    ensures match Encode(bytes, words.Length)
            case Refused => count == 0
            case Encoded(ws) => words[..count] == ws
  {
    var consumed := 0;
    count := 0;
    assert bytes[0..] == bytes;
    while consumed < |bytes|
      invariant count <= words.Length && SoFar(bytes, words.Length, words[..count], consumed)
      decreases |bytes| - consumed
    {
      var status := bytes[consumed];
      if !IsStatus(status) || |bytes| - consumed < Size(status) || count == words.Length {
        Blocked(bytes, words.Length, words[..count], consumed);
        return 0;
      }
      var size := Size(status);
      var data1 := bytes[consumed + 1];
      var data2 := if size == 3 then bytes[consumed + 2] else 0;
      if !IsData(data1) || !IsData(data2) {
        Blocked(bytes, words.Length, words[..count], consumed);
        return 0;
      }
      OneMore(bytes, words.Length, words[..count], consumed);
      words[count] := Pack(status, data1, data2);
      assert words[..count + 1] == words[..count] + [words[count]];
      count, consumed := count + 1, consumed + size;
    }
    assert words[..count] + [] == words[..count];
  }
}
