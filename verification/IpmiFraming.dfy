/** The serial framing between the emulator and its external management controller: markers, escapes, checksum. */
module IpmiFraming {
  import opened Bytes

  const MSG: Byte := 0xA0
  const CMD: Byte := 0xA1
  const ESCAPE: Byte := 0xAA

  predicate IsMarker(b: Byte) {
    b == MSG || b == CMD || b == ESCAPE
  }

  /** Bit 4 set, and cleared. */
  function WithBit4(b: Byte): Byte {
    if (b as int / 16) % 2 == 1 then b else b + 16
  }

  function WithoutBit4(b: Byte): Byte {
    if (b as int / 16) % 2 == 1 then b - 16 else b
  }

  function EscapedByte(b: Byte): seq<Byte> {
    if IsMarker(b) then [ESCAPE, WithBit4(b)] else [b]
  }

  function Escaped(data: seq<Byte>): seq<Byte> {
    if data == [] then [] else Escaped(data[..|data| - 1]) + EscapedByte(data[|data| - 1])
  }

  method EscapeData(data: seq<Byte>) returns (r: seq<Byte>)
    ensures r == Escaped(data)
  {
    r := [];
    for i := 0 to |data|
      invariant r == Escaped(data[..i])
    {
      assert data[..i + 1][..i] == data[..i];
      if data[i] == MSG || data[i] == CMD || data[i] == ESCAPE {
        r := r + [ESCAPE, WithBit4(data[i])];
      } else {
        r := r + [data[i]];
      }
    }
    assert data[..|data|] == data;
  }

  function Sum(data: seq<Byte>): nat {
    if data == [] then 0 else Sum(data[..|data| - 1]) + data[|data| - 1] as int
  }

  function Checksum(data: seq<Byte>): Byte {
    (-(Sum(data) as int)) % 256
  }

  /** The checksum is the one byte that brings the sum to zero modulo 256. */
  lemma {:induction false} ChecksumIsTheOne(data: seq<Byte>, c: Byte)
    ensures Sum(data + [c]) % 256 == 0 <==> c == Checksum(data)
  {
  }

  /** What arrives whole: a message or a hardware command. */
  datatype Item = Message(body: seq<Byte>) | Command(body: seq<Byte>)

  function FrameOf(item: Item): seq<Byte> {
    Escaped(item.body) + [if item.Message? then MSG else CMD]
  }

  function FrameMessage(message: seq<Byte>): seq<Byte> {
    FrameOf(Message(message + [Checksum(message)]))
  }

  // ----- the parser -----

  /** What the parser holds, and what it has given out. */
  datatype State = State(buf: seq<Byte>, escaped: bool, out: seq<Item>)

  function Step(s: State, b: Byte): State {
    if b == MSG then s.(buf := [], out := s.out + [Message(s.buf)])
    else if b == CMD then s.(buf := [], out := s.out + [Command(s.buf)])
    else if b == ESCAPE then s.(escaped := true)
    else s.(buf := s.buf + [if s.escaped then WithoutBit4(b) else b], escaped := false)
  }

  function Feed(s: State, data: seq<Byte>): State {
    if data == [] then s else Step(Feed(s, data[..|data| - 1]), data[|data| - 1])
  }

  class Parser {
    var buf: seq<Byte>
    var escaped: bool

    constructor ()
      ensures buf == [] && !escaped
    {
      buf, escaped := [], false;
    }

    method FeedBytes(data: seq<Byte>) returns (out: seq<Item>)
      modifies this
      ensures State(buf, escaped, out) == Feed(State(old(buf), old(escaped), []), data)
    {
      out := [];
      for i := 0 to |data|
        invariant State(buf, escaped, out) == Feed(State(old(buf), old(escaped), []), data[..i])
      {
        assert data[..i + 1][..i] == data[..i];
        var byte := data[i];
        if byte == MSG {
          out := out + [Message(buf)];
          buf := [];
        } else if byte == CMD {
          out := out + [Command(buf)];
          buf := [];
        } else if byte == ESCAPE {
          escaped := true;
        } else {
          if escaped {
            byte := WithoutBit4(byte);
            escaped := false;
          }
          buf := buf + [byte];
        }
      }
      assert data[..|data|] == data;
    }

    /** One call for each chunk gives what one call for all of them gives. */
    method FeedChunks(chunks: seq<seq<Byte>>) returns (out: seq<Item>)
      modifies this
      ensures State(buf, escaped, out) == Feed(State(old(buf), old(escaped), []), Join(chunks))
    {
      hide Feed, Step;
      out := [];
      FeedNothing(State(buf, escaped, []));
      for i := 0 to |chunks|
        invariant State(buf, escaped, out) == Feed(State(old(buf), old(escaped), []), Join(chunks[..i]))
      {
        assert chunks[..i + 1] == chunks[..i] + [chunks[i]];
        JoinSnoc(chunks[..i], chunks[i]);
        FeedJoin(State(old(buf), old(escaped), []), Join(chunks[..i]), chunks[i]);
        OutPrefix(State(buf, escaped, []), out, chunks[i]);
        assert out + [] == out;
        var more := FeedBytes(chunks[i]);
        out := out + more;
      }
      assert chunks[..|chunks|] == chunks;
    }
  }

  lemma {:induction false} FeedNothing(s: State)
    ensures Feed(s, []) == s
  {
  }

  lemma {:induction false} FeedJoin(s: State, a: seq<Byte>, b: seq<Byte>)
    ensures Feed(s, a + b) == Feed(Feed(s, a), b)
    decreases |b|
  {
    hide Step;
    if b == [] {
      assert a + b == a;
    } else {
      var k := |b| - 1;
      assert (a + b)[..|a| + k] == a + b[..k];
      FeedJoin(s, a, b[..k]);
    }
  }

  /** What was given out before changes nothing. */
  lemma {:induction false} OutPrefix(s: State, before: seq<Item>, data: seq<Byte>)
    ensures Feed(s.(out := before + s.out), data) == Feed(s, data).(out := before + Feed(s, data).out)
    decreases |data|
  {
    if data != [] {
      var k := |data| - 1;
      OutPrefix(s, before, data[..k]);
      var t := Feed(s, data[..k]);
      assert before + (t.out + [Message(t.buf)]) == (before + t.out) + [Message(t.buf)];
      assert before + (t.out + [Command(t.buf)]) == (before + t.out) + [Command(t.buf)];
    }
  }

  // ----- what was framed is read -----

  /** An escaped byte is none of the markers, and clearing its bit gives the byte back. */
  lemma {:induction false} EscapedByteRead(s: State, b: Byte)
    requires !s.escaped
    ensures Feed(s, EscapedByte(b)) == s.(buf := s.buf + [b])
  {
    if IsMarker(b) {
      var w := WithBit4(b);
      assert !IsMarker(w) && WithoutBit4(w) == b;
      var t := s.(escaped := true);
      assert [ESCAPE, w][..1] == [ESCAPE] && [ESCAPE][..0] == [];
      assert Feed(s, [ESCAPE]) == t;
    } else {
      assert [b][..0] == [];
    }
  }

  lemma {:induction false} EscapedRead(s: State, data: seq<Byte>)
    requires !s.escaped
    ensures Feed(s, Escaped(data)) == s.(buf := s.buf + data)
    decreases |data|
  {
    hide EscapedByte, Step;
    if data == [] {
      assert s.buf + [] == s.buf;
    } else {
      var k := |data| - 1;
      EscapedRead(s, data[..k]);
      FeedJoin(s, Escaped(data[..k]), EscapedByte(data[k]));
      EscapedByteRead(Feed(s, Escaped(data[..k])), data[k]);
      assert (s.buf + data[..k]) + [data[k]] == s.buf + data;
    }
  }

  function Frames(items: seq<Item>): seq<Byte> {
    if items == [] then [] else Frames(items[..|items| - 1]) + FrameOf(items[|items| - 1])
  }

  lemma {:induction false} FrameRead(s: State, item: Item)
    requires !s.escaped && s.buf == []
    ensures Feed(s, FrameOf(item)) == s.(out := s.out + [item])
  {
    hide Escaped;
    EscapedRead(s, item.body);
    assert [] + item.body == item.body;
    var mark := if item.Message? then MSG else CMD;
    assert FrameOf(item)[..|Escaped(item.body)|] == Escaped(item.body);
  }

  /** Any messages and commands, framed one after the other, are read back in order with nothing left over. */
  lemma {:induction false} ItemsRead(items: seq<Item>)
    ensures Feed(State([], false, []), Frames(items)) == State([], false, items)
    decreases |items|
  {
    hide Step, FrameOf;
    if items != [] {
      var k := |items| - 1;
      ItemsRead(items[..k]);
      FeedJoin(State([], false, []), Frames(items[..k]), FrameOf(items[k]));
      FrameRead(State([], false, items[..k]), items[k]);
      assert items[..k] + [items[k]] == items;
    }
  }

  function FramedMessages(messages: seq<seq<Byte>>): seq<Byte> {
    if messages == [] then []
    else FramedMessages(messages[..|messages| - 1]) + FrameMessage(messages[|messages| - 1])
  }

  function Summed(messages: seq<seq<Byte>>): (r: seq<Item>)
    ensures |r| == |messages|
    ensures forall i | 0 <= i < |r| :: r[i] == Message(messages[i] + [Checksum(messages[i])])
  {
    seq(|messages|, i requires 0 <= i < |messages| => Message(messages[i] + [Checksum(messages[i])]))
  }

  lemma {:induction false} FramedAreFrames(messages: seq<seq<Byte>>)
    ensures FramedMessages(messages) == Frames(Summed(messages))
    decreases |messages|
  {
    hide Checksum, FrameOf;
    if messages != [] {
      var k := |messages| - 1;
      FramedAreFrames(messages[..k]);
      assert Summed(messages)[..k] == Summed(messages[..k]);
    }
  }

  /** The framed bytes of any messages are read as exactly the messages, each with its checksum and summing to zero
      modulo 256, and leave nothing behind. */
  lemma {:induction false} MessagesRead(messages: seq<seq<Byte>>)
    ensures Feed(State([], false, []), FramedMessages(messages)) == State([], false, Summed(messages))
    ensures forall i | 0 <= i < |messages| :: Sum(Summed(messages)[i].body) % 256 == 0
  {
    hide Checksum, FrameOf, Feed, Sum;
    FramedAreFrames(messages);
    ItemsRead(Summed(messages));
    forall i | 0 <= i < |messages|
      ensures Sum(Summed(messages)[i].body) % 256 == 0
    {
      ChecksumIsTheOne(messages[i], Checksum(messages[i]));
    }
  }

  /** Whatever the messages and however their framed bytes are cut into chunks, a new parser fed chunk by chunk gives
      exactly the messages, and holds nothing at the end. */
  method ReadMessages(ghost messages: seq<seq<Byte>>, chunks: seq<seq<Byte>>)
    returns (out: seq<Item>, parser: Parser)
    requires Join(chunks) == FramedMessages(messages)
    ensures out == Summed(messages) && parser.buf == [] && !parser.escaped
    ensures forall i | 0 <= i < |out| :: Sum(out[i].body) % 256 == 0
  {
    hide Feed, FramedMessages, Summed, Sum, Join;
    parser := new Parser();
    MessagesRead(messages);
    out := parser.FeedChunks(chunks);
  }
}
