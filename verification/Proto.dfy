/** The development protocol's frames, read out of a stream that may hold junk before any of them. */
module Proto {
  import opened Bytes

  const HEADER := 16
  const MAGIC0: Byte := 0x4C
  const MAGIC1: Byte := 0x44

  datatype Reply = Reply(opcode: Byte, request: nat, generation: nat, status: nat, payload: seq<Byte>)

  /** A frame: the magic, a version, and the reply's fields with the payload's length. */
  function FrameBytes(version: Byte, r: Reply): seq<Byte> {
    [MAGIC0, MAGIC1, version, r.opcode]
    + (Le(r.request, 4) + (Le(r.generation, 4) + (Le(|r.payload|, 2) + (Le(r.status, 2) + r.payload))))
  }

  predicate ReplyFits(r: Reply) {
    r.request < WORD && r.generation < WORD && |r.payload| < 0x1_0000 && r.status < 0x1_0000
  }

  /** Where the two magic bytes first stand together. */
  function Find(s: seq<Byte>): (r: Option<nat>)
    ensures r.Some? ==> r.value + 2 <= |s| && s[r.value] == MAGIC0 && s[r.value + 1] == MAGIC1
  {
    if |s| < 2 then None
    else if s[0] == MAGIC0 && s[1] == MAGIC1 then Some(0)
    else match Find(s[1..])
      case None => None
      case Some(k) => Some(k + 1)
  }

  /** A frame and what follows it, or what to keep until more has come. */
  datatype Outcome = Got(reply: Reply, rest: seq<Byte>) | Keep(rest: seq<Byte>)

  function Decode(b: seq<Byte>): Outcome
    requires |b| >= 2
  {
    if |b| < HEADER then Keep(b)
    else
      var length := FromLe(b[12..14]);
      if |b| < HEADER + length then Keep(b)
      else Got(Reply(b[3], FromLe(b[4..8]), FromLe(b[8..12]), FromLe(b[14..16]), b[HEADER..HEADER + length]),
               b[HEADER + length..])
  }

  /** One look at the buffer: skip to the magic, or keep the one byte that may begin it. */
  function Look(s: seq<Byte>): Outcome {
    match Find(s)
    case Some(at) => Decode(s[at..])
    case None => Keep(if s == [] then [] else s[|s| - 1..])
  }

  /** Every frame of a stream. */
  function Frames(s: seq<Byte>): seq<Reply>
    decreases |s|
  {
    match Look(s)
    case Got(reply, rest) => if |rest| < |s| then [reply] + Frames(rest) else []
    case Keep(_) => []
  }

  // ----- a frame seen does not depend on where the stream was cut -----

  lemma {:induction false} FindInLonger(s: seq<Byte>, more: seq<Byte>)
    ensures Find(s).Some? ==> Find(s + more) == Find(s)
    ensures Find(s).None? && s != [] ==>
              Find(s + more) == match Find(s[|s| - 1..] + more) case None => None case Some(k) => Some(|s| - 1 + k)
  {
    if |s| == 1 {
      assert s[0..] == s;
    } else if |s| >= 2 && !(s[0] == MAGIC0 && s[1] == MAGIC1) {
      FindInLonger(s[1..], more);
      assert (s + more)[1..] == s[1..] + more;
      assert s[1..][|s| - 2..] == s[|s| - 1..];
    }
  }

  lemma {:induction false} DecodeLonger(b: seq<Byte>, more: seq<Byte>)
    requires |b| >= 2
    ensures Decode(b).Got? ==> Decode(b + more) == Got(Decode(b).reply, Decode(b).rest + more) && |Decode(b).rest| < |b|
  {
    hide FromLe;
    if Decode(b).Got? {
      var length := FromLe(b[12..14]);
      var s := b + more;
      assert s[12..14] == b[12..14] && s[4..8] == b[4..8] && s[8..12] == b[8..12] && s[14..16] == b[14..16];
      assert s[HEADER..HEADER + length] == b[HEADER..HEADER + length];
      assert s[HEADER + length..] == b[HEADER + length..] + more;
    }
  }

  lemma {:induction false} LookShrinks(s: seq<Byte>)
    ensures Look(s).Got? ==> |Look(s).rest| < |s|
  {
  }

  /** What a look keeps and what comes after it hold the frames that all of it held. */
  lemma {:induction false} LookThenMore(s: seq<Byte>, more: seq<Byte>)
    ensures match Look(s)
            case Got(reply, rest) => Frames(s + more) == [reply] + Frames(rest + more)
            case Keep(rest) => Frames(s + more) == Frames(rest + more)
  {
    hide Decode, Frames;
    var found := Find(s);
    if found.Some? {
      FindInLonger(s, more);
      var b := s[found.value..];
      assert (s + more)[found.value..] == b + more;
      if Decode(b).Got? {
        DecodeLonger(b, more);
        GotFrame(s + more);
      } else {
        KeptWhole(b);
        FromMagic(b, more);
        SameLook(s + more, b + more);
      }
    } else if s == [] {
      assert s + more == more && [] + more == more;
    } else {
      LastByteThenMore(s, more);
    }
  }

  lemma {:induction false} LastByteThenMore(s: seq<Byte>, more: seq<Byte>)
    requires s != [] && Find(s).None?
    ensures Frames(s + more) == Frames(s[|s| - 1..] + more)
  {
    hide Decode, Frames, Find;
    FindInLonger(s, more);
    var last := s[|s| - 1..];
    var k := Find(last + more);
    if k.Some? {
      assert (s + more)[|s| - 1 + k.value..] == (last + more)[k.value..];
    } else {
      assert (s + more)[|s + more| - 1..] == (last + more)[|last + more| - 1..];
    }
    SameLook(s + more, last + more);
  }

  lemma {:induction false} GotFrame(s: seq<Byte>)
    requires Look(s).Got?
    ensures Frames(s) == [Look(s).reply] + Frames(Look(s).rest)
  {
  }

  lemma {:induction false} KeptWhole(b: seq<Byte>)
    requires |b| >= 2 && Decode(b).Keep?
    ensures Decode(b).rest == b
  {
  }

  lemma {:induction false} FromMagic(b: seq<Byte>, more: seq<Byte>)
    requires |b| >= 2 && b[0] == MAGIC0 && b[1] == MAGIC1
    ensures Find(b + more) == Some(0) && (b + more)[0..] == b + more
  {
  }

  lemma {:induction false} SameLook(a: seq<Byte>, b: seq<Byte>)
    requires Look(a) == Look(b)
    ensures Frames(a) == Frames(b)
  {
  }

  // ----- the peer -----

  /** What comes before a wait ends: a read that brings nothing is one that found the connection closed or ran out of
      time. */
  function Arrived(chunks: seq<seq<Byte>>): seq<Byte> {
    if chunks == [] || chunks[0] == [] then [] else chunks[0] + Arrived(chunks[1..])
  }

  function AfterWait(chunks: seq<seq<Byte>>): seq<seq<Byte>> {
    if chunks == [] then [] else if chunks[0] == [] then chunks[1..] else AfterWait(chunks[1..])
  }

  /** The connection: what has been received and not used, and the reads still to come. */
  class Peer {
    var buffer: seq<Byte>
    var request: nat
    var incoming: seq<seq<Byte>>

    /** Everything the peer has yet to interpret. */
    ghost function Stream(): seq<Byte>
      reads this
    {
      buffer + Join(incoming)
    }

    /** What it can interpret before a wait ends. */
    ghost function Coming(): seq<Byte>
      reads this
    {
      buffer + Arrived(incoming)
    }

    /** One look at the buffer: the frame it begins with past the junk, or none and the junk dropped. */
    method Skim() returns (r: Option<Reply>)
      modifies this`buffer
      ensures match Look(old(buffer))
              case Got(reply, rest) => r == Some(reply) && buffer == rest
              case Keep(rest) => r == None && buffer == rest && Frames(buffer) == []
    {
      hide Frames, Decode, FromLe;
      var at := Find(buffer);
      if at.Some? {
        buffer := buffer[at.value..];
        var decoded := Decode(buffer);
        if decoded.Got? {
          buffer := decoded.rest;
          return Some(decoded.reply);
        }
        KeptWhole(buffer);
      } else {
        buffer := if buffer == [] then [] else buffer[|buffer| - 1..];
      }
      NothingKept(buffer);
      return None;
    }

    /** The next frame, however the stream is cut into reads. It gives up exactly when no whole frame comes before the
        wait ends, and then has lost nothing: a frame that was cut there is still read later. */
    method Read() returns (r: Option<Reply>)
      modifies this`buffer, this`incoming
      ensures match r
              case Some(reply) =>
                && Frames(old(Coming())) == [reply] + Frames(Coming())
                && Frames(old(Stream())) == [reply] + Frames(Stream())
                && AfterWait(incoming) == AfterWait(old(incoming))
              case None =>
                && Frames(old(Coming())) == []
                && Frames(old(Stream())) == Frames(Stream())
                && incoming == AfterWait(old(incoming))
    {
      hide Frames, Look, Join, Arrived, AfterWait;
      while true
        invariant Frames(Stream()) == Frames(old(Stream()))
        invariant Frames(Coming()) == Frames(old(Coming()))
        invariant AfterWait(incoming) == AfterWait(old(incoming))
        decreases |incoming|
      {
        LookThenMore(buffer, Join(incoming));
        LookThenMore(buffer, Arrived(incoming));
        var reply := Skim();
        if reply.Some? { return reply; }
        TakeRead(buffer, incoming);
        if incoming == [] { return None; }
        var more := incoming[0];
        incoming := incoming[1..];
        if more == [] { return None; }
        buffer := buffer + more;
      }
    }

    /** Reading until nothing comes gives every frame that comes before the wait ends. */
    method ReadAll() returns (rs: seq<Reply>)
      modifies this`buffer, this`incoming
      ensures rs == Frames(old(Coming())) && incoming == AfterWait(old(incoming))
    {
      hide Frames, AfterWait, Arrived;
      rs := [];
      while true
        invariant rs + Frames(Coming()) == Frames(old(Coming())) && AfterWait(incoming) == AfterWait(old(incoming))
        decreases |Frames(Coming())|
      {
        ghost var before := Frames(Coming());
        var reply := Read();
        if reply.None? {
          assert rs + [] == rs;
          return;
        }
        assert rs + before == (rs + [reply.value]) + Frames(Coming());
        rs := rs + [reply.value];
      }
    }

    /** So of frames sent with magic-free junk before each, cut into reads in any way, it reads exactly those. */
    method ReadSent(ghost sent: seq<Sent>, ghost tail: seq<Byte>) returns (rs: seq<Reply>)
      requires forall i | 0 <= i < |sent| :: Find(sent[i].junk).None? && ReplyFits(sent[i].reply)
      requires Find(tail).None? && buffer == [] && Join(incoming) == StreamOf(sent) + tail
      requires forall i | 0 <= i < |incoming| :: incoming[i] != []
      modifies this`buffer, this`incoming
      ensures rs == Replies(sent) && incoming == []
    {
      hide Frames, StreamOf, Replies, Find;
      FramesOfStream(sent, tail);
      NoWaitEnds(incoming);
      assert Coming() == StreamOf(sent) + tail;
      rs := ReadAll();
    }

    /** One request, whose number is the next: the first reply to it among what comes, replies to others skipped. */
    method Call() returns (r: Option<Reply>)
      modifies this
      ensures request == old(request) + 1
      ensures r == FirstFor(Frames(old(Coming())), request)
    {
      hide Frames;
      request := request + 1;
      while true
        invariant request == old(request) + 1
        invariant FirstFor(Frames(Coming()), request) == FirstFor(Frames(old(Coming())), request)
        decreases |Frames(Coming())|
      {
        ghost var frames := Frames(Coming());
        var reply := Read();
        if reply.None? { return None; }
        assert frames[0] == reply.value && frames[1..] == Frames(Coming());
        if reply.value.request == request { return reply; }
      }
    }
  }

  /** One read moves its bytes from what is to come to what has come; one that brings nothing ends the wait. */
  lemma {:induction false} TakeRead(buffer: seq<Byte>, chunks: seq<seq<Byte>>)
    ensures chunks == [] ==> buffer + Arrived(chunks) == buffer && AfterWait(chunks) == []
    ensures chunks != [] ==> buffer + Join(chunks) == (buffer + chunks[0]) + Join(chunks[1..])
    ensures chunks != [] && chunks[0] == [] ==>
              buffer + Arrived(chunks) == buffer && AfterWait(chunks) == chunks[1..] && buffer + chunks[0] == buffer
    ensures chunks != [] && chunks[0] != [] ==>
              && buffer + Arrived(chunks) == (buffer + chunks[0]) + Arrived(chunks[1..])
              && AfterWait(chunks) == AfterWait(chunks[1..])
  {
    if chunks != [] {
      var rest := chunks[1..];
      assert buffer + (chunks[0] + Join(rest)) == (buffer + chunks[0]) + Join(rest);
      assert buffer + (chunks[0] + Arrived(rest)) == (buffer + chunks[0]) + Arrived(rest);
    }
  }

  /** Where no read brings nothing, all of it arrives. */
  lemma {:induction false} NoWaitEnds(chunks: seq<seq<Byte>>)
    requires forall i | 0 <= i < |chunks| :: chunks[i] != []
    ensures Arrived(chunks) == Join(chunks) && AfterWait(chunks) == []
  {
    if chunks != [] {
      NoWaitEnds(chunks[1..]);
    }
  }

  function FirstFor(frames: seq<Reply>, request: nat): Option<Reply> {
    if frames == [] then None
    else if frames[0].request == request then Some(frames[0])
    else FirstFor(frames[1..], request)
  }

  /** What a look that finds no frame keeps holds none. */
  lemma {:induction false} NothingKept(rest: seq<Byte>)
    requires |rest| >= 2 ==> rest[0] == MAGIC0 && rest[1] == MAGIC1 && Decode(rest).Keep?
    ensures Frames(rest) == []
  {
  }

  // ----- the stream that was sent -----

  /** A frame with the junk before it. */
  datatype Sent = Sent(junk: seq<Byte>, version: Byte, reply: Reply)

  function StreamOf(sent: seq<Sent>): seq<Byte> {
    if sent == [] then [] else sent[0].junk + FrameBytes(sent[0].version, sent[0].reply) + StreamOf(sent[1..])
  }

  function Replies(sent: seq<Sent>): seq<Reply> {
    if sent == [] then [] else [sent[0].reply] + Replies(sent[1..])
  }

  lemma {:induction false} FindPastJunk(junk: seq<Byte>, rest: seq<Byte>)
    requires Find(junk).None? && |rest| >= 2 && rest[0] == MAGIC0 && rest[1] == MAGIC1
    ensures Find(junk + rest) == Some(|junk|)
  {
    if junk == [] {
      assert junk + rest == rest;
    } else {
      assert (junk + rest)[1..] == junk[1..] + rest;
      FindPastJunk(junk[1..], rest);
    }
  }

  lemma {:induction false} FrameRoundTrip(version: Byte, r: Reply, rest: seq<Byte>)
    requires ReplyFits(r)
    ensures Decode(FrameBytes(version, r) + rest) == Got(r, rest)
  {
    hide FromLe, Le;
    Powers();
    LeRoundTrip(r.request, 4);
    LeRoundTrip(r.generation, 4);
    LeRoundTrip(|r.payload|, 2);
    LeRoundTrip(r.status, 2);
    var s := FrameBytes(version, r) + rest;
    assert s[4..8] == Le(r.request, 4) && s[8..12] == Le(r.generation, 4);
    assert s[12..14] == Le(|r.payload|, 2) && s[14..16] == Le(r.status, 2);
    assert s[HEADER..HEADER + |r.payload|] == r.payload && s[HEADER + |r.payload|..] == rest;
  }

  /** A stream of frames with junk that holds no magic before each and after the last holds exactly those frames, in
      order. */
  lemma {:induction false} FramesOfStream(sent: seq<Sent>, tail: seq<Byte>)
    requires forall i | 0 <= i < |sent| :: Find(sent[i].junk).None? && ReplyFits(sent[i].reply)
    requires Find(tail).None?
    ensures Frames(StreamOf(sent) + tail) == Replies(sent)
    decreases sent
  {
    hide Decode, FrameBytes;
    if sent == [] {
      assert StreamOf(sent) + tail == tail;
    } else {
      var x := sent[0];
      var more := StreamOf(sent[1..]) + tail;
      var frame := FrameBytes(x.version, x.reply);
      FrameStarts(x.version, x.reply);
      var s := StreamOf(sent) + tail;
      assert s == x.junk + (frame + more);
      FindPastJunk(x.junk, frame + more);
      assert s[|x.junk|..] == frame + more;
      FrameRoundTrip(x.version, x.reply, more);
      LookShrinks(s);
      FramesOfStream(sent[1..], tail);
    }
  }

  lemma {:induction false} FrameStarts(version: Byte, r: Reply)
    ensures |FrameBytes(version, r)| >= 2 && FrameBytes(version, r)[0] == MAGIC0 && FrameBytes(version, r)[1] == MAGIC1
  {
  }
}
