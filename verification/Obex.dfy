/** OBEX object push: packets and headers, and the receiver that reassembles them from a byte stream. */
module Obex {
  import opened Bytes

  // ----- UTF-16 names -----

  /** A name is held as its UTF-16 code units; strict decoding and encoding are inverse on well-formed ones. */
  type Unit = u: int | 0 <= u < 0x1_0000

  /** Every surrogate is one half of a pair. */
  predicate Utf16(us: seq<Unit>) {
    us == []
    || (if 0xD800 <= us[0] < 0xDC00 then |us| >= 2 && 0xDC00 <= us[1] < 0xE000 && Utf16(us[2..])
        else !(0xDC00 <= us[0] < 0xE000) && Utf16(us[1..]))
  }

  function Encode16(us: seq<Unit>): (s: seq<Byte>)
    ensures |s| == 2 * |us|
  {
    if us == [] then [] else Be16(us[0]) + Encode16(us[1..])
  }

  function Units(s: seq<Byte>): seq<Unit>
    requires |s| % 2 == 0
  {
    if s == [] then [] else [Get16(s)] + Units(s[2..])
  }

  function Decode16(s: seq<Byte>): Option<seq<Unit>> {
    if |s| % 2 == 0 && Utf16(Units(s)) then Some(Units(s)) else None
  }

  /** `rstrip('\0')` */
  function StripNul(us: seq<Unit>): (r: seq<Unit>)
    ensures r == us <==> us == [] || us[|us| - 1] != 0
    ensures r <= us && forall i | |r| <= i < |us| :: us[i] == 0
  {
    if us != [] && us[|us| - 1] == 0 then StripNul(us[..|us| - 1]) else us
  }

  lemma {:induction false} UnitsOfEncode(us: seq<Unit>)
    ensures Units(Encode16(us)) == us
  {
    if us != [] {
      var s := Encode16(us);
      Get16OfBe16(us[0], Encode16(us[1..]));
      assert s[2..] == Encode16(us[1..]);
      UnitsOfEncode(us[1..]);
    }
  }

  lemma {:induction false} Utf16Nul(us: seq<Unit>)
    requires Utf16(us)
    ensures Utf16(us + [0])
  {
    if us == [] {
      assert us + [0] == [0] && [0][1..] == [];
    } else if 0xD800 <= us[0] < 0xDC00 {
      assert (us + [0])[2..] == us[2..] + [0];
      Utf16Nul(us[2..]);
    } else {
      assert (us + [0])[1..] == us[1..] + [0];
      Utf16Nul(us[1..]);
    }
  }

  // ----- packets and headers -----

  /** An opcode or a header identifier, the length of the whole, and the payload. */
  function Framed(kind: Byte, payload: seq<Byte>): seq<Byte> {
    [kind] + Be16(|payload| + 3) + payload
  }

  datatype Header = Header(kind: Byte, value: seq<Byte>)

  /** How many bytes the header at the front of `data` takes, and where its value begins. */
  function HeaderSize(data: seq<Byte>): (r: Option<(nat, nat)>)
    requires data != []
    ensures r.Some? ==> 0 < r.value.1 <= r.value.0 <= |data|
  {
    if data[0] / 64 < 2 then
      if |data| < 3 then None
      else
        var size := Get16(data[1..]);
        if size < 3 || size > |data| then None else Some((size, 3))
    else
      var size := if data[0] / 64 == 2 then 2 else 5;
      if |data| < size then None else Some((size, 1))
  }

  function Headers(data: seq<Byte>): Option<seq<Header>>
    decreases |data|
  {
    if data == [] then Some([])
    else match HeaderSize(data)
      case None => None
      case Some((size, at)) =>
        match Headers(data[size..])
        case None => None
        case Some(more) => Some([Header(data[0], data[at..size])] + more)
  }

  // ----- the receiver -----

  const MAX_PACKET := 4096
  const MAX_OBJECT := 0x10_0000

  datatype Core = Core(received: seq<Byte>, name: Option<seq<Unit>>, expected: Option<nat>, complete: bool)

  const FRESH := Core([], None, None, false)

  function TakeHeader(c: Core, h: Header): Option<Core> {
    if h.kind == 0x01 then
      match Decode16(h.value)
      case None => None
      case Some(us) => Some(c.(name := Some(StripNul(us))))
    else if h.kind == 0xC3 then
      if |h.value| != 4 then None else Some(c.(expected := Some(Get32(h.value))))
    else if h.kind == 0x48 || h.kind == 0x49 then Some(c.(received := c.received + h.value))
    else Some(c)
  }

  function TakeHeaders(c: Core, hs: seq<Header>): Option<Core>
    decreases hs
  {
    if hs == [] then Some(c)
    else match TakeHeader(c, hs[0])
      case None => None
      case Some(c') => TakeHeaders(c', hs[1..])
  }

  /** What one packet does: the new state and the reply, or `None` when the receiver raises. */
  function Handle(c: Core, packet: seq<Byte>): Option<(Core, seq<Byte>)>
    requires |packet| >= 3
  {
    var opcode := packet[0];
    if opcode == 0x80 then
      if |packet| < 7 then None else Some((c, Framed(0xA0, [0x10, 0, 0x10, 0])))
    else if opcode == 0x02 || opcode == 0x82 then
      match Headers(packet[3..])
      case None => None
      case Some(hs) =>
        match TakeHeaders(c, hs)
        case None => None
        case Some(c') =>
          if |c'.received| > MAX_OBJECT then None
          else if opcode == 0x02 then Some((c', Framed(0x90, [])))
          else if c'.expected.Some? && c'.expected.value != |c'.received| then None
          else Some((c'.(complete := true), Framed(0xA0, [])))
    else if opcode == 0x81 || opcode == 0xFF then Some((c, Framed(0xA0, [])))
    else Some((c, Framed(0xC0, [])))
  }

  /** The bytes not yet part of a whole packet, what was taken from the packets before, and every byte replied. */
  datatype Recv = Recv(pending: seq<Byte>, core: Core, written: seq<Byte>)

  /** Handles every whole packet in `pending`; `None` when the receiver raises. */
  function Drain(r: Recv): Option<Recv>
    decreases |r.pending|
  {
    if |r.pending| < 3 then Some(r)
    else
      var size := Get16(r.pending[1..]);
      if size < 3 || size > MAX_PACKET then None
      else if |r.pending| < size then Some(r)
      else match Handle(r.core, r.pending[..size])
        case None => None
        case Some((core, reply)) => Drain(Recv(r.pending[size..], core, r.written + reply))
  }

  function Feed(r: Recv, data: seq<Byte>): Option<Recv> {
    Drain(r.(pending := r.pending + data))
  }

  /** The start of one packet, not all of it. */
  predicate PartOfPacket(s: seq<Byte>) {
    |s| < 3 || (3 <= Get16(s[1..]) <= MAX_PACKET && |s| < Get16(s[1..]))
  }

  /** After every call the buffer holds the start of one packet and less than 4096 bytes. */
  lemma {:induction false} DrainLeavesPart(r: Recv)
    requires Drain(r).Some?
    ensures PartOfPacket(Drain(r).value.pending) && |Drain(r).value.pending| < MAX_PACKET
    decreases |r.pending|
  {
    hide Handle, Get16;
    if !PartOfPacket(r.pending) {
      var size := Get16(r.pending[1..]);
      var step := Handle(r.core, r.pending[..size]).value;
      DrainLeavesPart(Recv(r.pending[size..], step.0, r.written + step.1));
    }
  }

  lemma {:induction false} DrainThenMore(r: Recv, more: seq<Byte>)
    ensures Drain(r.(pending := r.pending + more)) ==
            match Drain(r)
            case None => None
            case Some(r') => Drain(r'.(pending := r'.pending + more))
    decreases |r.pending|
  {
    hide Handle;
    if |r.pending| >= 3 {
      var whole := r.pending + more;
      assert whole[1] == r.pending[1] && whole[2] == r.pending[2];
      var size := Get16(r.pending[1..]);
      assert Get16(whole[1..]) == size;
      if 3 <= size <= MAX_PACKET && size <= |r.pending| {
        assert whole[..size] == r.pending[..size] && whole[size..] == r.pending[size..] + more;
        var step := Handle(r.core, r.pending[..size]);
        if step.Some? {
          DrainThenMore(Recv(r.pending[size..], step.value.0, r.written + step.value.1), more);
        }
      }
    }
  }

  /** A stream fed in chunks, one call each. */
  function FeedAll(r: Recv, chunks: seq<seq<Byte>>): Option<Recv>
    decreases chunks
  {
    if chunks == [] then Some(r)
    else match Feed(r, chunks[0])
      case None => None
      case Some(r') => FeedAll(r', chunks[1..])
  }

  /** However a stream is cut, the receiver ends in the state the whole stream at once gives, or raises as it would:
      from any state between calls. */
  lemma {:induction false} CutsDoNotMatter(r: Recv, chunks: seq<seq<Byte>>)
    requires PartOfPacket(r.pending)
    ensures FeedAll(r, chunks) == Feed(r, Join(chunks))
    decreases chunks
  {
    hide Drain, Get16;
    if chunks == [] {
      assert r.pending + [] == r.pending;
      PartStays(r);
    } else {
      var first, rest := chunks[0], Join(chunks[1..]);
      assert r.pending + (first + rest) == r.pending + first + rest;
      DrainThenMore(r.(pending := r.pending + first), rest);
      if Feed(r, first).Some? {
        DrainLeavesPart(r.(pending := r.pending + first));
        CutsDoNotMatter(Feed(r, first).value, chunks[1..]);
      }
    }
  }

  lemma {:induction false} PartStays(r: Recv)
    requires PartOfPacket(r.pending)
    ensures Drain(r) == Some(r)
  {
  }

  class Receiver {
    var pending: seq<Byte>
    var received: seq<Byte>
    var name: Option<seq<Unit>>
    var expected: Option<nat>
    var complete: bool
    var written: seq<Byte>

    ghost function State(): Recv
      reads this
    {
      Recv(pending, Core(received, name, expected, complete), written)
    }

    constructor ()
      ensures State() == Recv([], FRESH, [])
    {
      pending, received, name, expected, complete, written := [], [], None, None, false, [];
    }

    /** The headers of one PUT taken in order. */
    method TakePut(payload: seq<Byte>) returns (ok: bool)
      modifies this`received, this`name, this`expected
      ensures ok <==> Headers(payload).Some? && TakeHeaders(old(State()).core, Headers(payload).value).Some?
      ensures ok ==> State().core == TakeHeaders(old(State()).core, Headers(payload).value).value
    {
      hide Get16, Get32, HeaderSize, Decode16;
      var data := payload;
      ghost var goal := TakePutGoal(State().core, payload);
      while data != []
        invariant TakePutGoal(State().core, data) == goal
        decreases |data|
      {
        var size := HeaderSize(data);
        if size.None? { return false; }
        var kind, value := data[0], data[size.value.1..size.value.0];
        TakePutStep(State().core, data);
        if kind == 0x01 {
          var us := Decode16(value);
          if us.None? { return false; }
          name := Some(StripNul(us.value));
        } else if kind == 0xC3 {
          if |value| != 4 { return false; }
          expected := Some(Get32(value));
        } else if kind == 0x48 || kind == 0x49 {
          received := received + value;
        }
        data := data[size.value.0..];
      }
      return true;
    }

    method DataReceived(data: seq<Byte>) returns (ok: bool)
      modifies this
      ensures ok <==> Feed(old(State()), data).Some?
      ensures ok ==> State() == Feed(old(State()), data).value
    {
      hide Drain, Get16, TakeHeaders, Headers, Framed;
      ghost var goal := Feed(State(), data);
      pending := pending + data;
      while |pending| >= 3
        invariant Drain(State()) == goal
        decreases |pending|
      {
        var size := Get16(pending[1..]);
        DrainStep(State());
        if size < 3 || size > MAX_PACKET { return false; }
        if |pending| < size { return true; }
        var packet := pending[..size];
        ghost var core := State().core;
        pending := pending[size..];
        var opcode := packet[0];
        if opcode == 0x80 {
          if |packet| < 7 { return false; }
          written := written + Framed(0xA0, [0x10, 0, 0x10, 0]);
        } else if opcode == 0x02 || opcode == 0x82 {
          var put := TakePut(packet[3..]);
          if !put { return false; }
          if |received| > MAX_OBJECT { return false; }
          if opcode == 0x82 {
            if expected.Some? && expected.value != |received| { return false; }
            complete := true;
          }
          written := written + Framed(if opcode == 0x82 then 0xA0 else 0x90, []);
        } else if opcode == 0x81 || opcode == 0xFF {
          written := written + Framed(0xA0, []);
        } else {
          written := written + Framed(0xC0, []);
        }
      }
      DrainStep(State());
      return true;
    }
  }

  ghost function TakePutGoal(c: Core, data: seq<Byte>): Option<Core> {
    match Headers(data)
    case None => None
    case Some(hs) => TakeHeaders(c, hs)
  }

  lemma {:induction false} TakePutStep(c: Core, data: seq<Byte>)
    requires data != [] && HeaderSize(data).Some?
    ensures var (size, at) := HeaderSize(data).value;
            TakePutGoal(c, data) ==
            match TakeHeader(c, Header(data[0], data[at..size]))
            case None => None
            case Some(c') => TakePutGoal(c', data[size..])
  {
  }

  lemma {:induction false} DrainStep(r: Recv)
    ensures |r.pending| < 3 ==> Drain(r) == Some(r)
    ensures |r.pending| >= 3 ==>
              var size := Get16(r.pending[1..]);
              Drain(r) == if size < 3 || size > MAX_PACKET then None
                          else if |r.pending| < size then Some(r)
                          else match Handle(r.core, r.pending[..size])
                            case None => None
                            case Some((core, reply)) => Drain(Recv(r.pending[size..], core, r.written + reply))
  {
  }
}
