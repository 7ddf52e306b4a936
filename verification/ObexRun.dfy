/** An object pushed from the sender to the receiver over two byte streams delivered in arbitrary pieces. */
module ObexRun {
  import opened Bytes
  import opened Obex

  // ----- the sender -----

  datatype Job = Job(name: seq<Unit>, data: seq<Byte>)

  /** The exchange whose reply the sender waits for; `Fragment` carries where its piece of the object begins and
      ends. */
  datatype Phase = Connect | Headers | Fragment(from: nat, to: nat) | Disconnect | Done | Failed

  datatype Sender = Sender(phase: Phase, mtu: nat, incoming: seq<Byte>, sent: seq<Byte>)

  datatype Reply = Wait | Bad | Got(body: seq<Byte>, rest: seq<Byte>)

  /** `exchange`, from the reply's first three bytes on. */
  function Poll(incoming: seq<Byte>, expected: Byte): Reply {
    if |incoming| < 3 then Wait
    else
      var size := Get16(incoming[1..]);
      if size < 3 || size > MAX_PACKET || 0xC0 <= incoming[0] <= 0xE1 || incoming[0] != expected then Bad
      else if |incoming| < size then Wait
      else Got(incoming[3..size], incoming[size..])
  }

  function ConnectRequest(): seq<Byte> {
    Framed(0x80, [0x10, 0, 0x10, 0])
  }

  function NameHeader(job: Job): seq<Byte> {
    Framed(0x01, Encode16(job.name + [0]))
  }

  function LengthHeader(job: Job): seq<Byte> {
    [0xC3] + Be32(|job.data|)
  }

  function HeadersRequest(job: Job): seq<Byte> {
    Framed(0x02, NameHeader(job) + LengthHeader(job))
  }

  function FragmentRequest(job: Job, from: nat, to: nat): seq<Byte>
    requires from <= to <= |job.data|
  {
    var final := to == |job.data|;
    Framed(if final then 0x82 else 0x02, Framed(if final then 0x49 else 0x48, job.data[from..to]))
  }

  function DisconnectRequest(): seq<Byte> {
    Framed(0x81, [])
  }

  /** The code the sender expects for each exchange. */
  function Expected(job: Job, p: Phase): Byte {
    match p
    case Headers => 0x90
    case Fragment(_, to) => if to == |job.data| then 0xA0 else 0x90
    case _ => 0xA0
  }

  function Send(s: Sender, phase: Phase, packet: seq<Byte>, rest: seq<Byte>): Sender {
    if |packet| >= 0x1_0000 then s.(phase := Failed)
    else s.(phase := phase, sent := s.sent + packet, incoming := rest)
  }

  /** The next fragment, or the disconnect when the object is through. */
  function SendFrom(job: Job, s: Sender, from: nat, rest: seq<Byte>): Sender
    requires from <= |job.data|
  {
    var chunk := if s.mtu - 6 < 512 then s.mtu - 6 else 512;
    if chunk <= 0 then s.(phase := Failed)
    else if from == |job.data| then Send(s, Disconnect, DisconnectRequest(), rest)
    else
      var to := if from + chunk < |job.data| then from + chunk else |job.data|;
      Send(s, Fragment(from, to), FragmentRequest(job, from, to), rest)
  }

  predicate Sound(job: Job, p: Phase) {
    p.Fragment? ==> p.from <= p.to <= |job.data|
  }

  /** What the sender does with what has come in; it stays as it is while the reply is not whole. */
  function SenderMove(job: Job, s: Sender): Sender
    requires Sound(job, s.phase)
  {
    if s.phase.Done? || s.phase.Failed? then s
    else match Poll(s.incoming, Expected(job, s.phase))
      case Wait => s
      case Bad => s.(phase := Failed)
      case Got(body, rest) =>
        match s.phase
        case Connect =>
          if |body| < 4 || !Utf16(job.name) || |job.data| >= WORD then s.(phase := Failed)
          else Send(s.(mtu := Get16(body[2..])), Headers, HeadersRequest(job), rest)
        case Headers => SendFrom(job, s, 0, rest)
        case Fragment(_, to) => SendFrom(job, s, to, rest)
        case _ => s.(phase := Done, incoming := rest)
  }

  // ----- the two ends and the streams between them -----

  /** `fed` and `taken` count the bytes of each stream that have been delivered; `recv` is `None` once it has raised. */
  datatype World = World(sender: Sender, fed: nat, recv: Option<Recv>, taken: nat)

  const OPENED := Recv([], FRESH, [])

  const INIT := World(Sender(Connect, 0, [], ConnectRequest()), 0, Some(OPENED), 0)

  predicate Fits(w: World) {
    w.fed <= |w.sender.sent| && (w.recv.Some? ==> w.taken <= |w.recv.value.written|)
  }

  /** One step: the sender acts on what came in, or some bytes of either stream arrive. */
  datatype Step = Act | ToReceiver(n: nat) | ToSender(n: nat)

  predicate Enabled(job: Job, w: World, step: Step) {
    && Fits(w) && Sound(job, w.sender.phase)
    && match step
       case Act => SenderMove(job, w.sender) != w.sender
       case ToReceiver(n) => 0 < n <= |w.sender.sent| - w.fed && w.recv.Some?
       case ToSender(n) => w.recv.Some? && 0 < n <= |w.recv.value.written| - w.taken
  }

  function Next(job: Job, w: World, step: Step): World
    requires Enabled(job, w, step)
  {
    match step
    case Act => w.(sender := SenderMove(job, w.sender))
    case ToReceiver(n) =>
      w.(fed := w.fed + n, recv := Feed(w.recv.value, w.sender.sent[w.fed..w.fed + n]))
    case ToSender(n) =>
      w.(taken := w.taken + n,
         sender := w.sender.(incoming := w.sender.incoming + w.recv.value.written[w.taken..w.taken + n]))
  }

  // ----- what each exchange does at the receiver -----

  function Size(job: Job): Option<nat> {
    Some(|job.data|)
  }

  /** The receiver's state when the request of a phase arrives, and after it. */
  function Before(job: Job, p: Phase): Core
    requires Sound(job, p)
  {
    match p
    case Connect => FRESH
    case Headers => FRESH
    case Fragment(from, _) => Core(job.data[..from], Some(StripNul(job.name)), Size(job), false)
    case _ => Final(job)
  }

  function Final(job: Job): Core {
    Core(job.data, Some(StripNul(job.name)), Size(job), job.data != [])
  }

  function After(job: Job, p: Phase): Core
    requires Sound(job, p)
  {
    match p
    case Connect => FRESH
    case Headers => Core([], Some(StripNul(job.name)), Size(job), false)
    case Fragment(_, to) => Core(job.data[..to], Some(StripNul(job.name)), Size(job), to == |job.data|)
    case _ => Final(job)
  }

  function Request(job: Job, p: Phase): seq<Byte>
    requires Sound(job, p)
  {
    match p
    case Connect => ConnectRequest()
    case Headers => HeadersRequest(job)
    case Fragment(from, to) => FragmentRequest(job, from, to)
    case _ => DisconnectRequest()
  }

  function Answer(job: Job, p: Phase): seq<Byte> {
    if p.Connect? then Framed(0xA0, [0x10, 0, 0x10, 0]) else Framed(Expected(job, p), [])
  }

  /** What a job must satisfy: the header packet is one the receiver takes, and the object at most 1 MiB. */
  predicate JobOk(job: Job) {
    Utf16(job.name) && 2 * |job.name| + 13 <= MAX_PACKET && |job.data| <= MAX_OBJECT
  }

  /** A phase that occurs: fragments of at most 512 bytes, in place. */
  predicate Occurs(job: Job, p: Phase) {
    && !p.Failed?
    && (p.Fragment? ==> p.from < p.to <= |job.data| && p.to <= p.from + 512)
  }

  lemma {:induction false} FramedParts(kind: Byte, payload: seq<Byte>)
    requires |payload| + 3 < 0x1_0000
    ensures var f := Framed(kind, payload);
            |f| == |payload| + 3 && f[0] == kind && Get16(f[1..]) == |f| && f[3..] == payload
  {
  }

  lemma {:induction false} RequestFits(job: Job, p: Phase)
    requires JobOk(job) && Occurs(job, p)
    ensures var r := Request(job, p); 3 <= |r| <= MAX_PACKET && Get16(r[1..]) == |r|
  {
    hide Get16, Be16, Be32, Utf16, Encode16, Framed;
    match p
    case Connect => FramedParts(0x80, [0x10, 0, 0x10, 0]);
    case Headers =>
      FramedParts(0x01, Encode16(job.name + [0]));
      FramedParts(0x02, NameHeader(job) + LengthHeader(job));
    case Fragment(from, to) =>
      var final := to == |job.data|;
      FramedParts(if final then 0x49 else 0x48, job.data[from..to]);
      FramedParts(if final then 0x82 else 0x02, Framed(if final then 0x49 else 0x48, job.data[from..to]));
    case Disconnect => FramedParts(0x81, []);
    case Done => FramedParts(0x81, []);
    case Failed =>
  }

  /** One header of the variable kind, alone. */
  lemma {:induction false} OneHeader(kind: Byte, value: seq<Byte>, rest: seq<Byte>)
    requires kind < 128 && |value| + 3 < 0x1_0000
    ensures var s := Framed(kind, value) + rest;
            Obex.Headers(s)
            == match Obex.Headers(rest) case None => None case Some(hs) => Some([Header(kind, value)] + hs)
  {
    hide Get16, Be16;
    FramedParts(kind, value);
    var f := Framed(kind, value);
    var s := f + rest;
    assert s[1] == f[1] && s[2] == f[2];
    assert Get16(s[1..]) == Get16(f[1..]) by { FrontOnly(s[1..], f[1..]); }
    assert s[3..|f|] == value && s[|f|..] == rest;
  }

  lemma {:induction false} FrontOnly(a: seq<Byte>, b: seq<Byte>)
    requires |a| >= 2 && |b| >= 2 && a[0] == b[0] && a[1] == b[1]
    ensures Get16(a) == Get16(b)
  {
  }

  lemma {:induction false} LengthAlone(job: Job)
    ensures Obex.Headers(LengthHeader(job)) == Some([Header(0xC3, Be32(|job.data|))])
  {
    hide Be32;
    var s := LengthHeader(job);
    assert s[1..5] == Be32(|job.data|) && s[5..] == [];
    assert Obex.Headers(s[5..]) == Some([]);
    assert [Header(0xC3, s[1..5])] + [] == [Header(0xC3, s[1..5])];
  }

  lemma {:induction false} TakeTwo(c: Core, a: Header, b: Header)
    ensures TakeHeaders(c, [a, b]) == match TakeHeader(c, a) case None => None case Some(c') => TakeHeader(c', b)
    ensures TakeHeaders(c, [a]) == TakeHeader(c, a)
  {
    assert [a, b][1..] == [b] && [b][1..] == [] && [a][1..] == [];
    if TakeHeader(c, a).Some? {
      var c' := TakeHeader(c, a).value;
      assert TakeHeaders(c', [b]) == TakeHeader(c', b);
    }
  }

  lemma {:induction false} NameTaken(job: Job, c: Core)
    requires Utf16(job.name)
    ensures TakeHeader(c, Header(0x01, Encode16(job.name + [0]))) == Some(c.(name := Some(StripNul(job.name))))
  {
    hide Utf16;
    Utf16Nul(job.name);
    UnitsOfEncode(job.name + [0]);
    assert (job.name + [0])[..|job.name|] == job.name;
  }

  lemma {:induction false} HeadersHandled(job: Job)
    requires JobOk(job)
    ensures Handle(FRESH, HeadersRequest(job)) == Some((After(job, Headers), Answer(job, Headers)))
  {
    hide Get16, Be16, Be32, Get32, Utf16, Encode16, TakeHeader, Obex.Headers, StripNul, Framed;
    var name, length := Header(0x01, Encode16(job.name + [0])), Header(0xC3, Be32(|job.data|));
    FramedParts(0x01, Encode16(job.name + [0]));
    FramedParts(0x02, NameHeader(job) + LengthHeader(job));
    LengthAlone(job);
    OneHeader(0x01, Encode16(job.name + [0]), LengthHeader(job));
    assert [name] + [length] == [name, length];
    TakeTwo(FRESH, name, length);
    NameTaken(job, FRESH);
    LengthTaken(job, FRESH.(name := Some(StripNul(job.name))));
  }

  lemma {:induction false} LengthTaken(job: Job, c: Core)
    requires |job.data| < WORD
    ensures TakeHeader(c, Header(0xC3, Be32(|job.data|))) == Some(c.(expected := Size(job)))
  {
  }

  lemma {:induction false} FragmentHandled(job: Job, p: Phase)
    requires JobOk(job) && Occurs(job, p) && p.Fragment?
    ensures Handle(Before(job, p), Request(job, p)) == Some((After(job, p), Answer(job, p)))
  {
    hide Get16, Be16, Framed, Obex.Headers, Utf16, StripNul;
    var final, piece := p.to == |job.data|, job.data[p.from..p.to];
    var kind: Byte := if final then 0x49 else 0x48;
    FramedParts(kind, piece);
    FramedParts(if final then 0x82 else 0x02, Framed(kind, piece));
    OneHeader(kind, piece, []);
    assert Framed(kind, piece) + [] == Framed(kind, piece);
    NoHeaders();
    var h := Header(kind, piece);
    assert [h] + [] == [h];
    TakeTwo(Before(job, p), h, h);
    assert job.data[..p.from] + piece == job.data[..p.to];
    assert final ==> job.data[..p.to] == job.data;
  }

  lemma {:induction false} NoHeaders()
    ensures Obex.Headers([]) == Some([])
  {
  }

  /** Each request does at the receiver what the sender counts on, and is answered with the code it expects. */
  lemma {:induction false} RequestHandled(job: Job, p: Phase)
    requires JobOk(job) && Occurs(job, p)
    ensures |Request(job, p)| >= 3 && Handle(Before(job, p), Request(job, p)) == Some((After(job, p), Answer(job, p)))
  {
    hide Get16, Be16, Be32, Framed, Obex.Headers, Utf16, Encode16;
    RequestFits(job, p);
    match p
    case Connect => FramedParts(0x80, [0x10, 0, 0x10, 0]);
    case Headers => HeadersHandled(job);
    case Fragment(_, _) => FragmentHandled(job, p);
    case Disconnect => FramedParts(0x81, []);
    case Done => FramedParts(0x81, []);
    case Failed =>
  }

  // ----- every run -----

  function Flight(w: World): seq<Byte>
    requires Fits(w)
  {
    w.sender.sent[w.fed..]
  }

  function Back(w: World): seq<Byte>
    requires Fits(w) && w.recv.Some?
  {
    w.recv.value.written[w.taken..]
  }

  /** The request is still on its way: what the receiver has of it and what is in flight make it up. */
  predicate Asking(job: Job, w: World)
    requires Fits(w) && w.recv.Some? && Occurs(job, w.sender.phase)
  {
    var r := w.recv.value;
    && r.core == Before(job, w.sender.phase) && Flight(w) != [] && r.pending + Flight(w) == Request(job, w.sender.phase)
    && w.sender.incoming == [] && Back(w) == []
  }

  /** The request is handled: what the sender has of the answer and what is in flight make it up. */
  predicate Answered(job: Job, w: World)
    requires Fits(w) && w.recv.Some? && Occurs(job, w.sender.phase)
  {
    var r := w.recv.value;
    && r.core == After(job, w.sender.phase) && r.pending == [] && Flight(w) == []
    && w.sender.incoming + Back(w) == if w.sender.phase.Done? then [] else Answer(job, w.sender.phase)
  }

  predicate Inv(job: Job, w: World) {
    && Fits(w) && w.recv.Some? && Occurs(job, w.sender.phase)
    && (!w.sender.phase.Connect? ==> w.sender.mtu == 4096)
    && (Answered(job, w) || (Asking(job, w) && !w.sender.phase.Done?))
  }

  lemma {:induction false} InitInv(job: Job)
    ensures Inv(job, INIT)
  {
  }

  /** Part of a packet waits; the rest of it is handled at once. */
  lemma {:induction false} FeedPart(r: Recv, chunk: seq<Byte>, packet: seq<Byte>)
    requires 3 <= |packet| <= MAX_PACKET && Get16(packet[1..]) == |packet|
    requires r.pending + chunk <= packet
    ensures r.pending + chunk < packet ==> Feed(r, chunk) == Some(r.(pending := r.pending + chunk))
    ensures r.pending + chunk == packet ==>
              Feed(r, chunk) ==
              match Handle(r.core, packet)
              case None => None
              case Some((core, reply)) => Some(Recv([], core, r.written + reply))
  {
    hide Handle;
    var s := r.pending + chunk;
    if |s| >= 3 {
      assert s[1] == packet[1] && s[2] == packet[2];
      assert Get16(s[1..]) == |packet|;
      if s == packet {
        assert s[..|s|] == packet && s[|s|..] == [];
        var step := Handle(r.core, packet);
        if step.Some? {
          var left := Recv([], step.value.0, r.written + step.value.1);
          assert Drain(left) == Some(left);
        }
      }
    }
  }

  lemma {:induction false} ToReceiverKeeps(job: Job, w: World, n: nat)
    requires JobOk(job) && Inv(job, w) && Enabled(job, w, ToReceiver(n))
    ensures var w' := Next(job, w, ToReceiver(n));
            Inv(job, w') && Rank(job, w') < Rank(job, w)
  {
    hide Handle, Drain, Request, Before, After, Answer, Get16, JobOk, SenderMove;
    var r, p := w.recv.value, w.sender.phase;
    var packet := Request(job, p);
    var chunk := w.sender.sent[w.fed..w.fed + n];
    var w' := Next(job, w, ToReceiver(n));
    RequestFits(job, p);
    var rest := w.sender.sent[w.fed + n..];
    assert Flight(w) == chunk + rest;
    assert r.pending + chunk + rest == packet;
    FeedPart(r, chunk, packet);
    if rest == [] {
      assert r.pending + chunk == packet;
      RequestHandled(job, p);
      AnswerSmall(job, p);
      assert w'.recv.value.written[w'.taken..] == r.written[w.taken..] + Answer(job, p);
    } else {
      assert |r.pending + chunk| < |packet|;
      assert w'.recv.value == r.(pending := r.pending + chunk);
    }
  }

  lemma {:induction false} AnswerSmall(job: Job, p: Phase)
    ensures 3 <= |Answer(job, p)| <= 7
  {
  }

  lemma {:induction false} ToSenderKeeps(job: Job, w: World, n: nat)
    requires Inv(job, w) && Enabled(job, w, ToSender(n))
    ensures var w' := Next(job, w, ToSender(n));
            Inv(job, w') && Rank(job, w') < Rank(job, w)
  {
    hide Request, Before, After, Answer, SenderMove;
    var w' := Next(job, w, ToSender(n));
    var chunk := w.recv.value.written[w.taken..w.taken + n];
    assert Back(w) == chunk + Back(w');
    assert w.sender.incoming + chunk + Back(w') == w.sender.incoming + Back(w);
  }

  lemma {:induction false} PollAnswer(job: Job, p: Phase, incoming: seq<Byte>)
    requires Occurs(job, p) && incoming <= Answer(job, p)
    ensures incoming < Answer(job, p) ==> Poll(incoming, Expected(job, p)).Wait?
    ensures incoming == Answer(job, p) ==>
              Poll(incoming, Expected(job, p)) == Got(if p.Connect? then [0x10, 0, 0x10, 0] else [], [])
  {
    hide Get16, Framed;
    var a := Answer(job, p);
    FramedParts(Expected(job, p), if p.Connect? then [0x10, 0, 0x10, 0] else []);
    if |incoming| >= 3 {
      FrontOnly(incoming[1..], a[1..]);
    }
    if incoming == a {
      assert a[3..|a|] == a[3..] && a[|a|..] == [];
    }
  }

  /** What the sender sends next finds the receiver in the state it needs. */
  lemma {:induction false} Continues(job: Job, p: Phase)
    requires Occurs(job, p) && !p.Done?
    ensures p.Connect? ==> After(job, p) == Before(job, Headers)
    ensures p.Headers? || (p.Fragment? && p.to == |job.data|) ==>
              (p.Fragment? || job.data == []) ==> After(job, p) == Before(job, Disconnect)
    ensures p.Headers? ==> forall to | 0 < to <= |job.data| :: After(job, p) == Before(job, Fragment(0, to))
    ensures p.Fragment? && p.to < |job.data| ==>
              forall to | p.to < to <= |job.data| :: After(job, p) == Before(job, Fragment(p.to, to))
    ensures p.Disconnect? ==> After(job, p) == After(job, Done)
  {
  }

  lemma {:induction false} ActKeeps(job: Job, w: World)
    requires JobOk(job) && Inv(job, w) && Enabled(job, w, Act)
    ensures var w' := Next(job, w, Act);
            Inv(job, w') && Rank(job, w') < Rank(job, w)
  {
    hide Answer, Request, Before, After, Poll, JobOk, Handle, HeadersRequest, FragmentRequest, DisconnectRequest;
    var s := w.sender;
    var p := s.phase;
    if Asking(job, w) {
      NothingIn(Expected(job, p));
      assert false;
    }
    assert s.incoming <= Answer(job, p);
    PollAnswer(job, p, s.incoming);
    assert s.incoming == Answer(job, p) && Back(w) == [];
    Continues(job, p);
    var s' := SenderMove(job, s);
    SenderGoesOn(job, s);
    var w' := Next(job, w, Act);
    if !s'.phase.Done? {
      assert Flight(w') == Request(job, s'.phase);
      assert [] + Flight(w') == Request(job, s'.phase);
      RequestFits(job, s'.phase);
    } else {
      assert Flight(w') == [];
    }
  }

  lemma {:induction false} NothingIn(expected: Byte)
    ensures Poll([], expected).Wait?
  {
  }

  lemma {:induction false} SenderGoesOn(job: Job, s: Sender)
    requires JobOk(job) && Occurs(job, s.phase) && !s.phase.Done? && (!s.phase.Connect? ==> s.mtu == 4096)
    requires Poll(s.incoming, Expected(job, s.phase)) == Got(if s.phase.Connect? then [0x10, 0, 0x10, 0] else [], [])
    ensures var s' := SenderMove(job, s);
            && Occurs(job, s'.phase) && s'.mtu == 4096 && s'.incoming == []
            && (s'.phase.Done? ==> s'.sent == s.sent)
            && (!s'.phase.Done? ==> s'.sent == s.sent + Request(job, s'.phase))
            && PhaseRank(job, s'.phase) < PhaseRank(job, s.phase)
            && match s.phase
               case Connect => s'.phase == Headers
               case Headers => if job.data == [] then s'.phase == Disconnect
                               else s'.phase.Fragment? && s'.phase.from == 0
               case Fragment(_, to) => if to == |job.data| then s'.phase == Disconnect
                                       else s'.phase.Fragment? && s'.phase.from == to
               case _ => s'.phase == Done
  {
    hide Poll, HeadersRequest, DisconnectRequest, Utf16, FragmentRequest;
    assert [0x10, 0, 0x10, 0][2..] == [0x10, 0];
    var s' := SenderMove(job, s);
    match s.phase
    case Connect => RequestFits(job, Headers);
    case Headers => FragmentGoes(job, s, 0);
    case Fragment(_, to) => FragmentGoes(job, s, to);
    case Disconnect =>
  }

  lemma {:induction false} FragmentGoes(job: Job, s: Sender, from: nat)
    requires JobOk(job) && from <= |job.data| && s.mtu == 4096
    ensures var s' := SendFrom(job, s, from, []);
            if from == |job.data| then
              s' == s.(phase := Disconnect, sent := s.sent + DisconnectRequest(), incoming := [])
            else
              var to := if from + 512 < |job.data| then from + 512 else |job.data|;
              s' == s.(phase := Fragment(from, to), sent := s.sent + FragmentRequest(job, from, to), incoming := [])
  {
  }

  // ----- how far a run is from its end -----

  function PhaseRank(job: Job, p: Phase): nat
    requires Occurs(job, p)
  {
    match p
    case Connect => |job.data| + 4
    case Headers => |job.data| + 3
    case Fragment(_, to) => |job.data| - to + 2
    case Disconnect => 1
    case Done => 0
  }

  /** The exchanges to come, and the bytes of this one still to be delivered. */
  function Rank(job: Job, w: World): nat
    requires Inv(job, w)
  {
    PhaseRank(job, w.sender.phase) * 8192
    + if Asking(job, w) && !Answered(job, w) then 8 + |Flight(w)| else |Back(w)|
  }

  /** Every step of a run keeps the invariant and brings the run nearer its end. */
  lemma {:induction false} StepKeeps(job: Job, w: World, step: Step)
    requires JobOk(job) && Inv(job, w) && Enabled(job, w, step)
    ensures Inv(job, Next(job, w, step)) && Rank(job, Next(job, w, step)) < Rank(job, w)
  {
    hide Inv, Rank, JobOk;
    match step
    case Act => ActKeeps(job, w);
    case ToReceiver(n) => ToReceiverKeeps(job, w, n);
    case ToSender(n) => ToSenderKeeps(job, w, n);
  }

  /** A run that is not done can go on. */
  lemma {:induction false} GoesOn(job: Job, w: World)
    requires Inv(job, w) && !w.sender.phase.Done?
    ensures Enabled(job, w, Act) || Enabled(job, w, ToReceiver(1)) || Enabled(job, w, ToSender(1))
  {
    hide Answer, Request, Before, After, Poll;
    if Answered(job, w) && Back(w) == [] {
      assert w.sender.incoming == Answer(job, w.sender.phase);
      PollAnswer(job, w.sender.phase, w.sender.incoming);
      MovesOn(job, w.sender);
    }
  }

  lemma {:induction false} MovesOn(job: Job, s: Sender)
    requires Occurs(job, s.phase) && !s.phase.Done? && Poll(s.incoming, Expected(job, s.phase)).Got?
    ensures SenderMove(job, s) != s
  {
  }

  /** A run: the world after each of the steps taken, however the sender, the receiver and the streams are scheduled
      and cut. */
  predicate IsRun(job: Job, steps: seq<Step>, worlds: seq<World>) {
    && |worlds| == |steps| + 1 && worlds[0] == INIT
    && forall i | 0 <= i < |steps| ::
         Enabled(job, worlds[i], steps[i]) && worlds[i + 1] == Next(job, worlds[i], steps[i])
  }

  lemma {:induction false} RunKeeps(job: Job, steps: seq<Step>, worlds: seq<World>)
    requires JobOk(job) && IsRun(job, steps, worlds)
    ensures Inv(job, worlds[|steps|]) && Inv(job, INIT) && |steps| + Rank(job, worlds[|steps|]) <= Rank(job, INIT)
  {
    hide Inv, Rank, JobOk, Enabled, Next;
    InitInv(job);
    if steps != [] {
      var n := |steps| - 1;
      RunKeeps(job, steps[..n], worlds[..n + 1]);
      StepKeeps(job, worlds[n], steps[n]);
    }
  }

  /** For every object and name and every way the run goes: neither end fails, no run is longer than a bound the job
      sets, a run that cannot go on has finished, and then the receiver holds exactly the object, and the name
      without its trailing NULs. It has counted the push as complete exactly when the object is not empty: an empty
      object has no last fragment. */
  lemma {:induction false} EveryRunDelivers(job: Job, steps: seq<Step>, worlds: seq<World>)
    requires JobOk(job) && IsRun(job, steps, worlds)
    ensures var w := worlds[|steps|];
            && Inv(job, INIT) && |steps| <= Rank(job, INIT)
            && !w.sender.phase.Failed? && w.recv.Some?
            && ((forall step :: !Enabled(job, w, step)) ==> w.sender.phase.Done?)
            && (w.sender.phase.Done? ==>
                  && w.recv.value.core.received == job.data
                  && w.recv.value.core.name == Some(StripNul(job.name))
                  && (w.recv.value.core.complete <==> job.data != [])
                  && w.recv.value.pending == [])
  {
    hide Rank, JobOk, Next, Answer, Request, Enabled;
    RunKeeps(job, steps, worlds);
    var w := worlds[|steps|];
    if !w.sender.phase.Done? {
      GoesOn(job, w);
    }
  }

  /** Every run can be carried on until it has finished. */
  lemma {:induction false} EveryRunFinishes(job: Job, steps: seq<Step>, worlds: seq<World>)
    returns (allSteps: seq<Step>, allWorlds: seq<World>)
    requires JobOk(job) && IsRun(job, steps, worlds)
    ensures IsRun(job, allSteps, allWorlds) && steps <= allSteps && worlds <= allWorlds
    ensures allWorlds[|allSteps|].sender.phase.Done?
    decreases RankLeft(job, worlds[|steps|])
  {
    hide Inv, Rank, JobOk, Enabled, Next;
    RunKeeps(job, steps, worlds);
    var w := worlds[|steps|];
    if w.sender.phase.Done? {
      return steps, worlds;
    }
    GoesOn(job, w);
    var step := if Enabled(job, w, Act) then Act
                else if Enabled(job, w, ToReceiver(1)) then ToReceiver(1)
                else ToSender(1);
    StepKeeps(job, w, step);
    allSteps, allWorlds := EveryRunFinishes(job, steps + [step], worlds + [Next(job, w, step)]);
  }

  ghost function RankLeft(job: Job, w: World): nat {
    if Inv(job, w) then Rank(job, w) else 0
  }

  /** A push of an empty object: both ends finish, nothing fails, and it is not counted as complete. */
  lemma {:induction false} EmptyPushEnds() returns (steps: seq<Step>, worlds: seq<World>)
    ensures var job := Job([], []);
            && IsRun(job, steps, worlds) && worlds[|steps|].sender.phase.Done?
            && worlds[|steps|].recv.Some? && !worlds[|steps|].recv.value.core.complete
  {
    hide Inv, Rank, JobOk, Enabled, Next;
    var job := Job([], []);
    assert JobOk(job) by { EmptyOk(); }
    steps, worlds := EveryRunFinishes(job, [], [INIT]);
    EveryRunDelivers(job, steps, worlds);
  }

  lemma {:induction false} EmptyOk()
    ensures JobOk(Job([], []))
  {
  }
}
