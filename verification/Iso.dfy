/** One earbud's capture: isochronous packets put back together into the codec's frames. */
module Iso {
  import opened Bytes

  /** The packet boundary flag, in the order of its values 0 to 3. */
  datatype Flag = First | Continuation | Complete | Last

  datatype Packet = Packet(flag: Flag, lost: bool, sequence: nat, length: nat, fragment: seq<Byte>)

  predicate Begins(p: Packet) {
    p.flag == First || p.flag == Complete
  }

  /** What a capture holds; `decoded` is what its decoder was given and `errors` how many it reported. */
  datatype State = State(partial: seq<Byte>, expected: Option<nat>, sequence: Option<nat>, frames: nat, lost: nat,
                         gaps: nat, decoded: seq<seq<Byte>>, errors: nat)

  const START := State([], None, None, 0, 0, 0, [], 0)

  predicate IsGap(previous: Option<nat>, sequence: nat) {
    previous.Some? && sequence != (previous.value + 1) % 0x1_0000
  }

  /** One packet's fragment joins what came before it. */
  function Extend(octets: nat, s: State, p: Packet): State {
    var partial := s.partial + p.fragment;
    if |partial| > octets then s.(partial := partial, errors := s.errors + 1)
    else if p.flag == First || p.flag == Continuation then s.(partial := partial)
    else if s.expected != Some(|partial|) then s.(partial := partial, errors := s.errors + 1)
    else s.(partial := [], expected := None, frames := s.frames + 1, decoded := s.decoded + [partial])
  }

  function Step(octets: nat, s: State, p: Packet): State {
    if Begins(p) then
      if s.partial != [] then s.(errors := s.errors + 1)
      else if p.lost then s.(lost := s.lost + 1)
      else
        var begun := s.(gaps := if IsGap(s.sequence, p.sequence) then s.gaps + 1 else s.gaps,
                        sequence := Some(p.sequence), expected := Some(p.length));
        if p.length != octets then begun.(errors := s.errors + 1) else Extend(octets, begun, p)
    else if s.expected.None? then s.(errors := s.errors + 1)
    else Extend(octets, s, p)
  }

  function Run(octets: nat, s: State, ps: seq<Packet>): State
    decreases ps
  {
    if ps == [] then s else Run(octets, Step(octets, s, ps[0]), ps[1..])
  }

  class Capture {
    const octets: nat
    var partial: seq<Byte>
    var expected: Option<nat>
    var sequence: Option<nat>
    var frames: nat
    var lost: nat
    var gaps: nat
    var decoded: seq<seq<Byte>>
    var errors: nat
    var closed: bool

    constructor (octets: nat)
      ensures this.octets == octets && !closed && Value() == START
    {
      this.octets := octets;
      partial, expected, sequence, closed := [], None, None, false;
      frames, lost, gaps, decoded, errors := 0, 0, 0, [], 0;
    }

    ghost function Value(): State
      reads this
    {
      State(partial, expected, sequence, frames, lost, gaps, decoded, errors)
    }

    /** A closed capture takes nothing more; an open one takes the packet, and an error leaves it where the error
        arose. */
    method TakePacket(p: Packet)
      modifies this
      ensures closed == old(closed)
      ensures Value() == if closed then old(Value()) else Step(octets, old(Value()), p)
    {
      hide Extend;
      if closed { return; }
      if p.flag == First || p.flag == Complete {
        if partial != [] {
          errors := errors + 1;
          return;
        }
        if p.lost {
          lost := lost + 1;
          return;
        }
        if sequence.Some? && p.sequence != (sequence.value + 1) % 0x1_0000 {
          gaps := gaps + 1;
        }
        sequence := Some(p.sequence);
        expected := Some(p.length);
        if p.length != octets {
          errors := errors + 1;
          return;
        }
      } else if expected.None? {
        errors := errors + 1;
        return;
      }
      TakeFragment(p);
    }

    method TakeFragment(p: Packet)
      requires expected.Some?
      modifies this
      ensures closed == old(closed)
      ensures Value() == Extend(octets, old(Value()), p)
    {
      partial := partial + p.fragment;
      if |partial| > octets {
        errors := errors + 1;
        return;
      }
      if p.flag != Complete && p.flag != Last { return; }
      if |partial| != expected.value {
        errors := errors + 1;
        return;
      }
      decoded := decoded + [partial];
      partial := [];
      expected := None;
      frames := frames + 1;
    }
  }

  // ----- what a sender sends -----

  /** A unit in one or more packets, or a packet that says a unit was lost. */
  datatype Event = Sdu(first: Packet, rest: seq<Packet>) | Loss(packet: Packet)

  function Fragments(ps: seq<Packet>): seq<Byte> {
    if ps == [] then [] else ps[0].fragment + Fragments(ps[1..])
  }

  function Body(e: Event): seq<Byte>
    requires e.Sdu?
  {
    e.first.fragment + Fragments(e.rest)
  }

  /** Continuations and then a last fragment. */
  predicate IsTail(ps: seq<Packet>) {
    && ps != []
    && ps[|ps| - 1].flag == Last
    && forall i | 0 <= i < |ps| - 1 :: ps[i].flag == Continuation
  }

  predicate Valid(octets: nat, e: Event) {
    match e
    case Loss(p) => Begins(p) && p.lost
    case Sdu(first, rest) =>
      && !first.lost && first.length == octets && |Body(e)| == octets
      && ((first.flag == Complete && rest == []) || (first.flag == First && IsTail(rest)))
  }

  predicate AllValid(octets: nat, events: seq<Event>) {
    forall i | 0 <= i < |events| :: Valid(octets, events[i])
  }

  function PacketsOf(e: Event): (r: seq<Packet>)
    ensures r != []
  {
    match e
    case Loss(p) => [p]
    case Sdu(first, rest) => [first] + rest
  }

  function Packets(events: seq<Event>): seq<Packet> {
    if events == [] then [] else Packets(events[..|events| - 1]) + PacketsOf(events[|events| - 1])
  }

  /** The units that were sent, in order, and the numbers they carried. */
  function Bodies(events: seq<Event>): seq<seq<Byte>> {
    if events == [] then []
    else
      var e := events[|events| - 1];
      Bodies(events[..|events| - 1]) + if e.Sdu? then [Body(e)] else []
  }

  function Numbers(events: seq<Event>): seq<nat> {
    if events == [] then []
    else
      var e := events[|events| - 1];
      Numbers(events[..|events| - 1]) + if e.Sdu? then [e.first.sequence] else []
  }

  function LossesAt(events: seq<Event>): set<nat> {
    set i: nat | i < |events| && events[i].Loss?
  }

  /** The number at `i` does not follow the one before it, modulo 2^16. */
  predicate GapAt(numbers: seq<nat>, i: nat) {
    0 < i < |numbers| && numbers[i] != (numbers[i - 1] + 1) % 0x1_0000
  }

  function GapsAt(numbers: seq<nat>): set<nat> {
    set i: nat | i < |numbers| && GapAt(numbers, i)
  }

  function LastOf(numbers: seq<nat>): Option<nat> {
    if numbers == [] then None else Some(numbers[|numbers| - 1])
  }

  lemma {:induction false} LossesGrow(events: seq<Event>)
    requires events != []
    ensures var k := |events| - 1; |LossesAt(events)| == |LossesAt(events[..k])| + if events[k].Loss? then 1 else 0
  {
    var k := |events| - 1;
    var before := events[..k];
    assert forall i | 0 <= i < k :: before[i] == events[i];
    assert LossesAt(events) == LossesAt(before) + if events[k].Loss? then {k} else {};
  }

  lemma {:induction false} GapsGrow(numbers: seq<nat>, x: nat)
    ensures |GapsAt(numbers + [x])| == |GapsAt(numbers)| + if IsGap(LastOf(numbers), x) then 1 else 0
  {
    var longer := numbers + [x];
    forall i: nat | i < |numbers|
      ensures GapAt(longer, i) == GapAt(numbers, i)
    {
    }
    assert GapAt(longer, |numbers|) == IsGap(LastOf(numbers), x);
    assert GapsAt(longer) == GapsAt(numbers) + if IsGap(LastOf(numbers), x) then {|numbers|} else {};
  }

  // ----- every unit is delivered -----

  lemma {:induction false} RunJoin(octets: nat, s: State, a: seq<Packet>, b: seq<Packet>)
    ensures Run(octets, s, a + b) == Run(octets, Run(octets, s, a), b)
    decreases a
  {
    hide Step;
    if a == [] {
      assert a + b == b;
    } else {
      assert (a + b)[1..] == a[1..] + b;
      RunJoin(octets, Step(octets, s, a[0]), a[1..], b);
    }
  }

  /** What a whole unit adds. */
  function Taken(s: State, body: seq<Byte>): State {
    s.(partial := [], expected := None, frames := s.frames + 1, decoded := s.decoded + [body])
  }

  lemma {:induction false} TailRuns(octets: nat, s: State, ps: seq<Packet>)
    requires IsTail(ps) && s.expected == Some(octets) && |s.partial + Fragments(ps)| == octets
    ensures Run(octets, s, ps) == Taken(s, s.partial + Fragments(ps))
    decreases |ps|
  {
    var next := Step(octets, s, ps[0]);
    assert s.partial + (ps[0].fragment + Fragments(ps[1..])) == (s.partial + ps[0].fragment) + Fragments(ps[1..]);
    if |ps| == 1 {
      assert ps[1..] == [];
      assert s.partial + ps[0].fragment + [] == s.partial + ps[0].fragment;
    } else {
      assert next == s.(partial := s.partial + ps[0].fragment);
      TailRuns(octets, next, ps[1..]);
    }
  }

  lemma {:induction false} EventRuns(octets: nat, s: State, e: Event)
    requires s.partial == [] && s.expected == None && Valid(octets, e)
    ensures Run(octets, s, PacketsOf(e)) ==
            match e
            case Loss(_) => s.(lost := s.lost + 1)
            case Sdu(first, _) =>
              Taken(s, Body(e)).(sequence := Some(first.sequence),
                                 gaps := s.gaps + if IsGap(s.sequence, first.sequence) then 1 else 0)
  {
    var ps := PacketsOf(e);
    var next := Step(octets, s, ps[0]);
    if e.Loss? {
      assert ps[1..] == [];
    } else {
      assert ps[1..] == e.rest;
      assert [] + e.first.fragment == e.first.fragment;
      if e.first.flag == Complete {
        assert e.first.fragment + [] == e.first.fragment;
      } else {
        TailRuns(octets, next, e.rest);
      }
    }
  }

  /** However the units are cut into fragments and wherever units are lost between them, exactly the units sent are
      decoded, in order; the losses and the gaps are counted where they are; nothing is reported and nothing is left
      over. */
  lemma {:induction false} EveryUnitDelivered(octets: nat, events: seq<Event>)
    requires AllValid(octets, events)
    ensures Run(octets, START, Packets(events)) ==
            State([], None, LastOf(Numbers(events)), |Bodies(events)|, |LossesAt(events)|,
                  |GapsAt(Numbers(events))|, Bodies(events), 0)
    decreases |events|
  {
    hide Step, Valid, GapsAt, LossesAt, IsGap, Body;
    if events == [] {
      assert GapsAt([]) == {} && LossesAt([]) == {} by { NoneYet(); }
    } else {
      var k := |events| - 1;
      var before := events[..k];
      EveryUnitDelivered(octets, before);
      RunJoin(octets, START, Packets(before), PacketsOf(events[k]));
      EventRuns(octets, Run(octets, START, Packets(before)), events[k]);
      LossesGrow(events);
      if events[k].Loss? {
        assert Numbers(before) + [] == Numbers(before) && Bodies(before) + [] == Bodies(before);
      } else {
        GapsGrow(Numbers(before), events[k].first.sequence);
      }
    }
  }

  lemma {:induction false} NoneYet()
    ensures GapsAt([]) == {} && LossesAt([]) == {}
  {
  }

  // ----- and nothing else passes for one -----

  lemma {:induction false} ErrorsStay(octets: nat, s: State, ps: seq<Packet>)
    ensures Run(octets, s, ps).errors >= s.errors
    decreases ps
  {
    if ps != [] {
      ErrorsStay(octets, Step(octets, s, ps[0]), ps[1..]);
    }
  }

  /** A packet after which no unit is under way. */
  predicate Ends(p: Packet) {
    p.flag == Complete || p.flag == Last || (p.flag == First && p.lost)
  }

  predicate FollowsEnd(ps: seq<Packet>, i: nat) {
    0 < i < |ps| && Begins(ps[i]) ==> Ends(ps[i - 1])
  }

  /** No unit begins while another is under way, and none is at the end: a condition on flags alone. */
  predicate NoneOvertaken(ps: seq<Packet>) {
    && (forall i | 0 <= i < |ps| :: FollowsEnd(ps, i))
    && (ps != [] ==> Ends(ps[|ps| - 1]))
  }

  lemma {:induction false} LaterNotOvertaken(ps: seq<Packet>, k: nat)
    requires NoneOvertaken(ps) && k <= |ps|
    ensures NoneOvertaken(ps[k..])
  {
    var later := ps[k..];
    forall i | 0 <= i < |later|
      ensures FollowsEnd(later, i)
    {
      assert FollowsEnd(ps, k + i);
    }
  }

  /** A clean run in the middle of a unit goes on with a tail of that unit. */
  lemma {:induction false} FindTail(octets: nat, s: State, ps: seq<Packet>) returns (k: nat)
    requires ps != [] && !Ends(ps[0]) && NoneOvertaken(ps) && s.expected == Some(octets)
    requires Run(octets, s, ps[1..]).errors <= s.errors
    ensures 0 < k < |ps| && IsTail(ps[1..k + 1]) && |s.partial + Fragments(ps[1..k + 1])| == octets
    decreases |ps|
  {
    hide Step, NoneOvertaken, IsTail, Fragments;
    NotBegun(ps);
    var p := ps[1];
    var next := Step(octets, s, p);
    ErrorsStay(octets, next, ps[1..][1..]);
    CleanStep(octets, s, p);
    if p.flag == Last {
      k := 1;
      assert ps[1..2] == [p];
      LastTail(p);
    } else {
      LaterNotOvertaken(ps, 1);
      var more := FindTail(octets, next, ps[1..]);
      k := more + 1;
      var tail := ps[1..][1..more + 1];
      assert ps[1..k + 1] == [p] + tail;
      LongerTail(p, tail);
      assert next.partial + Fragments(tail) == s.partial + Fragments([p] + tail);
    }
  }

  lemma {:induction false} NotBegun(ps: seq<Packet>)
    requires ps != [] && !Ends(ps[0]) && NoneOvertaken(ps)
    ensures |ps| > 1 && !Begins(ps[1])
  {
    if |ps| > 1 {
      assert FollowsEnd(ps, 1);
    }
  }

  lemma {:induction false} CleanStep(octets: nat, s: State, p: Packet)
    requires s.expected == Some(octets) && !Begins(p) && Step(octets, s, p).errors <= s.errors
    ensures if p.flag == Last then |s.partial + p.fragment| == octets
            else Step(octets, s, p) == s.(partial := s.partial + p.fragment)
  {
  }

  lemma {:induction false} LastTail(p: Packet)
    requires p.flag == Last
    ensures IsTail([p]) && Fragments([p]) == p.fragment
  {
    assert p.fragment + Fragments([]) == p.fragment;
  }

  lemma {:induction false} LongerTail(p: Packet, tail: seq<Packet>)
    requires p.flag == Continuation && IsTail(tail)
    ensures IsTail([p] + tail) && Fragments([p] + tail) == p.fragment + Fragments(tail)
  {
    assert ([p] + tail)[1..] == tail;
  }

  /** The first event of a clean run that begins between units. */
  lemma {:induction false} FindEvent(octets: nat, s: State, ps: seq<Packet>) returns (e: Event)
    requires s.partial == [] && s.expected == None && ps != [] && NoneOvertaken(ps)
    requires Run(octets, s, ps).errors == s.errors
    ensures Valid(octets, e) && PacketsOf(e) <= ps
  {
    var p := ps[0];
    var next := Step(octets, s, p);
    ErrorsStay(octets, next, ps[1..]);
    assert Begins(p);
    assert [] + p.fragment == p.fragment;
    if p.lost {
      e := Loss(p);
    } else if p.flag == Complete {
      e := Sdu(p, []);
      assert p.fragment + [] == p.fragment;
    } else {
      var k := FindTail(octets, next, ps);
      e := Sdu(p, ps[1..k + 1]);
      assert PacketsOf(e) == ps[..k + 1];
    }
  }

  lemma {:induction false} FirstThen(e: Event, more: seq<Event>)
    ensures Packets([e] + more) == PacketsOf(e) + Packets(more)
    decreases |more|
  {
    hide PacketsOf;
    var events := [e] + more;
    var one := PacketsOf(e);
    if more == [] {
      assert events == [e] && [e][..0] == [];
      assert [] + one == one + [];
    } else {
      var k := |more| - 1;
      assert events[..k + 1] == [e] + more[..k] && events[k + 1] == more[k];
      FirstThen(e, more[..k]);
      var last := PacketsOf(more[k]);
      assert (one + Packets(more[..k])) + last == one + (Packets(more[..k]) + last);
    }
  }

  lemma {:induction false} FindEvents(octets: nat, s: State, ps: seq<Packet>) returns (events: seq<Event>)
    requires s.partial == [] && s.expected == None && NoneOvertaken(ps)
    requires Run(octets, s, ps).errors == s.errors
    ensures AllValid(octets, events) && Packets(events) == ps
    decreases |ps|
  {
    hide Step, Valid, Run, PacketsOf, NoneOvertaken;
    if ps == [] {
      events := [];
    } else {
      var e := FindEvent(octets, s, ps);
      var n := |PacketsOf(e)|;
      assert ps == PacketsOf(e) + ps[n..];
      RunJoin(octets, s, PacketsOf(e), ps[n..]);
      EventRuns(octets, s, e);
      LaterNotOvertaken(ps, n);
      var more := FindEvents(octets, Run(octets, s, PacketsOf(e)), ps[n..]);
      events := [e] + more;
      FirstThen(e, more);
    }
  }

  lemma {:induction false} EventNotOvertaken(octets: nat, e: Event)
    requires Valid(octets, e)
    ensures NoneOvertaken(PacketsOf(e))
  {
  }

  lemma {:induction false} JoinedNotOvertaken(a: seq<Packet>, b: seq<Packet>)
    requires NoneOvertaken(a) && NoneOvertaken(b)
    ensures NoneOvertaken(a + b)
  {
    var all := a + b;
    forall i | 0 <= i < |all|
      ensures FollowsEnd(all, i)
    {
      if i < |a| {
        assert FollowsEnd(a, i);
      } else {
        assert FollowsEnd(b, i - |a|);
      }
    }
  }

  lemma {:induction false} StreamNotOvertaken(octets: nat, events: seq<Event>)
    requires AllValid(octets, events)
    ensures NoneOvertaken(Packets(events))
    decreases |events|
  {
    hide Valid, PacketsOf, NoneOvertaken;
    if events == [] {
      assert NoneOvertaken([]) by { NothingOvertaken(); }
    } else {
      var k := |events| - 1;
      StreamNotOvertaken(octets, events[..k]);
      EventNotOvertaken(octets, events[k]);
      JoinedNotOvertaken(Packets(events[..k]), PacketsOf(events[k]));
    }
  }

  lemma {:induction false} NothingOvertaken()
    ensures NoneOvertaken([])
  {
  }

  ghost predicate IsStream(octets: nat, ps: seq<Packet>) {
    exists events :: AllValid(octets, events) && Packets(events) == ps
  }

  /** Packets are those of whole units and losses exactly when the capture reports nothing of them and their flags
      leave no unit unfinished. The second half is the sender's to keep: the capture does not see all of it. */
  lemma {:induction false} CleanIsStream(octets: nat, ps: seq<Packet>)
    ensures IsStream(octets, ps) <==> Run(octets, START, ps).errors == 0 && NoneOvertaken(ps)
  {
    hide NoneOvertaken;
    if IsStream(octets, ps) {
      var events :| AllValid(octets, events) && Packets(events) == ps;
      EveryUnitDelivered(octets, events);
      StreamNotOvertaken(octets, events);
    }
    if Run(octets, START, ps).errors == 0 && NoneOvertaken(ps) {
      var events := FindEvents(octets, START, ps);
    }
  }

  /** A first fragment that carries something. */
  predicate FirstsCarry(ps: seq<Packet>) {
    forall i | 0 <= i < |ps| :: ps[i].flag == First ==> ps[i].fragment != []
  }

  lemma {:induction false} CarryingStep(octets: nat, s: State, p: Packet)
    requires (s.expected.Some? <==> s.partial != []) && Step(octets, s, p).errors <= s.errors
    requires p.flag == First ==> p.fragment != []
    ensures var t := Step(octets, s, p);
            && (t.expected.Some? <==> t.partial != []) && (t.partial == [] <==> Ends(p))
            && (Begins(p) ==> s.partial == []) && t.errors == s.errors
  {
  }

  /** From a state that agrees with the first packet's flag, a clean run ending between units overtakes none. */
  lemma {:induction false} SeenFrom(octets: nat, s: State, ps: seq<Packet>)
    requires ps != [] && FirstsCarry(ps)
    requires (s.expected.Some? <==> s.partial != []) && (s.partial == [] <==> Ends(ps[0]))
    requires Run(octets, s, ps[1..]).errors <= s.errors && Run(octets, s, ps[1..]).partial == []
    ensures NoneOvertaken(ps)
    decreases |ps|
  {
    hide Step;
    if |ps| > 1 {
      var later := ps[1..];
      var next := Step(octets, s, later[0]);
      ErrorsStay(octets, next, later[1..]);
      CarryingStep(octets, s, later[0]);
      SeenFrom(octets, next, later);
      forall i | 0 <= i < |ps|
        ensures FollowsEnd(ps, i)
      {
        if i > 1 {
          assert FollowsEnd(later, i - 1);
        }
      }
    }
  }

  /** Where every first fragment carries something the capture does see all of it: reporting nothing and being left
      with nothing is enough. */
  lemma {:induction false} CarryingIsStream(octets: nat, ps: seq<Packet>)
    requires FirstsCarry(ps)
    ensures IsStream(octets, ps) <==> Run(octets, START, ps).errors == 0 && Run(octets, START, ps).partial == []
  {
    hide Step, NoneOvertaken, IsStream;
    CleanIsStream(octets, ps);
    var end := Run(octets, START, ps);
    if IsStream(octets, ps) {
      LeftWithNothing(octets, ps);
    } else if ps != [] && end.errors == 0 && end.partial == [] {
      ErrorsStay(octets, Step(octets, START, ps[0]), ps[1..]);
      CarryingStep(octets, START, ps[0]);
      SeenFrom(octets, Step(octets, START, ps[0]), ps);
    } else if ps == [] {
      NothingOvertaken();
    }
  }

  lemma {:induction false} LeftWithNothing(octets: nat, ps: seq<Packet>)
    requires IsStream(octets, ps)
    ensures Run(octets, START, ps).partial == []
  {
    var events :| AllValid(octets, events) && Packets(events) == ps;
    EveryUnitDelivered(octets, events);
  }

  /** An empty first fragment leaves nothing to be overtaken: the unit it began is dropped without a word. */
  lemma {:induction false} EmptyFirstIsDropped(octets: nat, sequence: nat, body: seq<Byte>)
    requires octets > 0 && |body| == octets
    ensures var ps := [Packet(First, false, sequence, octets, []),
                       Packet(Complete, false, (sequence + 1) % 0x1_0000, octets, body)];
            && Run(octets, START, ps).errors == 0 && Run(octets, START, ps).partial == []
            && Run(octets, START, ps).gaps == 0 && Run(octets, START, ps).decoded == [body]
            && !IsStream(octets, ps)
  {
    var a := Packet(First, false, sequence, octets, []);
    var b := Packet(Complete, false, (sequence + 1) % 0x1_0000, octets, body);
    var ps := [a, b];
    assert ps[1..] == [b] && [b][1..] == [];
    var one := Step(octets, START, a);
    assert one == START.(sequence := Some(sequence), expected := Some(octets));
    assert [] + body == body;
    assert Run(octets, START, ps) == Run(octets, one, [b]) == Step(octets, one, b);
    NotAStream(octets, a, b);
  }

  lemma {:induction false} FirstFits(octets: nat, e: Event, rest: seq<Packet>, a: Packet, b: Packet)
    requires Valid(octets, e) && PacketsOf(e) + rest == [a, b] && a.flag == First && !a.lost
    ensures b.flag != Complete
  {
    var one := PacketsOf(e);
    assert (one + rest)[0] == one[0] && [a, b][0] == a;
    assert e.Sdu? && |one| == 2;
    assert (one + rest)[1] == one[1] && [a, b][1] == b;
  }

  lemma {:induction false} NotAStream(octets: nat, a: Packet, b: Packet)
    requires a.flag == First && !a.lost && b.flag == Complete
    ensures !IsStream(octets, [a, b])
  {
    if IsStream(octets, [a, b]) {
      var events :| AllValid(octets, events) && Packets(events) == [a, b];
      FirstThen(events[0], events[1..]);
      assert [events[0]] + events[1..] == events;
      FirstFits(octets, events[0], Packets(events[1..]), a, b);
    }
  }
}
