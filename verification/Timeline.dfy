/** One thread's state over time, from its switch and wake records. */
module Timeline {

  datatype State = Running | Blocked | Runnable

  datatype Reason = Waits | Preempted | Yielded | Exited

  datatype Kind = In | Out(reason: Reason) | Wake | Site

  datatype Event = Event(cycles: int, kind: Kind)

  function NextState(state: State, kind: Kind): State {
    match kind
    case In => Running
    case Out(reason) => if reason.Waits? || reason.Exited? then Blocked else Runnable
    case Wake => if state.Running? then state else Runnable
    case Site => state
  }

  /** The state before the first record, inferred from it. */
  function Initial(events: seq<Event>): State {
    if events == [] then Running
    else match events[0].kind
      case In => Runnable
      case Wake => Blocked
      case _ => Running
  }

  function Transitions(events: seq<Event>): seq<Event> {
    if events == [] then []
    else (if events[0].kind.Site? then [] else [events[0]]) + Transitions(events[1..])
  }

  predicate Sorted(events: seq<Event>) {
    forall i, j | 0 <= i < j < |events| :: events[i].cycles <= events[j].cycles
  }

  lemma {:induction false} TransitionsSorted(events: seq<Event>)
    requires Sorted(events)
    ensures Sorted(Transitions(events))
    ensures forall e | e in Transitions(events) :: e in events
  {
    if events != [] {
      assert forall e | e in events[1..] :: e in events;
      TransitionsSorted(events[1..]);
      forall e | e in events ensures events[0].cycles <= e.cycles {
        var i :| 0 <= i < |events| && events[i] == e;
      }
      var rest := Transitions(events[1..]);
      forall i | 0 <= i < |rest| ensures events[0].cycles <= rest[i].cycles {
        assert rest[i] in rest;
      }
    }
  }

  /** The transitions are in order of time. */
  datatype Line = Line(initial: State, transitions: seq<Event>)

  function LineOf(events: seq<Event>): Line {
    Line(Initial(events), Transitions(events))
  }

  // ----- the state machine, cycle by cycle -----

  /** The state during cycle `t`: every transition up to and at `t` has been taken. */
  function StateFrom(state: State, transitions: seq<Event>, t: int): State
    decreases transitions
  {
    if transitions == [] || transitions[0].cycles > t then state
    else StateFrom(NextState(state, transitions[0].kind), transitions[1..], t)
  }

  function StateAt(line: Line, t: int): State {
    StateFrom(line.initial, line.transitions, t)
  }

  /** How many of the cycles `t0 .. t1 - 1` the machine is in `s`. */
  function Cycles(line: Line, s: State, t0: int, t1: int): nat
    decreases t1 - t0
  {
    if t0 >= t1 then 0 else Cycles(line, s, t0, t1 - 1) + if StateAt(line, t1 - 1) == s then 1 else 0
  }

  /** Each cycle is in exactly one state. */
  lemma {:induction false} CyclesSum(line: Line, t0: int, t1: int)
    ensures Cycles(line, Running, t0, t1) + Cycles(line, Blocked, t0, t1) + Cycles(line, Runnable, t0, t1)
         == if t0 <= t1 then t1 - t0 else 0
    decreases t1 - t0
  {
    hide StateAt;
    if t0 < t1 {
      CyclesSum(line, t0, t1 - 1);
    }
  }

  lemma {:induction false} CyclesAdd(line: Line, s: State, t0: int, t1: int, t2: int)
    requires t0 <= t1 <= t2
    ensures Cycles(line, s, t0, t2) == Cycles(line, s, t0, t1) + Cycles(line, s, t1, t2)
    decreases t2 - t1
  {
    hide StateAt;
    if t1 < t2 {
      CyclesAdd(line, s, t0, t1, t2 - 1);
    }
  }

  function Fold(state: State, transitions: seq<Event>): State {
    if transitions == [] then state
    else NextState(Fold(state, transitions[..|transitions| - 1]), transitions[|transitions| - 1].kind)
  }

  lemma {:induction false} FoldFront(state: State, e: Event, rest: seq<Event>)
    ensures Fold(state, [e] + rest) == Fold(NextState(state, e.kind), rest)
  {
    if rest == [] {
      assert [e] + rest == [e] && [e][..0] == [];
      assert Fold(state, [e]) == NextState(Fold(state, []), e.kind);
    } else {
      assert ([e] + rest)[..|rest|] == [e] + rest[..|rest| - 1];
      FoldFront(state, e, rest[..|rest| - 1]);
    }
  }

  /** Between two transitions the state is what the transitions before give. */
  lemma {:induction false} StateBetween(state: State, transitions: seq<Event>, i: nat, t: int)
    requires i <= |transitions| && (i < |transitions| ==> transitions[i].cycles > t)
    requires forall j | 0 <= j < i :: transitions[j].cycles <= t
    ensures StateFrom(state, transitions, t) == Fold(state, transitions[..i])
    decreases i
  {
    if i == 0 {
      assert transitions[..0] == [];
    } else {
      var e := transitions[0];
      assert transitions[..i] == [e] + transitions[1..][..i - 1];
      FoldFront(state, e, transitions[1..][..i - 1]);
      StateBetween(NextState(state, e.kind), transitions[1..], i - 1, t);
    }
  }

  lemma {:induction false} CyclesConstant(line: Line, s: State, t0: int, t1: int, state: State)
    requires t0 <= t1 && forall t | t0 <= t < t1 :: StateAt(line, t) == state
    ensures Cycles(line, s, t0, t1) == if s == state then t1 - t0 else 0
    decreases t1 - t0
  {
    hide StateAt;
    if t0 < t1 {
      CyclesConstant(line, s, t0, t1 - 1, state);
    }
  }

  /** A stretch after the first `i` transitions and before the next. */
  lemma {:induction false} Stretch(line: Line, i: nat, t0: int, a: int, b: int)
    requires i <= |line.transitions| && t0 <= a <= b
    requires forall j | 0 <= j < i :: line.transitions[j].cycles <= a
    requires i < |line.transitions| ==> b <= line.transitions[i].cycles
    ensures var state := Fold(line.initial, line.transitions[..i]);
            && Cycles(line, Running, t0, b) == Cycles(line, Running, t0, a) + (if state.Running? then b - a else 0)
            && Cycles(line, Blocked, t0, b) == Cycles(line, Blocked, t0, a) + (if state.Blocked? then b - a else 0)
            && Cycles(line, Runnable, t0, b) == Cycles(line, Runnable, t0, a) + (if state.Runnable? then b - a else 0)
  {
    var state := Fold(line.initial, line.transitions[..i]);
    forall t | a <= t < b ensures StateAt(line, t) == state {
      StateBetween(line.initial, line.transitions, i, t);
    }
    forall s ensures Cycles(line, s, t0, b) == Cycles(line, s, t0, a) + (if s == state then b - a else 0) {
      CyclesAdd(line, s, t0, a, b);
      CyclesConstant(line, s, a, b, state);
    }
  }

  /** The cycles of `[t0, t1]` in each state, as the state machine spends them. */
  method Split(line: Line, t0: int, t1: int) returns (running: int, blocked: int, runnable: int)
    requires Sorted(line.transitions)
    ensures running == Cycles(line, Running, t0, t1)
    ensures blocked == Cycles(line, Blocked, t0, t1)
    ensures runnable == Cycles(line, Runnable, t0, t1)
  {
    hide Fold, Cycles, NextState;
    var state, cursor := line.initial, t0;
    running, blocked, runnable := 0, 0, 0;
    NoneBackwards(line, t0, t0);
    FoldNone(line.initial);
    assert line.transitions[..0] == [];
    var i := 0;
    while i < |line.transitions|
      invariant 0 <= i <= |line.transitions|
      invariant cursor == t0 || (i > 0 && t0 < cursor == line.transitions[i - 1].cycles < t1)
      invariant forall j | 0 <= j < i :: line.transitions[j].cycles <= cursor
      invariant state == Fold(line.initial, line.transitions[..i])
      invariant running == Cycles(line, Running, t0, cursor)
      invariant blocked == Cycles(line, Blocked, t0, cursor)
      invariant runnable == Cycles(line, Runnable, t0, cursor)
    {
      var e := line.transitions[i];
      FoldNext(line.initial, line.transitions, i);
      if t0 < e.cycles {
        if e.cycles >= t1 { break; }
        Stretch(line, i, t0, cursor, e.cycles);
        match state {
          case Running => running := running + (e.cycles - cursor);
          case Blocked => blocked := blocked + (e.cycles - cursor);
          case Runnable => runnable := runnable + (e.cycles - cursor);
        }
        cursor := e.cycles;
      }
      state := NextState(state, e.kind);
      i := i + 1;
    }
    if cursor <= t1 {
      Stretch(line, i, t0, cursor, t1);
      match state {
        case Running => running := running + (t1 - cursor);
        case Blocked => blocked := blocked + (t1 - cursor);
        case Runnable => runnable := runnable + (t1 - cursor);
      }
    } else {
      NoneBackwards(line, t0, t1);
    }
  }

  lemma {:induction false} NoneBackwards(line: Line, t0: int, t1: int)
    requires t1 <= t0
    ensures Cycles(line, Running, t0, t1) == Cycles(line, Blocked, t0, t1) == Cycles(line, Runnable, t0, t1) == 0
  {
  }

  lemma {:induction false} FoldNone(state: State)
    ensures Fold(state, []) == state
  {
  }

  lemma {:induction false} FoldNext(state: State, transitions: seq<Event>, i: nat)
    requires i < |transitions|
    ensures Fold(state, transitions[..i + 1]) == NextState(Fold(state, transitions[..i]), transitions[i].kind)
  {
    assert transitions[..i + 1][..i] == transitions[..i];
  }

  // ----- the intervals on a CPU -----

  datatype Bound = Ever | At(cycles: int)

  /** `[begin, end)`; `Ever` is the start, or the end, of all time. */
  datatype Interval = Interval(begin: Bound, end: Bound)

  function IntervalsFrom(state: State, begin: Bound, transitions: seq<Event>): seq<Interval>
    decreases transitions
  {
    if transitions == [] then (if state.Running? then [Interval(begin, Ever)] else [])
    else
      var e := transitions[0];
      var after := NextState(state, e.kind);
      if !state.Running? && after.Running? then IntervalsFrom(after, At(e.cycles), transitions[1..])
      else if state.Running? && !after.Running? then
        [Interval(begin, At(e.cycles))] + IntervalsFrom(after, Ever, transitions[1..])
      else IntervalsFrom(after, begin, transitions[1..])
  }

  method RunningIntervals(line: Line) returns (intervals: seq<Interval>)
    ensures intervals == IntervalsFrom(line.initial, Ever, line.transitions)
  {
    hide NextState;
    intervals := [];
    var state, begin := line.initial, Ever;
    assert line.transitions[0..] == line.transitions;
    for i := 0 to |line.transitions|
      invariant intervals + IntervalsFrom(state, begin, line.transitions[i..])
             == IntervalsFrom(line.initial, Ever, line.transitions)
    {
      var e := line.transitions[i];
      assert line.transitions[i..][0] == e && line.transitions[i..][1..] == line.transitions[i + 1..];
      var after := NextState(state, e.kind);
      if !state.Running? && after.Running? {
        begin := At(e.cycles);
      } else if state.Running? && !after.Running? {
        intervals := intervals + [Interval(begin, At(e.cycles))];
        begin := Ever;
      }
      state := after;
    }
    if state.Running? {
      intervals := intervals + [Interval(begin, Ever)];
    }
  }

  predicate Contains(iv: Interval, t: int) {
    (iv.begin.At? ==> iv.begin.cycles <= t) && (iv.end.At? ==> t < iv.end.cycles)
  }

  /** The length `[t0, t1]` has in common with an interval. */
  function Overlap(iv: Interval, t0: int, t1: int): nat {
    var lo := if iv.begin.At? && iv.begin.cycles > t0 then iv.begin.cycles else t0;
    var hi := if iv.end.At? && iv.end.cycles < t1 then iv.end.cycles else t1;
    if lo < hi then hi - lo else 0
  }

  function TotalOverlap(ivs: seq<Interval>, t0: int, t1: int): nat {
    if ivs == [] then 0 else Overlap(ivs[0], t0, t1) + TotalOverlap(ivs[1..], t0, t1)
  }

  function Containing(ivs: seq<Interval>, t: int): nat {
    if ivs == [] then 0 else (if Contains(ivs[0], t) then 1 else 0) + Containing(ivs[1..], t)
  }

  lemma {:induction false} OverlapGrows(ivs: seq<Interval>, t0: int, t1: int)
    requires t0 <= t1
    ensures TotalOverlap(ivs, t0, t1 + 1) == TotalOverlap(ivs, t0, t1) + Containing(ivs, t1)
  {
    if ivs != [] {
      OverlapGrows(ivs[1..], t0, t1);
    }
  }

  lemma {:induction false} NoOverlap(ivs: seq<Interval>, t0: int, t1: int)
    requires t1 <= t0
    ensures TotalOverlap(ivs, t0, t1) == 0
  {
    if ivs != [] {
      NoOverlap(ivs[1..], t0, t1);
    }
  }

  /** A cycle is inside exactly one interval when the thread is running during it, and inside none otherwise. */
  lemma {:induction false} InsideOne(state: State, begin: Bound, transitions: seq<Event>, t: int)
    requires Sorted(transitions)
    requires state.Running? && begin.At? ==> forall i | 0 <= i < |transitions| :: begin.cycles <= transitions[i].cycles
    ensures Containing(IntervalsFrom(state, begin, transitions), t)
         == if state.Running? && begin.At? && t < begin.cycles then 0
            else if StateFrom(state, transitions, t).Running? then 1 else 0
    decreases transitions
  {
    hide NextState;
    if transitions != [] {
      var e, rest := transitions[0], transitions[1..];
      var after := NextState(state, e.kind);
      if t < e.cycles {
        Early(after, rest, t);
      }
      if !state.Running? && after.Running? {
        InsideOne(after, At(e.cycles), rest, t);
      } else if state.Running? && !after.Running? {
        InsideOne(after, Ever, rest, t);
        var iv := Interval(begin, At(e.cycles));
        var more := IntervalsFrom(after, Ever, rest);
        assert ([iv] + more)[0] == iv && ([iv] + more)[1..] == more;
      } else {
        InsideOne(after, begin, rest, t);
      }
    }
  }

  lemma {:induction false} Early(state: State, transitions: seq<Event>, t: int)
    requires forall i | 0 <= i < |transitions| :: t < transitions[i].cycles
    ensures StateFrom(state, transitions, t) == state
  {
  }

  /** The running share of any stretch is its total overlap with the running intervals. */
  lemma {:induction false} RunningIsOverlap(line: Line, t0: int, t1: int)
    requires Sorted(line.transitions)
    ensures Cycles(line, Running, t0, t1) == TotalOverlap(IntervalsFrom(line.initial, Ever, line.transitions), t0, t1)
    decreases t1 - t0
  {
    hide IntervalsFrom, StateFrom;
    var ivs := IntervalsFrom(line.initial, Ever, line.transitions);
    if t0 < t1 {
      RunningIsOverlap(line, t0, t1 - 1);
      OverlapGrows(ivs, t0, t1 - 1);
      InsideOne(line.initial, Ever, line.transitions, t1 - 1);
    } else {
      NoOverlap(ivs, t0, t1);
    }
  }
}
