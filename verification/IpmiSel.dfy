/** The management controller's system event log: record numbers, the walk over them, and the reservation that an
    addition cancels. */
module IpmiSel {
  import opened Bytes

  type Entry = r: seq<Byte> | |r| == 16 witness Zeros(16)

  /** What a record holds past its number, type and time. */
  type Tail = d: seq<Byte> | |d| == 9 witness Zeros(9)

  function Id(r: Entry): nat {
    FromLe(r[0..2])
  }

  /** A record: its number, its type, the time in four bytes, and nine bytes of data. */
  function EntryOf(id: nat, kind: Byte, now: nat, data: Tail): Entry {
    Le(id, 2) + [kind] + Le(now % WORD, 4) + data
  }

  datatype State = State(log: seq<Entry>, next: nat, reservation: nat, last: nat)

  const START := State([], 1, 1, 0)

  /** What reaches the controller: a record of its own, or a request with its data. */
  datatype Call =
    | Record(kind: Byte, now: nat, tail: Tail)
    | Event(now: nat, data: seq<Byte>)
    | Info
    | Reserve
    | Get(data: seq<Byte>)
    | Clear(data: seq<Byte>)

  /** A completion code and its data. */
  datatype Reply = Reply(code: Byte, data: seq<Byte>)

  /** The new state and the reply; no reply is an exception. */
  datatype Outcome = Outcome(state: State, reply: Option<Reply>)

  /** A record number takes two bytes; past them the addition fails before it changes anything. */
  function Add(s: State, kind: Byte, now: nat, data: Tail): Option<State> {
    if s.next > 0xFFFF then None
    else Some(State(s.log + [EntryOf(s.next, kind, now, data)], s.next + 1, s.reservation % 0xFFFF + 1, now % WORD))
  }

  function IndexOf(log: seq<Entry>, id: nat): (r: Option<nat>)
    ensures r.Some? ==> r.value < |log| && Id(log[r.value]) == id
    ensures r.Some? ==> forall i | 0 <= i < r.value :: Id(log[i]) != id
    ensures r.None? ==> forall i | 0 <= i < |log| :: Id(log[i]) != id
  {
    if log == [] then None
    else if Id(log[0]) == id then Some(0)
    else match IndexOf(log[1..], id)
      case None => None
      case Some(k) =>
        assert forall i | 1 <= i < k + 1 :: Id(log[1..][i - 1]) == Id(log[i]);
        Some(k + 1)
  }

  function GetEntry(s: State, id: nat): Reply {
    var at := if s.log == [] then None else if id == 0 then Some(0) else IndexOf(s.log, id);
    match at
    case None => Reply(0xCB, [])
    case Some(k) => Reply(0, Le(if k + 1 < |s.log| then Id(s.log[k + 1]) else 0xFFFF, 2) + s.log[k])
  }

  function Apply(s: State, call: Call): Outcome {
    match call
    case Record(kind, now, tail) =>
      (match Add(s, kind, now, tail)
       case None => Outcome(s, None)
       case Some(t) => Outcome(t, Some(Reply(0, []))))
    case Event(now, data) =>
      if |data| != 8 then Outcome(s, Some(Reply(0xC7, [])))
      else (match Add(s, 0x02, now, data[..1] + [0] + data[1..])
            case None => Outcome(s, None)
            case Some(t) => Outcome(t, Some(Reply(0, []))))
    case Info =>
      var room := 1024 - 16 * |s.log|;
      if room < 0 then Outcome(s, None)
      else Outcome(s, Some(Reply(0, [0x51] + Le(|s.log|, 2) + Le(room, 2) + Le(s.last, 4) + Zeros(4) + [0x02])))
    case Reserve => Outcome(s, Some(Reply(0, Le(s.reservation, 2))))
    case Get(data) =>
      if |data| < 4 then Outcome(s, None) else Outcome(s, Some(GetEntry(s, FromLe(data[2..4]))))
    case Clear(data) =>
      if |data| < 2 then Outcome(s, None)
      else if FromLe(data[0..2]) != s.reservation then Outcome(s, Some(Reply(0xC5, [])))
      else if |data| < 6 then Outcome(s, None)
      else Outcome(if data[5] == 0xAA then s.(log := []) else s, Some(Reply(0, [1])))
  }

  function Run(s: State, calls: seq<Call>): State {
    if calls == [] then s else Apply(Run(s, calls[..|calls| - 1]), calls[|calls| - 1]).state
  }

  class Bmc {
    var sel: seq<Entry>
    var nextSel: nat
    var selReservation: nat
    var lastAddition: nat

    constructor ()
      ensures Value() == START
    {
      sel, nextSel, selReservation, lastAddition := [], 1, 1, 0;
    }

    ghost function Value(): State
      reads this
    {
      State(sel, nextSel, selReservation, lastAddition)
    }

    method AddSel(kind: Byte, now: nat, data: Tail) returns (ok: bool)
      modifies this
      ensures ok == Add(old(Value()), kind, now, data).Some?
      ensures Value() == if ok then Add(old(Value()), kind, now, data).value else old(Value())
    {
      if nextSel > 0xFFFF { return false; }
      sel := sel + [EntryOf(nextSel, kind, now, data)];
      nextSel := nextSel + 1;
      selReservation := selReservation % 0xFFFF + 1;
      lastAddition := now % WORD;
      return true;
    }

    method Find(id: nat) returns (at: Option<nat>)
      ensures at == IndexOf(sel, id)
    {
      var i := 0;
      while i < |sel|
        invariant 0 <= i <= |sel|
        invariant forall j | 0 <= j < i :: Id(sel[j]) != id
      {
        if Id(sel[i]) == id { return Some(i); }
        i := i + 1;
      }
      return None;
    }

    method Answer(call: Call) returns (r: Option<Reply>)
      modifies this
      ensures Outcome(Value(), r) == Apply(old(Value()), call)
    {
      hide EntryOf, Id;
      match call
      case Record(kind, now, tail) =>
        var ok := AddSel(kind, now, tail);
        return if ok then Some(Reply(0, [])) else None;
      case Event(now, data) =>
        if |data| != 8 { return Some(Reply(0xC7, [])); }
        var ok := AddSel(0x02, now, data[..1] + [0] + data[1..]);
        return if ok then Some(Reply(0, [])) else None;
      case Info =>
        var room := 1024 - 16 * |sel|;
        if room < 0 { return None; }
        return Some(Reply(0, [0x51] + Le(|sel|, 2) + Le(room, 2) + Le(lastAddition, 4) + Zeros(4) + [0x02]));
      case Reserve =>
        return Some(Reply(0, Le(selReservation, 2)));
      case Get(data) =>
        if |data| < 4 { return None; }
        var id := FromLe(data[2..4]);
        if sel == [] { return Some(Reply(0xCB, [])); }
        var at := Some(0);
        if id != 0 { at := Find(id); }
        if at.None? { return Some(Reply(0xCB, [])); }
        var after := if at.value + 1 < |sel| then Id(sel[at.value + 1]) else 0xFFFF;
        return Some(Reply(0, Le(after, 2) + sel[at.value]));
      case Clear(data) =>
        if |data| < 2 { return None; }
        if FromLe(data[0..2]) != selReservation { return Some(Reply(0xC5, [])); }
        if |data| < 6 { return None; }
        if data[5] == 0xAA { sel := []; }
        return Some(Reply(0, [1]));
    }
  }

  // ----- what every run keeps -----

  /** Numbers rise through the log and stay below the next; the reservation counts the additions modulo 65535. */
  ghost predicate Inv(s: State) {
    && 1 <= s.next <= 0x1_0000
    && s.reservation == (s.next - 1) % 0xFFFF + 1
    && (forall i | 0 <= i < |s.log| :: 1 <= Id(s.log[i]) < s.next)
    && (forall i, j | 0 <= i < j < |s.log| :: Id(s.log[i]) < Id(s.log[j]))
  }

  lemma {:induction false} EntryId(id: nat, kind: Byte, now: nat, data: Tail)
    requires id <= 0xFFFF
    ensures Id(EntryOf(id, kind, now, data)) == id
  {
    Powers();
    LeRoundTrip(id, 2);
    assert EntryOf(id, kind, now, data)[0..2] == Le(id, 2);
  }

  lemma {:induction false} AddKeeps(s: State, kind: Byte, now: nat, data: Tail)
    requires Inv(s) && Add(s, kind, now, data).Some?
    ensures Inv(Add(s, kind, now, data).value)
  {
    hide Id, EntryOf;
    EntryId(s.next, kind, now, data);
    var t := Add(s, kind, now, data).value;
    assert forall i | 0 <= i < |s.log| :: t.log[i] == s.log[i];
    assert t.log[|s.log|] == EntryOf(s.next, kind, now, data);
    Cycle(s.next);
  }

  lemma {:induction false} Cycle(next: nat)
    requires next >= 1
    ensures ((next - 1) % 0xFFFF + 1) % 0xFFFF + 1 == next % 0xFFFF + 1
  {
  }

  lemma {:induction false} ApplyKeeps(s: State, call: Call)
    requires Inv(s)
    ensures Inv(Apply(s, call).state)
    ensures var t := Apply(s, call).state;
            || (t.next == s.next && t.reservation == s.reservation && (t.log == s.log || t.log == []))
            || (t.next == s.next + 1 && |t.log| == |s.log| + 1 && t.log[..|s.log|] == s.log
                && Id(t.log[|s.log|]) == s.next)
  {
    hide Id, EntryOf, GetEntry, Inv;
    match call
    case Record(kind, now, tail) =>
      Grows(s, kind, now, tail);
    case Event(now, data) =>
      if |data| == 8 { Grows(s, 0x02, now, data[..1] + [0] + data[1..]); }
    case Info =>
    case Reserve =>
    case Get(_) =>
    case Clear(_) =>
      Emptied(s);
  }

  lemma {:induction false} Grows(s: State, kind: Byte, now: nat, data: Tail)
    requires Inv(s)
    ensures match Add(s, kind, now, data)
            case None => true
            case Some(t) =>
              && Inv(t) && t.next == s.next + 1
              && |t.log| == |s.log| + 1 && t.log[..|s.log|] == s.log && Id(t.log[|s.log|]) == s.next
  {
    hide Id, EntryOf;
    if Add(s, kind, now, data).Some? {
      AddKeeps(s, kind, now, data);
      EntryId(s.next, kind, now, data);
    }
  }

  lemma {:induction false} Emptied(s: State)
    requires Inv(s)
    ensures Inv(s.(log := []))
  {
  }

  /** Over every run the invariant holds, the next number never falls, and a number once given out is never given
      again: what the log holds then it held before, or is numbered from the earlier next on. */
  lemma {:induction false} RunKeeps(s: State, calls: seq<Call>)
    requires Inv(s)
    ensures var t := Run(s, calls);
            && Inv(t) && t.next >= s.next
            && (forall r | r in t.log :: r in s.log || Id(r) >= s.next)
            && (t.next == s.next ==> t.reservation == s.reservation)
    decreases |calls|
  {
    hide Id, Apply, Inv;
    if calls != [] {
      var k := |calls| - 1;
      var before := Run(s, calls[..k]);
      RunKeeps(s, calls[..k]);
      ApplyKeeps(before, calls[k]);
      var t := Run(s, calls);
      forall r | r in t.log
        ensures r in s.log || Id(r) >= s.next
      {
        if t.next != before.next && r != t.log[|before.log|] {
          assert r in t.log[..|before.log|];
        }
      }
    }
  }

  lemma {:induction false} StartHolds()
    ensures Inv(START)
  {
  }

  // ----- the walk over the log -----

  /** The records that a reader gets who asks for `id` and then for each next number until 0xFFFF, if at most `n`
      requests do it. */
  function Chain(s: State, id: nat, n: nat): Option<seq<Entry>>
    decreases n
  {
    if n == 0 then None
    else
      var reply := GetEntry(s, id);
      if reply.code != 0 || |reply.data| != 18 then None
      else
        var after := FromLe(reply.data[0..2]);
        var entry: Entry := reply.data[2..];
        if after == 0xFFFF then Some([entry])
        else
          var more :- Chain(s, after, n - 1);
          Some([entry] + more)
  }

  function NextId(s: State, k: nat): nat
    requires k < |s.log|
  {
    if k + 1 < |s.log| then Id(s.log[k + 1]) else 0xFFFF
  }

  /** Asking for the number of the entry at `k`, or for 0 where `k` is the first, gives that entry. */
  lemma {:induction false} GetAt(s: State, id: nat, k: nat)
    requires Inv(s) && k < |s.log| && (id == Id(s.log[k]) || (id == 0 && k == 0))
    ensures GetEntry(s, id) == Reply(0, Le(NextId(s, k), 2) + s.log[k])
    ensures var data := GetEntry(s, id).data;
            |data| == 18 && FromLe(data[0..2]) == NextId(s, k) && data[2..] == s.log[k]
  {
    hide Id, Le, FromLe;
    if id != 0 {
      var at := IndexOf(s.log, id);
      assert at.Some?;
      assert at.value == k;
    }
    NumberFits(s, k);
    Powers();
    LeRoundTrip(NextId(s, k), 2);
    var data := Le(NextId(s, k), 2) + s.log[k];
    assert data[0..2] == Le(NextId(s, k), 2) && data[2..] == s.log[k];
  }

  lemma {:induction false} NumberFits(s: State, k: nat)
    requires Inv(s) && k < |s.log|
    ensures NextId(s, k) <= 0xFFFF
  {
  }

  /** The last number the log holds is the one that ends the walk. */
  predicate EndsAtMark(log: seq<Entry>) {
    log != [] && Id(log[|log| - 1]) == 0xFFFF
  }

  /** The walk from any entry: it reads to the end, except that it stops short of an entry numbered 0xFFFF. */
  lemma {:induction false} ChainFrom(s: State, id: nat, k: nat)
    requires Inv(s) && k < |s.log| && (id == Id(s.log[k]) || (id == 0 && k == 0))
    ensures EndsAtMark(s.log) && k < |s.log| - 1 ==> Chain(s, id, |s.log| - k) == Some(s.log[k..|s.log| - 1])
    ensures !EndsAtMark(s.log) || k == |s.log| - 1 ==> Chain(s, id, |s.log| - k) == Some(s.log[k..])
    decreases |s.log| - k
  {
    hide Id, Chain, Inv, EndsAtMark, NextId;
    ChainStep(s, id, k, |s.log| - k);
    NextOf(s, k);
    if k + 1 == |s.log| {
      assert s.log[k..] == [s.log[k]];
    } else if k + 2 == |s.log| && EndsAtMark(s.log) {
      assert s.log[k..k + 1] == [s.log[k]];
    } else {
      NotMark(s, k + 1);
      ChainFrom(s, NextId(s, k), k + 1);
      assert s.log[k..] == [s.log[k]] + s.log[k + 1..];
      assert s.log[k..|s.log| - 1] == [s.log[k]] + s.log[k + 1..|s.log| - 1];
    }
  }

  lemma {:induction false} ChainStep(s: State, id: nat, k: nat, n: nat)
    requires Inv(s) && k < |s.log| && (id == Id(s.log[k]) || (id == 0 && k == 0)) && n > 0
    ensures Chain(s, id, n) ==
            if NextId(s, k) == 0xFFFF then Some([s.log[k]])
            else match Chain(s, NextId(s, k), n - 1)
              case None => None
              case Some(more) => Some([s.log[k]] + more)
  {
    hide Id, GetEntry, FromLe, Inv, NextId;
    GetAt(s, id, k);
  }

  lemma {:induction false} NextOf(s: State, k: nat)
    requires k < |s.log|
    ensures k + 1 < |s.log| ==> NextId(s, k) == Id(s.log[k + 1])
    ensures k + 1 == |s.log| ==> NextId(s, k) == 0xFFFF
    ensures k + 2 == |s.log| && EndsAtMark(s.log) ==> NextId(s, k) == 0xFFFF
  {
  }

  lemma {:induction false} NotMark(s: State, k: nat)
    requires Inv(s) && k < |s.log| && (k == |s.log| - 1 ==> !EndsAtMark(s.log))
    ensures Id(s.log[k]) != 0xFFFF
  {
    if k < |s.log| - 1 {
      assert Id(s.log[k]) < Id(s.log[|s.log| - 1]);
    }
  }

  lemma {:induction false} WalkReadsLog(s: State)
    requires Inv(s) && s.log != []
    ensures Chain(s, 0, |s.log|) == Some(s.log) <==> !EndsAtMark(s.log) || |s.log| == 1
  {
    hide Chain, Inv, EndsAtMark;
    ChainFrom(s, 0, 0);
    assert s.log[0..] == s.log;
    assert |s.log[0..|s.log| - 1]| < |s.log|;
  }

  /** After every run, following the next numbers from 0 reads a log that is not empty once, in order, to its end,
      exactly when its last entry is not numbered 0xFFFF or is its only one - which no log is before the 65535th
      addition. */
  lemma {:induction false} EveryWalkReadsLog(calls: seq<Call>)
    requires Run(START, calls).log != []
    ensures var s := Run(START, calls);
            && (Chain(s, 0, |s.log|) == Some(s.log) <==> !EndsAtMark(s.log) || |s.log| == 1)
            && (s.next <= 0xFFFF ==> !EndsAtMark(s.log))
  {
    hide Chain, Run, EndsAtMark, Inv;
    StartHolds();
    RunKeeps(START, calls);
    var s := Run(START, calls);
    WalkReadsLog(s);
    if s.next <= 0xFFFF { EarlyLog(s); }
  }

  lemma {:induction false} EarlyLog(s: State)
    requires Inv(s) && s.next <= 0xFFFF
    ensures !EndsAtMark(s.log)
  {
  }

  // ----- the reservation -----

  /** A reservation taken before an addition is refused after it, with the log untouched, whatever came between - but
      for the one that was taken before the first record of all and is used after the last that can be numbered, where
      the count has come round. */
  lemma {:induction false} StaleRefused(s: State, calls: seq<Call>, data: seq<Byte>)
    requires Inv(s) && Run(s, calls).next > s.next
    requires |data| >= 2 && FromLe(data[0..2]) == s.reservation
    ensures var t := Run(s, calls);
            Apply(t, Clear(data)) == Outcome(t, Some(Reply(0xC5, []))) <==> !(s.next == 1 && t.next == 0x1_0000)
  {
    hide Run, Id, FromLe;
    RunKeeps(s, calls);
    var t := Run(s, calls);
    SameReservation(s, t);
  }

  lemma {:induction false} SameReservation(s: State, t: State)
    requires Inv(s) && Inv(t) && s.next < t.next
    ensures s.reservation == t.reservation <==> s.next == 1 && t.next == 0x1_0000
  {
  }

  /** The reservation a request gives is the one a clear is compared with: with no addition between, the clear is
      obeyed, and the numbers go on from where they were. */
  lemma {:induction false} FreshObeyed(s: State, calls: seq<Call>, data: seq<Byte>)
    requires Inv(s) && Run(s, calls).next == s.next && |data| >= 6 && data[5] == 0xAA
    requires Apply(s, Reserve).reply == Some(Reply(0, data[0..2]))
    ensures var t := Run(s, calls); Apply(t, Clear(data)) == Outcome(t.(log := []), Some(Reply(0, [1])))
  {
    hide Run, Id;
    RunKeeps(s, calls);
    Powers();
    LeRoundTrip(s.reservation, 2);
  }

  // ----- the log's size -----

  /** The size reply has no room below zero: it fails exactly when the log holds more than 64 records, which additions
      do not stop at. */
  lemma {:induction false} InfoFails(s: State)
    ensures Apply(s, Info).reply.None? <==> |s.log| > 64
    ensures Apply(s, Info).reply.Some? ==>
              && FromLe(Apply(s, Info).reply.value.data[1..3]) == |s.log|
              && FromLe(Apply(s, Info).reply.value.data[3..5]) + 16 * |s.log| == 1024
  {
    hide Le, FromLe;
    if |s.log| <= 64 {
      Powers();
      var n, room := |s.log|, 1024 - 16 * |s.log|;
      LeRoundTrip(n, 2);
      LeRoundTrip(room, 2);
      var data := Apply(s, Info).reply.value.data;
      assert data[1..3] == Le(n, 2) && data[3..5] == Le(room, 2);
    }
  }

  // ----- where the exceptions are reached -----

  const NOTHING: Tail := Zeros(9)

  function Recorded(n: nat): (r: seq<Call>)
    ensures |r| == n && forall i | 0 <= i < n :: r[i] == Record(0x02, 0, NOTHING)
  {
    seq(n, _ => Record(0x02, 0, NOTHING))
  }

  /** Additions alone, as many as there are numbers: each is made, numbered from 1 on. */
  lemma {:induction false} Additions(n: nat)
    requires n <= 0xFFFF
    ensures var s := Run(START, Recorded(n));
            && s.next == n + 1 && |s.log| == n && s.reservation == n % 0xFFFF + 1
            && forall i | 0 <= i < n :: Id(s.log[i]) == i + 1
  {
    hide Id, EntryOf, Apply;
    if n > 0 {
      Additions(n - 1);
      assert Recorded(n)[..n - 1] == Recorded(n - 1);
      OneAddition(Run(START, Recorded(n - 1)));
    }
  }

  lemma {:induction false} OneAddition(s: State)
    requires s.next <= 0xFFFF
    ensures var t := Apply(s, Record(0x02, 0, NOTHING)).state;
            && t.next == s.next + 1 && t.reservation == s.reservation % 0xFFFF + 1
            && |t.log| == |s.log| + 1 && t.log[..|s.log|] == s.log && Id(t.log[|s.log|]) == s.next
  {
    hide Id, EntryOf;
    EntryId(s.next, 0x02, 0, NOTHING);
  }

  /** After 65 additions the size reply fails. */
  lemma {:induction false} InfoDoesFail()
    ensures Apply(Run(START, Recorded(65)), Info).reply == None
  {
    hide Run, Apply;
    Additions(65);
    InfoFails(Run(START, Recorded(65)));
  }

  /** After 65535 additions the walk stops short of the last record, */
  lemma {:induction false} WalkDoesStopShort()
    ensures var s := Run(START, Recorded(0xFFFF)); EndsAtMark(s.log) && Chain(s, 0, |s.log|) != Some(s.log)
  {
    hide Run, Chain, Id, Recorded;
    var s := Run(START, Recorded(0xFFFF));
    Additions(0xFFFF);
    assert Id(s.log[0xFFFE]) == 0xFFFF;
    EveryWalkReadsLog(Recorded(0xFFFF));
  }

  /** the first reservation of all is not refused, though every record was added since, */
  lemma {:induction false} StaleIsObeyed(data: seq<Byte>)
    requires |data| >= 2 && FromLe(data[0..2]) == START.reservation
    ensures var s := Run(START, Recorded(0xFFFF)); Apply(s, Clear(data)) != Outcome(s, Some(Reply(0xC5, [])))
  {
    hide Run, Apply, FromLe, Recorded, Id;
    Additions(0xFFFF);
    StartHolds();
    StaleRefused(START, Recorded(0xFFFF), data);
  }

  /** and a further addition fails and changes nothing. */
  lemma {:induction false} AdditionDoesFail(kind: Byte, now: nat, tail: Tail)
    ensures var s := Run(START, Recorded(0xFFFF)); Apply(s, Record(kind, now, tail)) == Outcome(s, None)
  {
    hide Run, Recorded, Id, EntryOf;
    Additions(0xFFFF);
  }
}
