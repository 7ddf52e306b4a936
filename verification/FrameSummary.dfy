/** The account: every frame of a drain, each term's work and wait, and the means per shape. */
module FrameSummary {
  import opened Bytes
  import opened Timeline
  import opened FrameAccount
  import opened FrameOrder

  // ----- timelines from records -----

  function ReasonOf(kind: string): Option<Reason> {
    if kind == "blocked" then Some(Waits)
    else if kind == "preempted" then Some(Preempted)
    else if kind == "yielded" then Some(Yielded)
    else if kind == "exited" then Some(Exited)
    else None
  }

  /** What one record says about a thread. A switch names the outgoing thread as its value and the incoming one as its
      thread; thread 0 is nobody. */
  function EventsIn(r: Record, thread: nat): seq<Event> {
    if r.tag == "switch" && ReasonOf(r.kind).Some? then
      (if r.value == thread != 0 then [Event(r.cycles, Out(ReasonOf(r.kind).value))] else [])
      + (if r.thread == thread != 0 then [Event(r.cycles, In)] else [])
    else if r.tag == "wake" && r.kind in ["message", "deadline", "other"] then
      if r.thread == thread then [Event(r.cycles, Wake)] else []
    else if r.kind == "site" && r.thread == thread then [Event(r.cycles, Site)]
    else []
  }

  function EventsOf(records: seq<Record>, thread: nat): seq<Event> {
    if records == [] then [] else EventsIn(records[0], thread) + EventsOf(records[1..], thread)
  }

  predicate InOrder(records: seq<Record>) {
    forall i, j | 0 <= i < j < |records| :: records[i].cycles <= records[j].cycles
  }

  lemma {:induction false} EventsAfter(records: seq<Record>, thread: nat, t: int)
    requires forall i | 0 <= i < |records| :: t <= records[i].cycles
    ensures forall i | 0 <= i < |EventsOf(records, thread)| :: t <= EventsOf(records, thread)[i].cycles
  {
    hide ReasonOf;
    if records != [] {
      EventsAfter(records[1..], thread, t);
    }
  }

  lemma {:induction false} EventsSorted(records: seq<Record>, thread: nat)
    requires InOrder(records)
    ensures Sorted(EventsOf(records, thread))
  {
    hide ReasonOf;
    if records != [] {
      EventsSorted(records[1..], thread);
      EventsAfter(records[1..], thread, records[0].cycles);
      var own := EventsIn(records[0], thread);
      assert forall i | 0 <= i < |own| :: own[i].cycles == records[0].cycles;
    }
  }

  // ----- work and wait -----

  /** The cycles a term's thread ran, was blocked and was runnable, together. */
  function Split3(line: Line, t: Term): nat {
    Cycles(line, Running, t.t0, t.t1) + Cycles(line, Blocked, t.t0, t.t1) + Cycles(line, Runnable, t.t0, t.t1)
  }

  function Attributed(records: seq<Record>, terms: seq<Term>): nat {
    if terms == [] then 0
    else Split3(LineOf(EventsOf(records, terms[0].thread)), terms[0]) + Attributed(records, terms[1..])
  }

  /** The work and wait of a frame's terms add up to its interval exactly when no term runs backwards; a term that
      does counts nothing for itself, and the sum comes out longer than the interval. */
  lemma {:induction false} AttributedIsTotal(records: seq<Record>, terms: seq<Term>)
    ensures Attributed(records, terms) >= Total(terms)
    ensures Attributed(records, terms) == Total(terms) <==> Forward(terms)
  {
    hide Cycles, LineOf;
    if terms != [] {
      var t := terms[0];
      CyclesSum(LineOf(EventsOf(records, t.thread)), t.t0, t.t1);
      AttributedIsTotal(records, terms[1..]);
      assert forall i | 0 <= i < |terms[1..]| :: terms[1..][i] == terms[i + 1];
      if Attributed(records, terms) == Total(terms) {
        forall i | 0 <= i < |terms| ensures terms[i].t0 <= terms[i].t1 {
          if i > 0 {
            assert terms[i] == terms[1..][i - 1];
          }
        }
      }
    }
  }

  // ----- the frames of a drain -----

  /** A frame begins where the one before it ended, the first where the account does. */
  function StartOf(begin: int, ends: seq<Record>, i: nat): int
    requires i < |ends|
  {
    if i == 0 then begin else ends[i - 1].cycles
  }

  function FramesFrom(begin: int, ends: seq<Record>, roles: Roles): Option<seq<Frame>> {
    if ends == [] then Some([])
    else
      var last := |ends| - 1;
      var fs :- FramesFrom(begin, ends[..last], roles);
      var f :- FrameTerms(StartOf(begin, ends, last), ends[last], roles);
      Some(fs + [f])
  }

  method AccountFrames(begin: int, ends: seq<Record>, roles: Roles) returns (r: Option<seq<Frame>>)
    ensures r == FramesFrom(begin, ends, roles)
  {
    hide FrameTerms;
    var frames, start := [], begin;
    for i := 0 to |ends|
      invariant FramesFrom(begin, ends[..i], roles) == Some(frames)
      invariant start == if i == 0 then begin else ends[i - 1].cycles
    {
      assert ends[..i + 1][..i] == ends[..i];
      var frame := FrameTerms(start, ends[i], roles);
      if frame.None? {
        FramesFail(begin, ends, i + 1, roles);
        return None;
      }
      frames := frames + [frame.value];
      start := ends[i].cycles;
    }
    assert ends[..|ends|] == ends;
    return Some(frames);
  }

  lemma {:induction false} FramesFail(begin: int, ends: seq<Record>, i: nat, roles: Roles)
    requires i <= |ends| && FramesFrom(begin, ends[..i], roles).None?
    ensures FramesFrom(begin, ends, roles).None?
  {
    hide FrameTerms;
    if i == |ends| {
      assert ends[..i] == ends;
    } else {
      assert ends[..|ends| - 1][..i] == ends[..i];
      FramesFail(begin, ends[..|ends| - 1], i, roles);
    }
  }

  function Intervals(frames: seq<Frame>): int {
    if frames == [] then 0
    else Intervals(frames[..|frames| - 1]) + frames[|frames| - 1].end - frames[|frames| - 1].start
  }

  ghost predicate FramesTile(frames: seq<Frame>) {
    forall i | 0 <= i < |frames| :: Tiles(frames[i].terms, frames[i].start, frames[i].end)
  }

  /** Frames follow one another from the account's begin to the last present's end. */
  lemma {:induction false} FramesOk(begin: int, ends: seq<Record>, roles: Roles)
    requires FramesFrom(begin, ends, roles).Some?
    ensures var fs := FramesFrom(begin, ends, roles).value;
            && |fs| == |ends| && FramesTile(fs)
            && Intervals(fs) == (if ends == [] then 0 else ends[|ends| - 1].cycles - begin)
            && forall i | 0 <= i < |fs| :: FrameTerms(StartOf(begin, ends, i), ends[i], roles) == Some(fs[i])
  {
    hide FrameTerms, Tiles, FramesTile, Intervals, StartOf;
    if ends == [] {
      NoFrames();
    } else {
      var last := |ends| - 1;
      FramesOk(begin, ends[..last], roles);
      var start := StartOf(begin, ends, last);
      SameStart(begin, ends, |ends|, last);
      FrameTiles(start, ends[last], roles);
      var fs := FramesFrom(begin, ends[..last], roles).value;
      OneMoreFrame(fs, FrameTerms(start, ends[last], roles).value);
      forall i | 0 <= i < last ensures StartOf(begin, ends[..last], i) == StartOf(begin, ends, i) {
        SameStart(begin, ends, last, i);
      }
    }
  }

  lemma {:induction false} SameStart(begin: int, ends: seq<Record>, k: nat, i: nat)
    requires i < k <= |ends|
    ensures StartOf(begin, ends[..k], i) == StartOf(begin, ends, i)
    ensures StartOf(begin, ends, |ends| - 1) == if |ends| == 1 then begin else ends[|ends| - 2].cycles
  {
  }

  lemma {:induction false} NoFrames()
    ensures FramesTile([]) && Intervals([]) == 0
  {
  }

  lemma {:induction false} OneMoreFrame(fs: seq<Frame>, f: Frame)
    requires FramesTile(fs) && Tiles(f.terms, f.start, f.end)
    ensures FramesTile(fs + [f]) && Intervals(fs + [f]) == Intervals(fs) + f.end - f.start
  {
  }

  // ----- means -----

  function Ms(cycles: int, k: real): real {
    cycles as real * k
  }

  function MsSum(terms: seq<Term>, k: real): real {
    if terms == [] then 0.0 else Ms(terms[0].t1 - terms[0].t0, k) + MsSum(terms[1..], k)
  }

  lemma {:induction false} MsAdd(a: int, b: int, k: real)
    ensures Ms(a, k) + Ms(b, k) == Ms(a + b, k)
  {
  }

  lemma {:induction false} MsSumIsTotal(terms: seq<Term>, k: real)
    ensures MsSum(terms, k) == Ms(Total(terms), k)
  {
    hide Ms;
    if terms == [] {
      assert Ms(0, k) == 0.0 by { MsZero(k); }
    } else {
      MsSumIsTotal(terms[1..], k);
      MsAdd(terms[0].t1 - terms[0].t0, Total(terms[1..]), k);
    }
  }

  lemma {:induction false} MsZero(k: real)
    ensures Ms(0, k) == 0.0
  {
  }

  function AllTerms(frames: seq<Frame>): seq<Term> {
    if frames == [] then [] else AllTerms(frames[..|frames| - 1]) + frames[|frames| - 1].terms
  }

  /** Each name once, in the order first met. */
  function Names(terms: seq<Term>): (r: seq<string>)
    ensures forall i, j | 0 <= i < j < |r| :: r[i] != r[j]
    ensures forall t | t in terms :: t.name in r
  {
    if terms == [] then []
    else
      var before, last := Names(terms[..|terms| - 1]), terms[|terms| - 1];
      assert terms == terms[..|terms| - 1] + [last];
      if last.name in before then before else before + [last.name]
  }

  function Items(terms: seq<Term>, name: string): seq<Term> {
    if terms == [] then [] else (if terms[0].name == name then [terms[0]] else []) + Items(terms[1..], name)
  }

  /** The sum of the named means: for each name, its items' total over the number of frames. */
  function NamedMs(terms: seq<Term>, names: seq<string>, k: real, count: nat): real
    requires count > 0
    decreases names
  {
    if names == [] then 0.0
    else MsSum(Items(terms, names[0]), k) / count as real + NamedMs(terms, names[1..], k, count)
  }

  /** One term is an item of exactly one of the names. */
  lemma {:induction false} NamedMsFirst(terms: seq<Term>, names: seq<string>, k: real, count: nat)
    requires count > 0 && terms != []
    requires forall i, j | 0 <= i < j < |names| :: names[i] != names[j]
    ensures NamedMs(terms, names, k, count)
         == NamedMs(terms[1..], names, k, count)
            + (if terms[0].name in names then Ms(terms[0].t1 - terms[0].t0, k) / count as real else 0.0)
    decreases names
  {
    hide Ms;
    if names != [] {
      NamedMsFirst(terms, names[1..], k, count);
      var t, n := terms[0], names[0];
      var rest := Items(terms[1..], n);
      if t.name == n {
        assert t.name !in names[1..];
        assert ([t] + rest)[0] == t && ([t] + rest)[1..] == rest;
        DivAdd(Ms(t.t1 - t.t0, k), MsSum(rest, k), count as real);
      } else {
        assert [] + rest == rest;
        assert t.name in names <==> t.name in names[1..];
      }
    }
  }

  lemma {:induction false} DivAdd(a: real, b: real, c: real)
    requires c != 0.0
    ensures (a + b) / c == a / c + b / c
  {
  }

  /** Regrouping by name loses nothing: the named means add up to the mean of the whole. */
  lemma {:induction false} NamedMsIsAll(terms: seq<Term>, names: seq<string>, k: real, count: nat)
    requires count > 0
    requires forall i, j | 0 <= i < j < |names| :: names[i] != names[j]
    requires forall t | t in terms :: t.name in names
    ensures NamedMs(terms, names, k, count) == MsSum(terms, k) / count as real
  {
    hide Ms;
    if terms == [] {
      NamedMsNone(names, k, count);
    } else {
      assert forall t | t in terms[1..] :: t in terms;
      assert terms[0] in terms;
      NamedMsFirst(terms, names, k, count);
      NamedMsIsAll(terms[1..], names, k, count);
      DivAdd(Ms(terms[0].t1 - terms[0].t0, k), MsSum(terms[1..], k), count as real);
    }
  }

  lemma {:induction false} NamedMsNone(names: seq<string>, k: real, count: nat)
    requires count > 0
    ensures NamedMs([], names, k, count) == 0.0
    decreases names
  {
    if names != [] {
      NamedMsNone(names[1..], k, count);
    }
  }

  datatype Summary = Summary(interval: real, named: real, residue: real, share: real)

  function IntervalMs(frames: seq<Frame>, k: real): real {
    if frames == [] then 0.0
    else IntervalMs(frames[..|frames| - 1], k) + Ms(frames[|frames| - 1].end - frames[|frames| - 1].start, k)
  }

  function Abs(x: real): real {
    if x < 0.0 then -x else x
  }

  function Summarise(frames: seq<Frame>, k: real): Summary
    requires frames != []
  {
    var count := |frames|;
    var interval := IntervalMs(frames, k) / count as real;
    var terms := AllTerms(frames);
    var named := NamedMs(terms, Names(terms), k, count);
    var residue := interval - named;
    Summary(interval, named, residue, if interval == 0.0 then 0.0 else Abs(residue) / interval)
  }

  lemma {:induction false} MsSumConcat(a: seq<Term>, b: seq<Term>, k: real)
    ensures MsSum(a + b, k) == MsSum(a, k) + MsSum(b, k)
  {
    hide Ms;
    if a == [] {
      assert a + b == b;
    } else {
      assert (a + b)[1..] == a[1..] + b;
      MsSumConcat(a[1..], b, k);
    }
  }

  lemma {:induction false} AllTermsMs(frames: seq<Frame>, k: real)
    requires FramesTile(frames)
    ensures MsSum(AllTerms(frames), k) == IntervalMs(frames, k)
  {
    hide Ms, Tiles;
    if frames != [] {
      var last := frames[|frames| - 1];
      AllTermsMs(frames[..|frames| - 1], k);
      MsSumConcat(AllTerms(frames[..|frames| - 1]), last.terms, k);
      MsSumIsTotal(last.terms, k);
      TilesTotal(last.terms, last.start, last.end);
    }
  }

  /** The mean terms of any group of frames add up to their mean interval: nothing is left over. */
  lemma {:induction false} NoResidue(frames: seq<Frame>, k: real)
    requires frames != [] && FramesTile(frames)
    ensures var s := Summarise(frames, k); s.named == s.interval && s.residue == 0.0 && s.share == 0.0
  {
    hide IntervalMs, NamedMs, FramesTile, MsSum;
    AllTermsMs(frames, k);
    NamedMsIsAll(AllTerms(frames), Names(AllTerms(frames)), k, |frames|);
  }

  // ----- the account -----

  function Insert(r: Record, records: seq<Record>): seq<Record> {
    if records == [] || records[|records| - 1].cycles <= r.cycles then records + [r]
    else Insert(r, records[..|records| - 1]) + [records[|records| - 1]]
  }

  /** `sorted` by cycles: stable. */
  function SortByCycles(records: seq<Record>): seq<Record> {
    if records == [] then [] else Insert(records[|records| - 1], SortByCycles(records[..|records| - 1]))
  }

  lemma {:induction false} InsertSame(r: Record, records: seq<Record>)
    ensures multiset(Insert(r, records)) == multiset(records) + multiset{r}
  {
    if records != [] && records[|records| - 1].cycles > r.cycles {
      InsertSame(r, records[..|records| - 1]);
      assert records == records[..|records| - 1] + [records[|records| - 1]];
    }
  }

  lemma {:induction false} InsertBelow(r: Record, records: seq<Record>, t: int)
    requires r.cycles <= t && forall i | 0 <= i < |records| :: records[i].cycles <= t
    ensures forall i | 0 <= i < |Insert(r, records)| :: Insert(r, records)[i].cycles <= t
  {
    if records != [] && records[|records| - 1].cycles > r.cycles {
      InsertBelow(r, records[..|records| - 1], t);
    }
  }

  lemma {:induction false} InsertInOrder(r: Record, records: seq<Record>)
    requires InOrder(records)
    ensures InOrder(Insert(r, records))
  {
    if records != [] && records[|records| - 1].cycles > r.cycles {
      InsertInOrder(r, records[..|records| - 1]);
      InsertBelow(r, records[..|records| - 1], records[|records| - 1].cycles);
    }
  }

  lemma {:induction false} SortedInOrder(records: seq<Record>)
    ensures InOrder(SortByCycles(records)) && multiset(SortByCycles(records)) == multiset(records)
  {
    hide Insert, InOrder;
    if records == [] {
      assert InOrder([]) by { NothingInOrder(); }
    } else {
      var init, last := records[..|records| - 1], records[|records| - 1];
      SortedInOrder(init);
      InsertInOrder(last, SortByCycles(init));
      InsertSame(last, SortByCycles(init));
      assert records == init + [last];
    }
  }

  lemma {:induction false} NothingInOrder()
    ensures InOrder([])
  {
  }

  datatype Drain = Drain(records: seq<Record>, threads: map<nat, (nat, string)>, counted: nat, refused: nat,
                         incomplete: nat)

  function SiteOf(thread: nat): Record -> bool {
    (x: Record) => x.kind == "site" && x.thread == thread
  }

  /** The one thread that recorded a site, when exactly one did. */
  function OnlyThread(records: seq<Record>, tag: string): Option<nat> {
    var first :- FirstWhere(records, (x: Record) => x.kind == "site" && x.tag == tag);
    if forall x | x in records :: x.kind == "site" && x.tag == tag ==> x.thread == first.thread then Some(first.thread)
    else None
  }

  function Presented(): Record -> bool {
    (x: Record) => x.tag == "prs-end" && x.value != 0xFFFF_FFFF_FFFF_FFFF
  }

  predicate Meets(iv: Interval, t0: int, t1: int) {
    (iv.begin.At? ==> iv.begin.cycles < t1) && (iv.end.At? ==> iv.end.cycles > t0)
  }

  /** Another thread of the application's process was on a CPU inside a draw. */
  predicate Disturbed(d: Drain, records: seq<Record>, app: nat) {
    var begins := Where(records, (x: Record) => x.kind == "site" && x.thread == app && x.tag == "drw-beg");
    var ends := Where(records, (x: Record) => x.kind == "site" && x.thread == app && x.tag == "drw-end");
    app in d.threads
    && exists sibling | sibling in d.threads ::
         && sibling != app && d.threads[sibling].0 == d.threads[app].0 && EventsOf(records, sibling) != []
         && var line := LineOf(EventsOf(records, sibling));
            exists iv | iv in IntervalsFrom(line.initial, Ever, line.transitions) ::
              exists i | 0 <= i < |begins| && i < |ends| :: Meets(iv, begins[i].cycles, ends[i].cycles)
  }

  datatype Result = Result(begin: int, ends: seq<Record>, roles: Roles, records: seq<Record>, frames: seq<Frame>)

  function OfShape(frames: seq<Frame>, shape: nat): (r: seq<Frame>)
    ensures forall f | f in r :: f in frames && f.shape == shape
    ensures forall f | f in frames && f.shape == shape :: f in r
  {
    if frames == [] then [] else (if frames[0].shape == shape then [frames[0]] else []) + OfShape(frames[1..], shape)
  }

  /** The frames before the summary's own refusal: everything else the account checks. */
  function Joined(d: Drain): Option<Result> {
    var records := SortByCycles(d.records);
    if d.refused != 0 || d.incomplete != 0 || |records| + 4 * |d.threads| != d.counted then None
    else
      var app :- OnlyThread(records, "drw-beg");
      var service :- OnlyThread(records, "ds-acc");
      var driver :- OnlyThread(records, "gp-call");
      if exists t | t in [app, service, driver] :: Transitions(EventsOf(records, t)) == [] then None
      else
        var roles := Roles(app, service, driver, Where(records, SiteOf(app)), Where(records, SiteOf(service)),
                           Where(records, SiteOf(driver)));
        var begin :- FirstLabel(roles.appSites, "acct-beg");
        var ends := Where(roles.appSites, Presented());
        if ends == [] || Disturbed(d, records, app) then None
        else
          var frames :- FramesFrom(begin.value, ends, roles);
          Some(Result(begin.value, ends, roles, records, frames))
  }

  /** Milliseconds in a cycle. */
  function Scale(tscHz: nat): real
    requires tscHz > 0
  {
    1000.0 / tscHz as real
  }

  /** The account needs the clock's rate, and refuses a drain one of whose shapes leaves more than five percent of its
      mean interval unnamed. */
  function Account(d: Drain, tscHz: nat): Option<Result> {
    if tscHz == 0 then None
    else
      var r :- Joined(d);
      if exists f | f in r.frames :: Summarise(OfShape(r.frames, f.shape), Scale(tscHz)).share > 0.05 then None
      else Some(r)
  }

  lemma {:induction false} ShapeTiles(frames: seq<Frame>, shape: nat)
    requires FramesTile(frames)
    ensures FramesTile(OfShape(frames, shape))
  {
  }

  /** Every drain that joins is accounted for: the residue the account refuses drains for is always zero. */
  lemma {:induction false} ResidueNeverRefuses(d: Drain, tscHz: nat)
    requires tscHz > 0
    ensures Account(d, tscHz) == Joined(d)
    ensures Joined(d).Some? ==>
              forall f | f in Joined(d).value.frames ::
                var s := Summarise(OfShape(Joined(d).value.frames, f.shape), Scale(tscHz));
                s.residue == 0.0 && s.named == s.interval
  {
    hide Summarise, OfShape, FramesTile, FramesFrom, Where, OnlyThread, Disturbed, SortByCycles;
    if Joined(d).Some? {
      var r := Joined(d).value;
      FramesOk(r.begin, r.ends, r.roles);
      forall f | f in r.frames ensures var s := Summarise(OfShape(r.frames, f.shape), Scale(tscHz));
                                       s.residue == 0.0 && s.named == s.interval && s.share == 0.0 {
        ShapeTiles(r.frames, f.shape);
        assert f in OfShape(r.frames, f.shape);
        NoResidue(OfShape(r.frames, f.shape), Scale(tscHz));
      }
    }
  }

  /** Of every drain the account accepts: each frame's terms are contiguous and add up to the frame's interval, their
      work and wait add up to it if and only if the sites after the acceptance are in turn, and the intervals add up to
      the time from the `acct-beg` value to the last present's end; and every thread's timeline is in order of time. */
  lemma {:induction false} AccountAddsUp(d: Drain, tscHz: nat)
    requires Account(d, tscHz).Some?
    ensures var r := Account(d, tscHz).value;
            && |r.frames| == |r.ends| > 0 && FramesTile(r.frames)
            && (forall i | 0 <= i < |r.frames| :: FrameAddsUp(r, i))
            && Intervals(r.frames) == r.ends[|r.ends| - 1].cycles - r.begin
            && forall thread :: Sorted(LineOf(EventsOf(r.records, thread)).transitions)
  {
    hide Account, FramesFrom, SortByCycles, FrameTerms, FramesTile, FrameAddsUp, Intervals;
    var r := Account(d, tscHz).value;
    AccountIs(d, tscHz);
    FramesOk(r.begin, r.ends, r.roles);
    SortedInOrder(d.records);
    forall thread ensures Sorted(LineOf(EventsOf(r.records, thread)).transitions) {
      EventsSorted(r.records, thread);
      TransitionsSorted(EventsOf(r.records, thread));
    }
    forall i | 0 <= i < |r.frames| ensures FrameAddsUp(r, i) {
      EachFrameAddsUp(r, i);
    }
  }

  lemma {:induction false} AccountIs(d: Drain, tscHz: nat)
    requires Account(d, tscHz).Some?
    ensures var r := Account(d, tscHz).value;
            && r.records == SortByCycles(d.records) && r.ends != []
            && r.roles.appSites == Where(r.records, SiteOf(r.roles.app))
            && FramesFrom(r.begin, r.ends, r.roles) == Some(r.frames)
  {
    hide Summarise, OfShape, FramesFrom, Where, OnlyThread, Disturbed, SortByCycles;
  }

  /** One frame of a result: its terms add up to it, and so do their work and wait exactly when its sites are in
      turn. */
  ghost predicate FrameAddsUp(r: Result, i: nat)
    requires i < |r.frames| == |r.ends|
  {
    var f := r.frames[i];
    && Total(f.terms) == f.end - f.start
    && (Attributed(r.records, f.terms) == f.end - f.start
        <==> FrameInTurn(StartOf(r.begin, r.ends, i), r.ends[i], r.roles))
  }

  lemma {:induction false} EachFrameAddsUp(r: Result, i: nat)
    requires i < |r.frames| == |r.ends| && FramesTile(r.frames)
    requires FrameTerms(StartOf(r.begin, r.ends, i), r.ends[i], r.roles) == Some(r.frames[i])
    ensures FrameAddsUp(r, i)
  {
    hide FrameTerms, FrameInTurn, Tiles, Total, Attributed, Forward;
    var f := r.frames[i];
    TilesTotal(f.terms, f.start, f.end);
    AttributedIsTotal(r.records, f.terms);
    ForwardInTurn(StartOf(r.begin, r.ends, i), r.ends[i], r.roles);
  }
}
