/** The frame account: a drain of records joined into frames, each frame tiled into terms. */
module FrameAccount {
  import opened Bytes

  datatype Record = Record(tag: string, cycles: int, value: nat, thread: nat, kind: string)

  // ----- searching records -----

  function Where(rs: seq<Record>, p: Record -> bool): (r: seq<Record>)
    ensures forall x | x in r :: x in rs && p(x)
  {
    if rs == [] then [] else (if p(rs[0]) then [rs[0]] else []) + Where(rs[1..], p)
  }

  function FirstWhere(rs: seq<Record>, p: Record -> bool): (r: Option<Record>)
    ensures r.Some? ==> r.value in rs && p(r.value)
  {
    if rs == [] then None else if p(rs[0]) then Some(rs[0]) else FirstWhere(rs[1..], p)
  }

  function LastWhere(rs: seq<Record>, p: Record -> bool): (r: Option<Record>)
    ensures r.Some? ==> r.value in rs && p(r.value)
  {
    if rs == [] then None
    else if p(rs[|rs| - 1]) then Some(rs[|rs| - 1])
    else LastWhere(rs[..|rs| - 1], p)
  }

  /** The first site of that label between two moments. */
  function Find(rs: seq<Record>, tag: string, after: int, before: int): (r: Option<Record>)
    ensures r.Some? ==> r.value in rs && r.value.tag == tag && after <= r.value.cycles <= before
  {
    FirstWhere(rs, (x: Record) => x.tag == tag && after <= x.cycles <= before)
  }

  function FirstLabel(rs: seq<Record>, tag: string): (r: Option<Record>)
    ensures r.Some? ==> r.value in rs
  {
    FirstWhere(rs, (x: Record) => x.tag == tag)
  }

  function LastBefore(rs: seq<Record>, tag: string, cycles: int): (r: Option<Record>)
    ensures r.Some? ==> r.value in rs && r.value.tag == tag && r.value.cycles <= cycles
  {
    LastWhere(rs, (x: Record) => x.tag == tag && x.cycles <= cycles)
  }

  function Within(rs: seq<Record>, t0: int, t1: int): (r: seq<Record>)
    ensures forall x | x in r :: x in rs && t0 <= x.cycles <= t1
  {
    Where(rs, (x: Record) => t0 <= x.cycles <= t1)
  }

  // ----- terms -----

  /** A stretch of time, named, and the thread whose progress it measures. */
  datatype Term = Term(name: string, t0: int, t1: int, thread: nat)

  /** Each term begins where the one before it ends: together they tile `[a, b]`. */
  ghost predicate Tiles(terms: seq<Term>, a: int, b: int) {
    if terms == [] then a == b else terms[0].t0 == a && Tiles(terms[1..], terms[0].t1, b)
  }

  function Total(terms: seq<Term>): int {
    if terms == [] then 0 else terms[0].t1 - terms[0].t0 + Total(terms[1..])
  }

  lemma {:induction false} TilesConcat(x: seq<Term>, y: seq<Term>, a: int, b: int, c: int)
    requires Tiles(x, a, b) && Tiles(y, b, c)
    ensures Tiles(x + y, a, c)
  {
    if x == [] {
      assert x + y == y;
    } else {
      assert (x + y)[1..] == x[1..] + y;
      TilesConcat(x[1..], y, x[0].t1, b, c);
    }
  }

  /** Terms that tile an interval add up to it exactly, even where one of them runs backwards. */
  lemma {:induction false} TilesTotal(terms: seq<Term>, a: int, b: int)
    requires Tiles(terms, a, b)
    ensures Total(terms) == b - a
  {
    if terms != [] {
      TilesTotal(terms[1..], terms[0].t1, b);
    }
  }

  lemma {:induction false} TilesOne(t: Term)
    ensures Tiles([t], t.t0, t.t1)
  {
  }

  /** Consecutive moments make consecutive terms. */
  function Steps(names: seq<string>, moments: seq<int>, thread: nat): seq<Term>
    requires |moments| == |names| + 1
  {
    seq(|names|, i requires 0 <= i < |names| => Term(names[i], moments[i], moments[i + 1], thread))
  }

  lemma {:induction false} StepsTile(names: seq<string>, moments: seq<int>, thread: nat)
    requires |moments| == |names| + 1
    ensures Tiles(Steps(names, moments, thread), moments[0], moments[|names|])
    decreases names
  {
    if names != [] {
      assert Steps(names, moments, thread)[1..] == Steps(names[1..], moments[1..], thread);
      StepsTile(names[1..], moments[1..], thread);
    }
  }

  // ----- the device call -----

  function RepliedFrom(t: int): Record -> bool {
    (x: Record) => x.tag == "gp-rply" && x.cycles >= t
  }

  function NotifiedIn(t0: int, t1: int): Record -> bool {
    (x: Record) => x.tag == "vq-ntfy" && t0 <= x.cycles <= t1
  }

  const BUILD := "driver: build the command"
  const ACKNOWLEDGE := "device: acknowledgement (notify to observed completion)"

  datatype Commands = Commands(terms: seq<Term>, cursor: int)

  /** Two terms for each command notified, in order, from the call on. */
  function CommandTerms(notifies: seq<Record>, inside: seq<Record>, from: int, reply: int,
                        driver: nat): Option<Commands> {
    if notifies == [] then Some(Commands([], from))
    else
      var c :- CommandTerms(notifies[..|notifies| - 1], inside, from, reply, driver);
      var notify := notifies[|notifies| - 1];
      var done :- Find(inside, "vq-done", notify.cycles, reply);
      Some(Commands(c.terms + [Term(BUILD, c.cursor, notify.cycles, driver),
                               Term(ACKNOWLEDGE, notify.cycles, done.cycles, driver)], done.cycles))
  }

  /** DisplayService's device call, split by the driver's own records nested inside it. */
  function DriverTerms(t0: int, t1: int, sites: seq<Record>, driver: nat, service: nat): Option<seq<Term>> {
    var inside := Within(sites, t0, t1);
    var call :- FirstLabel(inside, "gp-call");
    var reply :- FirstWhere(inside, RepliedFrom(call.cycles));
    var notifies := Where(inside, NotifiedIn(call.cycles, reply.cycles));
    var c :- CommandTerms(notifies, inside, call.cycles, reply.cycles, driver);
    Some([Term("transport: device call to the driver", t0, call.cycles, driver)] + c.terms
         + [Term("driver: reply", c.cursor, reply.cycles, driver),
            Term("transport: device call back to DisplayService", reply.cycles, t1, service)])
  }

  method CommandBreakdown(notifies: seq<Record>, inside: seq<Record>, from: int, reply: int, driver: nat)
    returns (r: Option<Commands>)
    ensures r == CommandTerms(notifies, inside, from, reply, driver)
  {
    hide Find;
    var terms, cursor := [], from;
    for i := 0 to |notifies|
      invariant CommandTerms(notifies[..i], inside, from, reply, driver) == Some(Commands(terms, cursor))
    {
      assert notifies[..i + 1][..i] == notifies[..i];
      var notify := notifies[i];
      var done := Find(inside, "vq-done", notify.cycles, reply);
      if done.None? {
        CommandsFail(notifies, i + 1, inside, from, reply, driver);
        return None;
      }
      terms := terms + [Term(BUILD, cursor, notify.cycles, driver),
                        Term(ACKNOWLEDGE, notify.cycles, done.value.cycles, driver)];
      cursor := done.value.cycles;
    }
    assert notifies[..|notifies|] == notifies;
    return Some(Commands(terms, cursor));
  }

  method DriverBreakdown(t0: int, t1: int, sites: seq<Record>, driver: nat, service: nat) returns (r: Option<seq<Term>>)
    ensures r == DriverTerms(t0, t1, sites, driver, service)
  {
    hide Within, FirstLabel, FirstWhere, Where, CommandTerms;
    var inside := Within(sites, t0, t1);
    var call :- FirstLabel(inside, "gp-call");
    var reply :- FirstWhere(inside, RepliedFrom(call.cycles));
    var notifies := Where(inside, NotifiedIn(call.cycles, reply.cycles));
    var c :- CommandBreakdown(notifies, inside, call.cycles, reply.cycles, driver);
    var terms := [Term("transport: device call to the driver", t0, call.cycles, driver)] + c.terms;
    terms := terms + [Term("driver: reply", c.cursor, reply.cycles, driver),
                      Term("transport: device call back to DisplayService", reply.cycles, t1, service)];
    return Some(terms);
  }

  lemma {:induction false} CommandsFail(notifies: seq<Record>, i: nat, inside: seq<Record>, from: int, reply: int,
                                        driver: nat)
    requires i <= |notifies| && CommandTerms(notifies[..i], inside, from, reply, driver).None?
    ensures CommandTerms(notifies, inside, from, reply, driver).None?
  {
    if i == |notifies| {
      assert notifies[..i] == notifies;
    } else {
      assert notifies[..|notifies| - 1][..i] == notifies[..i];
      CommandsFail(notifies[..|notifies| - 1], i, inside, from, reply, driver);
    }
  }

  lemma {:induction false} CommandsTile(notifies: seq<Record>, inside: seq<Record>, from: int, reply: int, driver: nat)
    requires CommandTerms(notifies, inside, from, reply, driver).Some?
    ensures var c := CommandTerms(notifies, inside, from, reply, driver).value; Tiles(c.terms, from, c.cursor)
  {
    if notifies != [] {
      CommandsTile(notifies[..|notifies| - 1], inside, from, reply, driver);
      var b := CommandTerms(notifies[..|notifies| - 1], inside, from, reply, driver).value;
      var c := CommandTerms(notifies, inside, from, reply, driver).value;
      var notify := notifies[|notifies| - 1];
      var two := [Term(BUILD, b.cursor, notify.cycles, driver), Term(ACKNOWLEDGE, notify.cycles, c.cursor, driver)];
      TilesOne(two[1]);
      assert two[1..] == [two[1]];
      TilesConcat(b.terms, two, from, b.cursor, c.cursor);
    }
  }

  lemma {:induction false} DriverTile(t0: int, t1: int, sites: seq<Record>, driver: nat, service: nat)
    requires DriverTerms(t0, t1, sites, driver, service).Some?
    ensures Tiles(DriverTerms(t0, t1, sites, driver, service).value, t0, t1)
  {
    hide Within, FirstLabel, FirstWhere, Where, Find;
    var inside := Within(sites, t0, t1);
    var call := FirstLabel(inside, "gp-call").value;
    var reply := FirstWhere(inside, RepliedFrom(call.cycles)).value;
    var notifies := Where(inside, NotifiedIn(call.cycles, reply.cycles));
    var c := CommandTerms(notifies, inside, call.cycles, reply.cycles, driver).value;
    CommandsTile(notifies, inside, call.cycles, reply.cycles, driver);
    var head := Term("transport: device call to the driver", t0, call.cycles, driver);
    var tail := [Term("driver: reply", c.cursor, reply.cycles, driver),
                 Term("transport: device call back to DisplayService", reply.cycles, t1, service)];
    TilesOne(head);
    TilesOne(tail[1]);
    assert tail[1..] == [tail[1]];
    TilesConcat([head], c.terms, t0, call.cycles, c.cursor);
    TilesConcat([head] + c.terms, tail, t0, c.cursor, t1);
  }

  // ----- a frame -----

  datatype Roles = Roles(app: nat, service: nat, driver: nat,
                         appSites: seq<Record>, svcSites: seq<Record>, drvSites: seq<Record>)

  datatype Frame = Frame(shape: nat, serial: nat, start: int, end: int, terms: seq<Term>)

  predicate Marked(window: seq<Record>, tag: string, t: int) {
    exists x :: x in window && x.tag == tag && x.cycles == t
  }

  const MOMENT_TAGS := ["acct-beg", "acq-beg", "acq-end", "rec-beg", "rec-end", "drw-beg", "drw-end", "ready",
                        "prs-beg"]

  /** What the application itself did, as the moments its sites mark, and the shape it drew. */
  function AppMoments(window: seq<Record>, start: int, end: int): (r: Option<(seq<int>, nat)>)
    ensures r.Some? ==> |r.value.0| == 9 && r.value.0[0] == start
    ensures r.Some? ==> forall i | 1 <= i < 8 :: r.value.0[i] <= r.value.0[i + 1]
    ensures r.Some? ==> forall i | 1 <= i < 9 :: Marked(window, MOMENT_TAGS[i], r.value.0[i])
  {
    hide Find, LastBefore;
    var acqBeg :- LastBefore(window, "acq-beg", end);
    var acqEnd :- Find(window, "acq-end", acqBeg.cycles, end);
    var recBeg :- Find(window, "rec-beg", acqEnd.cycles, end);
    var recEnd :- Find(window, "rec-end", recBeg.cycles, end);
    var drwBeg :- Find(window, "drw-beg", recEnd.cycles, end);
    var drwEnd :- Find(window, "drw-end", drwBeg.cycles, end);
    var shape :- Find(window, "shape", drwEnd.cycles, end);
    var ready :- Find(window, "ready", shape.cycles, end);
    var prsBeg :- Find(window, "prs-beg", ready.cycles, end);
    Some(([start, acqBeg.cycles, acqEnd.cycles, recBeg.cycles, recEnd.cycles, drwBeg.cycles, drwEnd.cycles,
           ready.cycles, prsBeg.cycles], shape.value))
  }

  const APP_TERMS := ["application: pacing wait and frame-loop step", "application: acquire (a call to DisplayService)",
                      "application: image mapping looked up", "application: record the scene",
                      "application: record to draw",
                      "application: draw (prepare and render)", "application: damage computed",
                      "application: producer-ready signal"]

  const DISPATCH_TERMS := ["transport: present call to DisplayService",
                           "DisplayService: dispatch until the present is accepted"]

  const BLIT_TERMS := ["DisplayService: accepted to blit", "DisplayService: blit",
                       "DisplayService: blit to device call"]

  const END_TERMS := ["DisplayService: completion (release and events)", "DisplayService: completion to reply sent"]

  function BlitFrom(t: int): Record -> bool {
    (x: Record) => x.tag in ["ds-blt0", "ds-blt1", "ds-dev0", "ds-dev1"] && x.cycles >= t
  }

  function Serial(tag: string, serial: nat, t0: int, t1: int): Record -> bool {
    (x: Record) => x.tag == tag && x.value == serial && t0 <= x.cycles <= t1
  }

  /** The blit and the device call, when the present made them: their terms and where they end. */
  function BlitTerms(svcWindow: seq<Record>, accepted: int, roles: Roles): Option<(seq<Term>, int)> {
    var blit := Where(svcWindow, BlitFrom(accepted));
    match FirstLabel(blit, "ds-blt0")
    case None => Some(([], accepted))
    case Some(begin) =>
      var end :- FirstLabel(blit, "ds-blt1");
      var dev0 :- FirstLabel(blit, "ds-dev0");
      var dev1 :- FirstLabel(blit, "ds-dev1");
      var device :- DriverTerms(dev0.cycles, dev1.cycles, roles.drvSites, roles.driver, roles.service);
      Some((Steps(BLIT_TERMS, [accepted, begin.cycles, end.cycles, dev0.cycles], roles.service) + device, dev1.cycles))
  }

  /** The wait's result, a signed 64-bit number recorded unsigned. */
  function Woke(value: nat): int {
    if value < 0x8000_0000_0000_0000 then value else value - 0x1_0000_0000_0000_0000
  }

  const TIMED_OUT := -11

  predicate WaitFailed(end: Record) {
    Woke(end.value) < 0 && Woke(end.value) != TIMED_OUT
  }

  /** A pacing park of the window, or the one under way, ended with an error that is no deadline. */
  predicate ParkFailed(window: seq<Record>, waiting: bool)
    decreases window
  {
    if window == [] then false
    else if window[0].tag == "park-ns" then ParkFailed(window[1..], true)
    else if window[0].tag == "park-end" && waiting then WaitFailed(window[0]) || ParkFailed(window[1..], false)
    else ParkFailed(window[1..], waiting)
  }

  function FrameTerms(start: int, presentEnd: Record, roles: Roles): Option<Frame> {
    var end, serial := presentEnd.cycles, presentEnd.value;
    var (moments, shape) :- AppMoments(Within(roles.appSites, start, end), start, end);
    var prsBeg := moments[8];
    var svcWindow := Within(roles.svcSites, prsBeg, end);
    var accepted :- FirstWhere(svcWindow, Serial("ds-acc", serial, prsBeg, end));
    var request :- LastBefore(svcWindow, "ds-req", accepted.cycles);
    var reply :- Find(svcWindow, "ds-rply", accepted.cycles, end);
    var completion :- FirstWhere(svcWindow, Serial("ds-cmpl", serial, accepted.cycles, end));
    var (blit, cursor) :- BlitTerms(svcWindow, accepted.cycles, roles);
    if ParkFailed(Within(roles.appSites, start, end), false) then None
    else
      Some(Frame(shape, serial, start, end,
                 Steps(APP_TERMS, moments, roles.app)
                 + Steps(DISPATCH_TERMS, [prsBeg, request.cycles, accepted.cycles], roles.service)
                 + blit
                 + Steps(END_TERMS, [cursor, completion.cycles, reply.cycles], roles.service)
                 + [Term("transport: reply back to the application", reply.cycles, end, roles.app)]))
  }

  /** The terms of every frame, the per-command driver terms included, tile the frame exactly. */
  lemma {:induction false} FrameTiles(start: int, presentEnd: Record, roles: Roles)
    requires FrameTerms(start, presentEnd, roles).Some?
    ensures var f := FrameTerms(start, presentEnd, roles).value;
            f.start == start && f.end == presentEnd.cycles && Tiles(f.terms, f.start, f.end)
  {
    hide Within, AppMoments, FirstWhere, LastBefore, Find, BlitTerms, Steps, Tiles, ParkFailed;
    var end, serial := presentEnd.cycles, presentEnd.value;
    var moments := AppMoments(Within(roles.appSites, start, end), start, end).value.0;
    var svcWindow := Within(roles.svcSites, moments[8], end);
    var accepted := FirstWhere(svcWindow, Serial("ds-acc", serial, moments[8], end)).value;
    var request := LastBefore(svcWindow, "ds-req", accepted.cycles).value;
    var reply := Find(svcWindow, "ds-rply", accepted.cycles, end).value;
    var completion := FirstWhere(svcWindow, Serial("ds-cmpl", serial, accepted.cycles, end)).value;
    var (blit, cursor) := BlitTerms(svcWindow, accepted.cycles, roles).value;
    var app := Steps(APP_TERMS, moments, roles.app);
    var dispatch := Steps(DISPATCH_TERMS, [moments[8], request.cycles, accepted.cycles], roles.service);
    var finish := Steps(END_TERMS, [cursor, completion.cycles, reply.cycles], roles.service);
    var back := Term("transport: reply back to the application", reply.cycles, end, roles.app);
    StepsTile(APP_TERMS, moments, roles.app);
    StepsTile(DISPATCH_TERMS, [moments[8], request.cycles, accepted.cycles], roles.service);
    BlitTile(svcWindow, accepted.cycles, roles);
    StepsTile(END_TERMS, [cursor, completion.cycles, reply.cycles], roles.service);
    TilesOne(back);
    TilesConcat(app, dispatch, start, moments[8], accepted.cycles);
    TilesConcat(app + dispatch, blit, start, accepted.cycles, cursor);
    TilesConcat(app + dispatch + blit, finish, start, cursor, reply.cycles);
    TilesConcat(app + dispatch + blit + finish, [back], start, reply.cycles, end);
  }

  lemma {:induction false} BlitTile(svcWindow: seq<Record>, accepted: int, roles: Roles)
    requires BlitTerms(svcWindow, accepted, roles).Some?
    ensures var (terms, cursor) := BlitTerms(svcWindow, accepted, roles).value; Tiles(terms, accepted, cursor)
  {
    hide FirstLabel, DriverTerms, Steps;
    var blit := Where(svcWindow, BlitFrom(accepted));
    if FirstLabel(blit, "ds-blt0").Some? {
      var begin, end := FirstLabel(blit, "ds-blt0").value, FirstLabel(blit, "ds-blt1").value;
      var dev0, dev1 := FirstLabel(blit, "ds-dev0").value, FirstLabel(blit, "ds-dev1").value;
      StepsTile(BLIT_TERMS, [accepted, begin.cycles, end.cycles, dev0.cycles], roles.service);
      DriverTile(dev0.cycles, dev1.cycles, roles.drvSites, roles.driver, roles.service);
      TilesConcat(Steps(BLIT_TERMS, [accepted, begin.cycles, end.cycles, dev0.cycles], roles.service),
                  DriverTerms(dev0.cycles, dev1.cycles, roles.drvSites, roles.driver, roles.service).value,
                  accepted, dev0.cycles, dev1.cycles);
    }
  }
}
