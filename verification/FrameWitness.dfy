/** A drain the account accepts although one of its terms runs backwards: the reply was recorded before the
    completion. */
module FrameWitness {
  import opened Bytes
  import opened Timeline
  import opened FrameAccount
  import opened FrameOrder
  import opened FrameSummary

  const APP := 1
  const SERVICE := 2
  const DRIVER := 3
  const SERIAL := 7

  function Woken(thread: nat): Record {
    Record("wake", 0, 0, thread, "message")
  }

  function Site(tag: string, cycles: int, value: nat, thread: nat): Record {
    Record(tag, cycles, value, thread, "site")
  }

  function Wakes(): seq<Record> {
    [Woken(APP), Woken(SERVICE), Woken(DRIVER)]
  }

  const APP_TAGS := ["acct-beg", "acq-beg", "acq-end", "rec-beg", "rec-end", "drw-beg", "drw-end", "shape", "ready",
                     "prs-beg"]

  /** The application's sites of one frame, one a cycle, and its present's end. */
  function Drawn(): (r: seq<Record>)
    ensures |r| == 10 && forall i | 0 <= i < 10 :: r[i] == Site(APP_TAGS[i], i + 1, 1, APP)
  {
    seq(10, i requires 0 <= i < 10 => Site(APP_TAGS[i], i + 1, 1, APP))
  }

  function Served(): seq<Record> {
    [Site("ds-req", 11, 0, SERVICE), Site("ds-acc", 12, SERIAL, SERVICE), Site("ds-rply", 13, 0, SERVICE),
     Site("ds-cmpl", 14, SERIAL, SERVICE)]
  }

  function Called(): seq<Record> {
    [Site("gp-call", 15, 0, DRIVER)]
  }

  function PresentEnd(): Record {
    Site("prs-end", 16, SERIAL, APP)
  }

  function Records(): (r: seq<Record>)
    ensures |r| == 19
  {
    Wakes() + (Drawn() + (Served() + (Called() + [PresentEnd()])))
  }

  function Backward(): Drain {
    Drain(Records(), map[APP := (0, "demo")], 23, 0, 0)
  }

  function Parts(): Roles {
    Roles(APP, SERVICE, DRIVER, AppWindow(), Served(), Called())
  }

  // ----- searching -----

  lemma {:induction false} WhereJoin(a: seq<Record>, b: seq<Record>, p: Record -> bool)
    ensures Where(a + b, p) == Where(a, p) + Where(b, p)
  {
    if a == [] {
      assert a + b == b;
    } else {
      assert (a + b)[1..] == a[1..] + b;
      WhereJoin(a[1..], b, p);
    }
  }

  lemma {:induction false} WhereAll(a: seq<Record>, p: Record -> bool)
    requires forall x | x in a :: p(x)
    ensures Where(a, p) == a
  {
    if a != [] {
      WhereAll(a[1..], p);
      assert [a[0]] + a[1..] == a;
    }
  }

  lemma {:induction false} WhereNone(a: seq<Record>, p: Record -> bool)
    requires forall x | x in a :: !p(x)
    ensures Where(a, p) == []
  {
    if a != [] {
      WhereNone(a[1..], p);
    }
  }

  lemma {:induction false} FirstAt(rs: seq<Record>, p: Record -> bool, k: nat)
    requires k < |rs| && p(rs[k]) && forall j | 0 <= j < k :: !p(rs[j])
    ensures FirstWhere(rs, p) == Some(rs[k])
  {
    if k > 0 {
      FirstAt(rs[1..], p, k - 1);
    }
  }

  lemma {:induction false} LastAt(rs: seq<Record>, p: Record -> bool, k: nat)
    requires k < |rs| && p(rs[k]) && forall j | k < j < |rs| :: !p(rs[j])
    ensures LastWhere(rs, p) == Some(rs[k])
    decreases |rs|
  {
    if k < |rs| - 1 {
      LastAt(rs[..|rs| - 1], p, k);
    }
  }

  lemma {:induction false} FindAt(rs: seq<Record>, tag: string, after: int, before: int, k: nat)
    requires k < |rs| && rs[k].tag == tag && after <= rs[k].cycles <= before
    requires forall j | 0 <= j < k :: rs[j].tag != tag
    ensures Find(rs, tag, after, before) == Some(rs[k])
  {
    FirstAt(rs, (x: Record) => x.tag == tag && after <= x.cycles <= before, k);
  }

  lemma {:induction false} NoPark(window: seq<Record>)
    requires forall x | x in window :: x.tag != "park-ns"
    ensures !ParkFailed(window, false)
    decreases window
  {
    if window != [] {
      NoPark(window[1..]);
    }
  }

  // ----- the frame -----

  lemma {:induction false} TagsDiffer()
    ensures forall i, j | 0 <= i < j < 10 :: APP_TAGS[i] != APP_TAGS[j]
    ensures forall i | 0 <= i < 10 :: APP_TAGS[i] != "prs-end" && APP_TAGS[i] != "park-ns"
  {
    assert forall i | 0 <= i < 10 :: APP_TAGS[i] != "prs-end";
  }

  function AppWindow(): (r: seq<Record>)
    ensures |r| == 11 && r[10] == PresentEnd()
    ensures forall i | 0 <= i < 10 :: r[i] == Site(APP_TAGS[i], i + 1, 1, APP)
  {
    Drawn() + [PresentEnd()]
  }

  lemma {:induction false} AppSite(k: nat, after: int)
    requires k < 10 && after <= k + 1
    ensures Find(AppWindow(), APP_TAGS[k], after, 16) == Some(Site(APP_TAGS[k], k + 1, 1, APP))
  {
    hide Find, AppWindow;
    TagsDiffer();
    FindAt(AppWindow(), APP_TAGS[k], after, 16, k);
  }

  lemma {:induction false} AcquireSite()
    ensures LastBefore(AppWindow(), "acq-beg", 16) == Some(Site("acq-beg", 2, 1, APP))
  {
    hide LastWhere, AppWindow;
    TagsDiffer();
    assert APP_TAGS[1] == "acq-beg";
    LastAt(AppWindow(), (x: Record) => x.tag == "acq-beg" && x.cycles <= 16, 1);
  }

  lemma {:induction false} MomentsFound()
    ensures AppMoments(AppWindow(), 1, 16) == Some(([1, 2, 3, 4, 5, 6, 7, 9, 10], 1))
  {
    hide Find, LastBefore, AppWindow;
    AcquireSite();
    AppSite(2, 2);
    AppSite(3, 3);
    AppSite(4, 4);
    AppSite(5, 5);
    AppSite(6, 6);
    AppSite(7, 7);
    AppSite(8, 8);
    AppSite(9, 9);
  }

  lemma {:induction false} ServiceSites()
    ensures FirstWhere(Served(), Serial("ds-acc", SERIAL, 10, 16)) == Some(Served()[1])
    ensures LastBefore(Served(), "ds-req", 12) == Some(Served()[0])
    ensures Find(Served(), "ds-rply", 12, 16) == Some(Served()[2])
    ensures FirstWhere(Served(), Serial("ds-cmpl", SERIAL, 12, 16)) == Some(Served()[3])
  {
    hide FirstWhere, LastWhere;
    FirstAt(Served(), Serial("ds-acc", SERIAL, 10, 16), 1);
    LastAt(Served(), (x: Record) => x.tag == "ds-req" && x.cycles <= 12, 0);
    FindAt(Served(), "ds-rply", 12, 16, 2);
    FirstAt(Served(), Serial("ds-cmpl", SERIAL, 12, 16), 3);
  }

  lemma {:induction false} NoBlit()
    ensures FirstLabel(Where(Served(), BlitFrom(12)), "ds-blt0") == None
  {
    WhereNone(Served(), BlitFrom(12));
  }

  lemma {:induction false} AllInside()
    ensures Within(AppWindow(), 1, 16) == AppWindow() && Within(Served(), 10, 16) == Served()
  {
    hide Where;
    WhereAll(AppWindow(), (x: Record) => 1 <= x.cycles <= 16);
    WhereAll(Served(), (x: Record) => 10 <= x.cycles <= 16);
  }

  /** The frame is accepted, and its completion is after its reply. */
  lemma {:induction false} FrameAccepted()
    ensures FrameTerms(1, PresentEnd(), Parts()).Some? && !FrameInTurn(1, PresentEnd(), Parts())
  {
    hide Find, LastBefore, FirstWhere, Where, Within, AppWindow, AppMoments, FirstLabel, Serial, BlitFrom,
         ParkFailed, BlitInTurn, BlitEnd;
    AllInside();
    MomentsFound();
    ServiceSites();
    NoBlit();
    TagsDiffer();
    NoPark(AppWindow());
  }

  // ----- the drain -----

  lemma {:induction false} SortSorted(rs: seq<Record>)
    requires InOrder(rs)
    ensures SortByCycles(rs) == rs
  {
    if rs != [] {
      var k := |rs| - 1;
      SortSorted(rs[..k]);
      assert rs[..k] + [rs[k]] == rs;
    }
  }

  lemma {:induction false} RecordsInOrder()
    ensures InOrder(Records()) && |Records()| == 19
    ensures SortByCycles(Records()) == Records()
  {
    var rs := Records();
    assert forall i | 0 <= i < 19 :: rs[i].cycles == if i < 3 then 0 else i - 2;
    SortSorted(rs);
  }

  /** Which of the blocks a record is in. */
  lemma {:induction false} InBlocks(x: Record)
    requires x in Records()
    ensures x in Wakes() || x in Drawn() || x in Served() || x in Called() || x == PresentEnd()
  {
  }

  lemma {:induction false} OnlyOne(tag: string, thread: nat, k: nat)
    requires k < 19 && Records()[k].kind == "site" && Records()[k].tag == tag
    requires forall x | x in Records() && x.kind == "site" && x.tag == tag :: x.thread == thread
    ensures OnlyThread(Records(), tag) == Some(thread)
  {
    hide Records;
    FirstSome(Records(), (x: Record) => x.kind == "site" && x.tag == tag, k);
  }

  lemma {:induction false} FirstSome(rs: seq<Record>, p: Record -> bool, k: nat)
    requires k < |rs| && p(rs[k])
    ensures FirstWhere(rs, p).Some?
  {
    if !p(rs[0]) {
      FirstSome(rs[1..], p, k - 1);
    }
  }

  lemma {:induction false} Threads()
    ensures OnlyThread(Records(), "drw-beg") == Some(APP)
    ensures OnlyThread(Records(), "ds-acc") == Some(SERVICE)
    ensures OnlyThread(Records(), "gp-call") == Some(DRIVER)
  {
    hide OnlyThread;
    var rs := Records();
    TagsDiffer();
    assert rs[8] == Drawn()[5] && rs[14] == Served()[1] && rs[17] == Called()[0] && APP_TAGS[5] == "drw-beg";
    ServiceTagsDiffer();
    forall x | x in rs
      ensures x.kind == "site" && x.tag == "drw-beg" ==> x.thread == APP
      ensures x.kind == "site" && x.tag == "ds-acc" ==> x.thread == SERVICE
      ensures x.kind == "site" && x.tag == "gp-call" ==> x.thread == DRIVER
    {
      InBlocks(x);
    }
    OnlyOne("drw-beg", APP, 8);
    OnlyOne("ds-acc", SERVICE, 14);
    OnlyOne("gp-call", DRIVER, 17);
  }

  lemma {:induction false} ServiceTagsDiffer()
    ensures forall i | 0 <= i < 10 :: APP_TAGS[i] != "ds-acc" && APP_TAGS[i] != "gp-call"
  {
    assert forall i | 0 <= i < 10 :: APP_TAGS[i][0] != 'd' || APP_TAGS[i][1] != 's';
    assert forall i | 0 <= i < 10 :: APP_TAGS[i][0] != 'g';
  }

  lemma {:induction false} Sites()
    ensures Where(Records(), SiteOf(APP)) == AppWindow()
    ensures Where(Records(), SiteOf(SERVICE)) == Served()
    ensures Where(Records(), SiteOf(DRIVER)) == Called()
  {
    hide Where, Drawn, Served, Called, Records;
    SitesOfOne(APP);
    SitesOfOne(SERVICE);
    SitesOfOne(DRIVER);
    assert Drawn() + ([] + ([] + [PresentEnd()])) == AppWindow();
    assert [] + (Served() + ([] + [])) == Served();
    assert [] + ([] + (Called() + [])) == Called();
  }

  lemma {:induction false} SitesOfOne(thread: nat)
    ensures Where(Records(), SiteOf(thread))
         == (if thread == APP then Drawn() else []) + ((if thread == SERVICE then Served() else [])
            + ((if thread == DRIVER then Called() else []) + (if thread == APP then [PresentEnd()] else [])))
  {
    hide Where;
    var p := SiteOf(thread);
    var end := [PresentEnd()];
    WhereJoin(Wakes(), Drawn() + (Served() + (Called() + end)), p);
    WhereJoin(Drawn(), Served() + (Called() + end), p);
    WhereJoin(Served(), Called() + end, p);
    WhereJoin(Called(), end, p);
    WhereNone(Wakes(), p);
    if thread == APP {
      WhereAll(Drawn(), p);
      WhereAll(end, p);
    } else {
      WhereNone(Drawn(), p);
      WhereNone(end, p);
    }
    if thread == SERVICE { WhereAll(Served(), p); } else { WhereNone(Served(), p); }
    if thread == DRIVER { WhereAll(Called(), p); } else { WhereNone(Called(), p); }
  }

  lemma {:induction false} MoreEvents(a: seq<Event>, b: seq<Event>)
    requires Transitions(b) != []
    ensures Transitions(a + b) != []
  {
    if a == [] {
      assert a + b == b;
    } else {
      assert (a + b)[1..] == a[1..] + b;
      MoreEvents(a[1..], b);
    }
  }

  lemma {:induction false} WakeSeen(rs: seq<Record>, k: nat, thread: nat)
    requires k < |rs| && rs[k] == Woken(thread)
    ensures Transitions(EventsOf(rs, thread)) != []
  {
    if k == 0 {
      assert EventsIn(rs[0], thread) == [Event(0, Wake)];
      assert EventsOf(rs, thread)[0] == Event(0, Wake);
    } else {
      hide EventsIn;
      WakeSeen(rs[1..], k - 1, thread);
      MoreEvents(EventsIn(rs[0], thread), EventsOf(rs[1..], thread));
    }
  }

  lemma {:induction false} Ends()
    ensures Where(AppWindow(), Presented()) == [PresentEnd()]
    ensures FirstLabel(AppWindow(), "acct-beg") == Some(Drawn()[0])
  {
    hide Where, FirstWhere;
    TagsDiffer();
    WhereJoin(Drawn(), [PresentEnd()], Presented());
    forall x | x in Drawn() ensures x.tag != "prs-end" {
    }
    WhereNone(Drawn(), Presented());
    WhereAll([PresentEnd()], Presented());
    FirstAt(AppWindow(), (x: Record) => x.tag == "acct-beg", 0);
  }

  lemma {:induction false} DrainJoins()
    ensures Joined(Backward()).Some?
    ensures var r := Joined(Backward()).value;
            r.begin == 1 && r.ends == [PresentEnd()] && r.roles == Parts() && |r.frames| == 1
  {
    hide OnlyThread, SortByCycles, Where, FirstLabel, Transitions, EventsOf, FrameTerms, Disturbed, Records,
         AppWindow, Served, Called, FramesFrom;
    RecordsInOrder();
    Threads();
    FirstWakes();
    WakeSeen(Records(), 0, APP);
    WakeSeen(Records(), 1, SERVICE);
    WakeSeen(Records(), 2, DRIVER);
    Sites();
    Ends();
    FrameAccepted();
    OneFrame(1, PresentEnd(), Parts());
    assert !Disturbed(Backward(), Records(), APP) by { Alone(); }
  }

  lemma {:induction false} FirstWakes()
    ensures Records()[0] == Woken(APP) && Records()[1] == Woken(SERVICE) && Records()[2] == Woken(DRIVER)
  {
  }

  lemma {:induction false} OneFrame(begin: int, end: Record, roles: Roles)
    requires FrameTerms(begin, end, roles).Some?
    ensures FramesFrom(begin, [end], roles) == Some([FrameTerms(begin, end, roles).value])
  {
    hide FrameTerms;
    var ends := [end];
    assert ends[..0] == [] && StartOf(begin, ends, 0) == begin;
    assert FramesFrom(begin, ends[..0], roles) == Some([]);
    assert [] + [FrameTerms(begin, end, roles).value] == [FrameTerms(begin, end, roles).value];
  }

  lemma {:induction false} Alone()
    ensures !Disturbed(Backward(), Records(), APP)
  {
    hide Where, EventsOf, Records;
  }

  /** The account accepts the drain, and work and wait come out longer than its one frame. */
  lemma {:induction false} BackwardAccepted(tscHz: nat)
    requires tscHz > 0
    ensures Account(Backward(), tscHz).Some?
    ensures var r := Account(Backward(), tscHz).value;
            |r.frames| == 1 && Attributed(r.records, r.frames[0].terms) > r.frames[0].end - r.frames[0].start
  {
    hide Account, Joined, FrameTerms, FrameInTurn, Attributed;
    DrainJoins();
    ResidueNeverRefuses(Backward(), tscHz);
    AccountAddsUp(Backward(), tscHz);
    FrameAccepted();
    var r := Account(Backward(), tscHz).value;
    assert FrameAddsUp(r, 0);
    AttributedIsTotal(r.records, r.frames[0].terms);
  }
}
