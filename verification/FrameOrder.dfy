/** When a frame's terms all run forwards, as a condition on the sites that were recorded. */
module FrameOrder {
  import opened Bytes
  import opened FrameAccount

  predicate Forward(terms: seq<Term>) {
    forall i | 0 <= i < |terms| :: terms[i].t0 <= terms[i].t1
  }

  lemma {:induction false} ForwardConcat(a: seq<Term>, b: seq<Term>)
    ensures Forward(a + b) <==> Forward(a) && Forward(b)
  {
    var all := a + b;
    assert forall i | 0 <= i < |a| :: all[i] == a[i];
    assert forall i | 0 <= i < |b| :: all[|a| + i] == b[i];
    assert forall i | |a| <= i < |all| :: all[i] == b[i - |a|];
  }

  // ----- the device call -----

  /** When the command notified was seen to complete. */
  function CompletedAt(inside: seq<Record>, notify: Record, reply: int): Option<int> {
    var done :- Find(inside, "vq-done", notify.cycles, reply);
    Some(done.cycles)
  }

  /** The command before the one at `i` was seen to complete no later than that one is notified. */
  predicate TurnAt(notifies: seq<Record>, inside: seq<Record>, reply: int, i: nat) {
    0 < i < |notifies| ==>
      match CompletedAt(inside, notifies[i - 1], reply)
      case None => false
      case Some(done) => done <= notifies[i].cycles
  }

  predicate InTurn(notifies: seq<Record>, inside: seq<Record>, reply: int) {
    forall i | 0 <= i < |notifies| :: TurnAt(notifies, inside, reply, i)
  }

  lemma {:induction false} InTurnSnoc(notifies: seq<Record>, inside: seq<Record>, reply: int)
    requires notifies != []
    ensures var k := |notifies| - 1;
            InTurn(notifies, inside, reply)
            <==> InTurn(notifies[..k], inside, reply) && TurnAt(notifies, inside, reply, k)
  {
    var k := |notifies| - 1;
    assert forall i | 0 <= i < k :: TurnAt(notifies, inside, reply, i) == TurnAt(notifies[..k], inside, reply, i);
  }

  lemma {:induction false} CommandsForward(notifies: seq<Record>, inside: seq<Record>, from: int, reply: int,
                                           driver: nat)
    requires CommandTerms(notifies, inside, from, reply, driver).Some?
    requires from <= reply && forall n | n in notifies :: from <= n.cycles
    ensures var c := CommandTerms(notifies, inside, from, reply, driver).value;
            && (Forward(c.terms) <==> InTurn(notifies, inside, reply))
            && c.cursor <= reply
            && (notifies != [] ==> CompletedAt(inside, notifies[|notifies| - 1], reply) == Some(c.cursor))
  {
    hide Find, InTurn;
    if notifies == [] {
      assert InTurn([], inside, reply) by { NoTurns(inside, reply); }
    } else {
      var k := |notifies| - 1;
      CommandsForward(notifies[..k], inside, from, reply, driver);
      InTurnSnoc(notifies, inside, reply);
      var before := CommandTerms(notifies[..k], inside, from, reply, driver).value;
      var c := CommandTerms(notifies, inside, from, reply, driver).value;
      var two := [Term(BUILD, before.cursor, notifies[k].cycles, driver),
                  Term(ACKNOWLEDGE, notifies[k].cycles, c.cursor, driver)];
      ForwardConcat(before.terms, two);
      assert notifies[k] in notifies;
      TwoForward(two[0], two[1]);
    }
  }

  lemma {:induction false} NoTurns(inside: seq<Record>, reply: int)
    ensures InTurn([], inside, reply)
  {
  }

  lemma {:induction false} TwoForward(a: Term, b: Term)
    ensures Forward([a, b]) <==> a.t0 <= a.t1 && b.t0 <= b.t1
    ensures Forward([a]) <==> a.t0 <= a.t1
  {
    assert [a, b][0] == a && [a, b][1] == b && [a][0] == a;
  }

  /** The commands of the device call between two moments come in turn. */
  predicate CallInTurn(t0: int, t1: int, sites: seq<Record>) {
    var inside := Within(sites, t0, t1);
    match FirstLabel(inside, "gp-call")
    case None => false
    case Some(call) =>
      match FirstWhere(inside, RepliedFrom(call.cycles))
      case None => false
      case Some(reply) => InTurn(Where(inside, NotifiedIn(call.cycles, reply.cycles)), inside, reply.cycles)
  }

  lemma {:induction false} DriverForward(t0: int, t1: int, sites: seq<Record>, driver: nat, service: nat)
    requires DriverTerms(t0, t1, sites, driver, service).Some?
    ensures Forward(DriverTerms(t0, t1, sites, driver, service).value) <==> CallInTurn(t0, t1, sites)
  {
    hide Within, FirstLabel, FirstWhere, Where, CommandTerms, Forward, InTurn;
    var inside := Within(sites, t0, t1);
    var call := FirstLabel(inside, "gp-call").value;
    var reply := FirstWhere(inside, RepliedFrom(call.cycles)).value;
    var notifies := Where(inside, NotifiedIn(call.cycles, reply.cycles));
    var c := CommandTerms(notifies, inside, call.cycles, reply.cycles, driver).value;
    CommandsForward(notifies, inside, call.cycles, reply.cycles, driver);
    var head := Term("transport: device call to the driver", t0, call.cycles, driver);
    var last, back := Term("driver: reply", c.cursor, reply.cycles, driver),
                      Term("transport: device call back to DisplayService", reply.cycles, t1, service);
    ForwardConcat([head], c.terms);
    ForwardConcat([head] + c.terms, [last, back]);
    TwoForward(head, head);
    TwoForward(last, back);
  }

  // ----- the frame -----

  /** The blit ends after it begins and before the device call, whose commands come in turn. */
  predicate BlitInTurn(svcWindow: seq<Record>, accepted: int, drvSites: seq<Record>) {
    var blit := Where(svcWindow, BlitFrom(accepted));
    var blt0, blt1 := FirstLabel(blit, "ds-blt0"), FirstLabel(blit, "ds-blt1");
    var dev0, dev1 := FirstLabel(blit, "ds-dev0"), FirstLabel(blit, "ds-dev1");
    blt0.None?
    || (&& blt1.Some? && dev0.Some? && dev1.Some?
        && blt0.value.cycles <= blt1.value.cycles <= dev0.value.cycles
        && CallInTurn(dev0.value.cycles, dev1.value.cycles, drvSites))
  }

  /** Where the device call ended, or the acceptance when nothing was blitted. */
  function BlitEnd(svcWindow: seq<Record>, accepted: int): int {
    var blit := Where(svcWindow, BlitFrom(accepted));
    var dev1 := FirstLabel(blit, "ds-dev1");
    if FirstLabel(blit, "ds-blt0").None? || dev1.None? then accepted else dev1.value.cycles
  }

  lemma {:induction false} BlitForward(svcWindow: seq<Record>, accepted: int, roles: Roles)
    requires BlitTerms(svcWindow, accepted, roles).Some?
    ensures var (terms, cursor) := BlitTerms(svcWindow, accepted, roles).value;
            && (Forward(terms) <==> BlitInTurn(svcWindow, accepted, roles.drvSites))
            && cursor == BlitEnd(svcWindow, accepted)
  {
    hide FirstLabel, DriverTerms, Forward, CallInTurn, Steps;
    var blit := Where(svcWindow, BlitFrom(accepted));
    if FirstLabel(blit, "ds-blt0").Some? {
      var begin, end := FirstLabel(blit, "ds-blt0").value, FirstLabel(blit, "ds-blt1").value;
      var dev0, dev1 := FirstLabel(blit, "ds-dev0").value, FirstLabel(blit, "ds-dev1").value;
      var moments := [accepted, begin.cycles, end.cycles, dev0.cycles];
      StepsForward(BLIT_TERMS, moments, roles.service);
      assert begin in blit && BlitFrom(accepted)(begin);
      assert Rises(moments, 0) && Rises(moments, 1) == (begin.cycles <= end.cycles);
      assert Rises(moments, 2) == (end.cycles <= dev0.cycles);
      DriverForward(dev0.cycles, dev1.cycles, roles.drvSites, roles.driver, roles.service);
      ForwardConcat(Steps(BLIT_TERMS, moments, roles.service),
                    DriverTerms(dev0.cycles, dev1.cycles, roles.drvSites, roles.driver, roles.service).value);
    } else {
      assert Forward([]) by { NothingForward(); }
    }
  }

  lemma {:induction false} NothingForward()
    ensures Forward([])
  {
  }

  predicate Rises(moments: seq<int>, i: nat) {
    i + 1 < |moments| ==> moments[i] <= moments[i + 1]
  }

  lemma {:induction false} StepsForward(names: seq<string>, moments: seq<int>, thread: nat)
    requires |moments| == |names| + 1
    ensures Forward(Steps(names, moments, thread)) <==> forall i | 0 <= i < |names| :: Rises(moments, i)
  {
    var terms := Steps(names, moments, thread);
    assert forall i | 0 <= i < |names| :: terms[i].t0 <= terms[i].t1 <==> Rises(moments, i);
  }

  /** The sites of one present that the account finds by its serial. */
  datatype Present = Present(svcWindow: seq<Record>, accepted: int, completion: int, reply: int)

  function PresentOf(start: int, presentEnd: Record, roles: Roles): Option<Present> {
    var end, serial := presentEnd.cycles, presentEnd.value;
    var (moments, _) :- AppMoments(Within(roles.appSites, start, end), start, end);
    var svcWindow := Within(roles.svcSites, moments[8], end);
    var accepted :- FirstWhere(svcWindow, Serial("ds-acc", serial, moments[8], end));
    var reply :- Find(svcWindow, "ds-rply", accepted.cycles, end);
    var completion :- FirstWhere(svcWindow, Serial("ds-cmpl", serial, accepted.cycles, end));
    Some(Present(svcWindow, accepted.cycles, completion.cycles, reply.cycles))
  }

  /** The sites after the acceptance are in the order a frame passes them: blit, device call, completion, reply. */
  predicate FrameInTurn(start: int, presentEnd: Record, roles: Roles) {
    match PresentOf(start, presentEnd, roles)
    case None => false
    case Some(p) =>
      && BlitInTurn(p.svcWindow, p.accepted, roles.drvSites)
      && BlitEnd(p.svcWindow, p.accepted) <= p.completion <= p.reply
  }

  lemma {:induction false} StartFirst(window: seq<Record>, start: int, end: int)
    requires AppMoments(window, start, end).Some? && forall x | x in window :: start <= x.cycles
    ensures start <= AppMoments(window, start, end).value.0[1]
  {
  }

  lemma {:induction false} EarlyForward(moments: seq<int>, request: int, accepted: int, roles: Roles)
    requires |moments| == 9 && moments[0] <= moments[1] && forall i | 1 <= i < 8 :: moments[i] <= moments[i + 1]
    requires moments[8] <= request <= accepted
    ensures Forward(Steps(APP_TERMS, moments, roles.app)
                    + Steps(DISPATCH_TERMS, [moments[8], request, accepted], roles.service))
  {
    hide Forward, Steps;
    StepsForward(APP_TERMS, moments, roles.app);
    StepsForward(DISPATCH_TERMS, [moments[8], request, accepted], roles.service);
    ForwardConcat(Steps(APP_TERMS, moments, roles.app),
                  Steps(DISPATCH_TERMS, [moments[8], request, accepted], roles.service));
  }

  lemma {:induction false} EndForward(cursor: int, completion: int, reply: int, end: int, roles: Roles)
    requires reply <= end
    ensures Forward(Steps(END_TERMS, [cursor, completion, reply], roles.service)
                    + [Term("transport: reply back to the application", reply, end, roles.app)])
       <==> cursor <= completion <= reply
  {
    hide Forward, Steps;
    var moments := [cursor, completion, reply];
    var back := Term("transport: reply back to the application", reply, end, roles.app);
    StepsForward(END_TERMS, moments, roles.service);
    assert Rises(moments, 0) == (cursor <= completion) && Rises(moments, 1) == (completion <= reply);
    ForwardConcat(Steps(END_TERMS, moments, roles.service), [back]);
    TwoForward(back, back);
  }

  /** Every term of an accepted frame runs forwards if and only if the sites after the acceptance are in turn. */
  lemma {:induction false} ForwardInTurn(start: int, presentEnd: Record, roles: Roles)
    requires FrameTerms(start, presentEnd, roles).Some?
    ensures Forward(FrameTerms(start, presentEnd, roles).value.terms) <==> FrameInTurn(start, presentEnd, roles)
  {
    hide AppMoments, FirstWhere, LastWhere, Find, BlitTerms, Where, Serial, ParkFailed, Forward, Steps, BlitInTurn,
         BlitEnd;
    var end, serial := presentEnd.cycles, presentEnd.value;
    var window := Within(roles.appSites, start, end);
    var moments := AppMoments(window, start, end).value.0;
    StartFirst(window, start, end);
    var svcWindow := Within(roles.svcSites, moments[8], end);
    var accepted := FirstWhere(svcWindow, Serial("ds-acc", serial, moments[8], end)).value.cycles;
    var request := LastBefore(svcWindow, "ds-req", accepted).value.cycles;
    var reply := Find(svcWindow, "ds-rply", accepted, end).value.cycles;
    var completion := FirstWhere(svcWindow, Serial("ds-cmpl", serial, accepted, end)).value.cycles;
    var (blit, cursor) := BlitTerms(svcWindow, accepted, roles).value;
    var first := Steps(APP_TERMS, moments, roles.app)
                 + Steps(DISPATCH_TERMS, [moments[8], request, accepted], roles.service);
    var finish := Steps(END_TERMS, [cursor, completion, reply], roles.service);
    var back := [Term("transport: reply back to the application", reply, end, roles.app)];
    EarlyForward(moments, request, accepted, roles);
    BlitForward(svcWindow, accepted, roles);
    EndForward(cursor, completion, reply, end, roles);
    assert (first + blit) + finish + back == (first + blit) + (finish + back);
    ForwardConcat(first, blit);
    ForwardConcat(first + blit, finish + back);
  }

  /** Up to the acceptance of the present no term runs backwards: only the order of the sites after it is unchecked. */
  lemma {:induction false} ForwardUntilAccepted(start: int, presentEnd: Record, roles: Roles)
    requires FrameTerms(start, presentEnd, roles).Some?
    ensures var terms := FrameTerms(start, presentEnd, roles).value.terms;
            |terms| >= 13 && forall i | 0 <= i < 10 :: terms[i].t0 <= terms[i].t1
  {
    hide AppMoments, FirstWhere, LastWhere, Find, BlitTerms, Where, Serial, ParkFailed;
    var end, serial := presentEnd.cycles, presentEnd.value;
    var window := Within(roles.appSites, start, end);
    var moments := AppMoments(window, start, end).value.0;
    StartFirst(window, start, end);
    var svcWindow := Within(roles.svcSites, moments[8], end);
    var accepted := FirstWhere(svcWindow, Serial("ds-acc", serial, moments[8], end)).value;
    var request := LastBefore(svcWindow, "ds-req", accepted.cycles).value;
    assert moments[8] <= request.cycles <= accepted.cycles;
    var terms := FrameTerms(start, presentEnd, roles).value.terms;
    var app := Steps(APP_TERMS, moments, roles.app);
    var dispatch := Steps(DISPATCH_TERMS, [moments[8], request.cycles, accepted.cycles], roles.service);
    assert |app| == 8 && |dispatch| == 2;
    assert terms[..10] == app + dispatch;
    forall i | 0 <= i < 10 ensures terms[i].t0 <= terms[i].t1 {
      assert terms[i] == (app + dispatch)[i];
    }
  }
}
