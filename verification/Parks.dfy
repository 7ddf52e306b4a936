/** The pacing parks of a frame: time waited before the requested deadline, and time beyond it. */
module Parks {
  import opened Bytes
  import opened FrameAccount
  import opened FrameOrder
  import opened FrameSummary

  /** A park under way: what it asked for in milliseconds, its ticks and when it began. */
  datatype Pending = Pending(asked: real, ticks: nat, begin: int)

  /** A park clipped to the frame's window, with what was left of its deadline there. */
  datatype Park = Park(asked: real, ticks: nat, begin: int, end: int, onDeadline: bool, bounded: bool)

  function MaxInt(a: int, b: int): int {
    if a < b then b else a
  }

  function MinInt(a: int, b: int): int {
    if b < a then b else a
  }

  function MaxReal(a: real, b: real): real {
    if a < b then b else a
  }

  function MinReal(a: real, b: real): real {
    if b < a then b else a
  }

  /** The park that `end` closes; none when it falls outside the window. */
  function Clipped(p: Pending, end: Record, t0: int, t1: int, k: real): seq<Park> {
    var woke := Woke(end.value);
    var lo, hi := MaxInt(t0, p.begin), MinInt(t1, end.cycles);
    if hi >= lo then
      [Park(MaxReal(0.0, p.asked - Ms(lo - p.begin, k)), p.ticks, lo, hi, woke < 0,
            p.ticks != 0 || p.asked != 0.0 || woke == TIMED_OUT)]
    else []
  }

  /** The parks of a window from a park possibly under way; `None` when one ended with an error that is no deadline. */
  function ParksFrom(window: seq<Record>, pending: Option<Pending>, t0: int, t1: int, k: real): Option<seq<Park>>
    decreases window
  {
    if window == [] then Some([])
    else
      var site, rest := window[0], window[1..];
      if site.tag == "park-ns" then
        ParksFrom(rest, Some(Pending(site.value as real / 1000000.0, 0, site.cycles)), t0, t1, k)
      else if site.tag == "park-tk" && pending.Some? then
        ParksFrom(rest, Some(pending.value.(ticks := site.value)), t0, t1, k)
      else if site.tag == "park-end" && pending.Some? then
        if WaitFailed(site) then None
        else
          var more :- ParksFrom(rest, None, t0, t1, k);
          Some(Clipped(pending.value, site, t0, t1, k) + more)
      else ParksFrom(rest, pending, t0, t1, k)
  }

  /** The frame is refused for its parks exactly when one of them ended with an error that is no deadline. */
  lemma {:induction false} RefusedForPark(window: seq<Record>, pending: Option<Pending>, t0: int, t1: int, k: real)
    ensures ParksFrom(window, pending, t0, t1, k).None? <==> ParkFailed(window, pending.Some?)
    decreases window
  {
    hide WaitFailed, Clipped;
    if window != [] {
      var site, rest := window[0], window[1..];
      var ns := Pending(site.value as real / 1000000.0, 0, site.cycles);
      RefusedForPark(rest, Some(ns), t0, t1, k);
      RefusedForPark(rest, None, t0, t1, k);
      RefusedForPark(rest, pending, t0, t1, k);
      if pending.Some? {
        RefusedForPark(rest, Some(pending.value.(ticks := site.value)), t0, t1, k);
      }
    }
  }

  function Waited(p: Park, k: real): real {
    Ms(p.end - p.begin, k)
  }

  /** Of the bounded parks: waited before the deadline, beyond it, and in all. */
  function WithinDeadline(parks: seq<Park>, k: real): real {
    if parks == [] then 0.0
    else (if parks[0].bounded then MinReal(parks[0].asked, Waited(parks[0], k)) else 0.0)
         + WithinDeadline(parks[1..], k)
  }

  function BeyondDeadline(parks: seq<Park>, k: real): real {
    if parks == [] then 0.0
    else (if parks[0].bounded then MaxReal(Waited(parks[0], k) - parks[0].asked, 0.0) else 0.0)
         + BeyondDeadline(parks[1..], k)
  }

  function BoundedWait(parks: seq<Park>, k: real): real {
    if parks == [] then 0.0 else (if parks[0].bounded then Waited(parks[0], k) else 0.0) + BoundedWait(parks[1..], k)
  }

  datatype Breakdown = Breakdown(parks: seq<Park>, fallback: real, rounding: real)

  method ParkBreakdown(window: seq<Record>, t0: int, t1: int, k: real) returns (r: Option<Breakdown>)
    ensures r == match ParksFrom(window, None, t0, t1, k)
                 case None => None
                 case Some(parks) => Some(Breakdown(parks, WithinDeadline(parks, k), BeyondDeadline(parks, k)))
  {
    hide Clipped, WaitFailed, Ms;
    var parks: seq<Park>, pending: Option<Pending> := [], None;
    assert window[0..] == window;
    assert forall more: seq<Park> :: [] + more == more;
    for i := 0 to |window|
      invariant match ParksFrom(window[i..], pending, t0, t1, k)
                case None => ParksFrom(window, None, t0, t1, k).None?
                case Some(more) => ParksFrom(window, None, t0, t1, k) == Some(parks + more)
    {
      var site := window[i];
      assert window[i..][0] == site && window[i..][1..] == window[i + 1..];
      if site.tag == "park-ns" {
        pending := Some(Pending(site.value as real / 1000000.0, 0, site.cycles));
      } else if site.tag == "park-tk" && pending.Some? {
        pending := Some(pending.value.(ticks := site.value));
      } else if site.tag == "park-end" && pending.Some? {
        if WaitFailed(site) { return None; }
        var park := Clipped(pending.value, site, t0, t1, k);
        assert forall more :: parks + (park + more) == (parks + park) + more;
        parks := parks + park;
        pending := None;
      }
    }
    assert window[|window|..] == [] && parks + [] == parks;
    var fallback, rounding := 0.0, 0.0;
    for i := |parks| downto 0
      invariant fallback == WithinDeadline(parks[i..], k) && rounding == BeyondDeadline(parks[i..], k)
    {
      var p := parks[i];
      assert parks[i..][0] == p && parks[i..][1..] == parks[i + 1..];
      if p.bounded {
        fallback := MinReal(p.asked, Waited(p, k)) + fallback;
        rounding := MaxReal(Waited(p, k) - p.asked, 0.0) + rounding;
      }
    }
    assert parks[0..] == parks;
    return Some(Breakdown(parks, fallback, rounding));
  }

  /** The parks lie one after the other from `lo` on, none past `hi`. */
  ghost predicate Apart(parks: seq<Park>, lo: int, hi: int) {
    parks == [] || (lo <= parks[0].begin <= parks[0].end <= hi && Apart(parks[1..], parks[0].end, hi))
  }

  /** Clipped parks of a time-ordered window are disjoint: each begins no earlier than the one before it ends. */
  lemma {:induction false} ParksApart(window: seq<Record>, pending: Option<Pending>, t0: int, t1: int, k: real, lo: int)
    requires InOrder(window) && ParksFrom(window, pending, t0, t1, k).Some?
    requires forall i | 0 <= i < |window| :: lo <= window[i].cycles
    requires pending.Some? ==> lo <= pending.value.begin
    requires pending.Some? ==> forall i | 0 <= i < |window| :: pending.value.begin <= window[i].cycles
    ensures Apart(ParksFrom(window, pending, t0, t1, k).value, MaxInt(t0, lo), t1)
    decreases window
  {
    hide Woke, Ms;
    if window != [] {
      var site, rest := window[0], window[1..];
      if site.tag == "park-ns" {
        ParksApart(rest, Some(Pending(site.value as real / 1000000.0, 0, site.cycles)), t0, t1, k, lo);
      } else if site.tag == "park-tk" && pending.Some? {
        ParksApart(rest, Some(pending.value.(ticks := site.value)), t0, t1, k, lo);
      } else if site.tag == "park-end" && pending.Some? {
        ParksApart(rest, None, t0, t1, k, site.cycles);
        var more := ParksFrom(rest, None, t0, t1, k).value;
        var own := Clipped(pending.value, site, t0, t1, k);
        if own == [] {
          assert own + more == more;
          ApartLower(more, MaxInt(t0, site.cycles), MaxInt(t0, lo), t1);
        } else {
          assert (own + more)[0] == own[0] && (own + more)[1..] == more;
          ApartLower(more, MaxInt(t0, site.cycles), own[0].end, t1);
        }
      } else {
        ParksApart(rest, pending, t0, t1, k, lo);
      }
    }
  }

  lemma {:induction false} ApartLower(parks: seq<Park>, lo: int, lower: int, hi: int)
    requires Apart(parks, lo, hi) && lower <= lo
    ensures Apart(parks, lower, hi)
  {
  }

  lemma {:induction false} ApartWait(parks: seq<Park>, lo: int, hi: int, k: real)
    requires Apart(parks, lo, hi) && lo <= hi && k >= 0.0
    ensures 0.0 <= BoundedWait(parks, k) <= Ms(hi - lo, k)
  {
    if parks == [] {
      MsOrder(0, hi - lo, k);
    } else {
      var p := parks[0];
      ApartWait(parks[1..], p.end, hi, k);
      MsAdd(p.end - p.begin, hi - p.end, k);
      MsOrder(0, p.end - p.begin, k);
      MsOrder(hi - p.begin, hi - lo, k);
      MsOrder(hi - p.end, hi - lo, k);
    }
  }

  lemma {:induction false} MsOrder(a: int, b: int, k: real)
    requires a <= b && k >= 0.0
    ensures Ms(a, k) <= Ms(b, k) && Ms(0, k) == 0.0
  {
  }

  lemma {:induction false} DeadlineSplits(parks: seq<Park>, k: real)
    ensures WithinDeadline(parks, k) + BeyondDeadline(parks, k) == BoundedWait(parks, k)
  {
    hide Waited;
    if parks != [] {
      DeadlineSplits(parks[1..], k);
    }
  }

  /** The time within deadlines and the time beyond them add up to the time waited in bounded parks, and that is never
      more than the window. */
  lemma {:induction false} ParksAddUp(window: seq<Record>, t0: int, t1: int, k: real)
    requires InOrder(window) && t0 <= t1 && k >= 0.0 && ParksFrom(window, None, t0, t1, k).Some?
    ensures var parks := ParksFrom(window, None, t0, t1, k).value;
            && Apart(parks, t0, t1)
            && WithinDeadline(parks, k) + BeyondDeadline(parks, k) == BoundedWait(parks, k) <= Ms(t1 - t0, k)
  {
    hide ParksFrom, Ms;
    var lo := if window == [] then t0 else MinInt(t0, window[0].cycles);
    ParksApart(window, None, t0, t1, k, lo);
    var parks := ParksFrom(window, None, t0, t1, k).value;
    ApartWait(parks, t0, t1, k);
    DeadlineSplits(parks, k);
  }

  // ----- the parks of an accepted drain -----

  lemma {:induction false} WhereInOrder(rs: seq<Record>, p: Record -> bool)
    requires InOrder(rs)
    ensures InOrder(Where(rs, p))
  {
    if rs != [] {
      WhereInOrder(rs[1..], p);
      var more := Where(rs[1..], p);
      forall i | 0 <= i < |more| ensures rs[0].cycles <= more[i].cycles {
        assert more[i] in rs[1..];
      }
    }
  }

  /** The application's sites of a frame. */
  function PacingWindow(start: int, presentEnd: Record, roles: Roles): seq<Record> {
    Within(roles.appSites, start, presentEnd.cycles)
  }

  /** A frame's parks are accounted for: what they waited within and beyond their deadlines is all of their bounded
      wait, and no more than the pacing term, the frame's first. */
  ghost predicate ParksInTerm(start: int, presentEnd: Record, roles: Roles, f: Frame, k: real) {
    && f.terms != [] && f.terms[0].name == APP_TERMS[0] && f.terms[0].t0 == start
    && var r := ParksFrom(PacingWindow(start, presentEnd, roles), None, start, f.terms[0].t1, k);
    && r.Some?
    && WithinDeadline(r.value, k) + BeyondDeadline(r.value, k) == BoundedWait(r.value, k)
    && BoundedWait(r.value, k) <= Ms(f.terms[0].t1 - f.terms[0].t0, k)
  }

  lemma {:induction false} PacingTerm(start: int, presentEnd: Record, roles: Roles)
    requires FrameTerms(start, presentEnd, roles).Some?
    ensures var f := FrameTerms(start, presentEnd, roles).value;
            && !ParkFailed(PacingWindow(start, presentEnd, roles), false)
            && f.terms != [] && f.terms[0].name == APP_TERMS[0] && f.terms[0].t0 == start <= f.terms[0].t1
  {
    hide AppMoments, FirstWhere, LastBefore, Find, BlitTerms, Where, Serial, ParkFailed;
    var end := presentEnd.cycles;
    var window := Within(roles.appSites, start, end);
    var moments := AppMoments(window, start, end).value.0;
    StartFirst(window, start, end);
    var app := Steps(APP_TERMS, moments, roles.app);
    assert app[0] == Term(APP_TERMS[0], moments[0], moments[1], roles.app);
    assert FrameTerms(start, presentEnd, roles).value.terms[0] == app[0];
  }

  lemma {:induction false} FrameParks(start: int, presentEnd: Record, roles: Roles, k: real)
    requires FrameTerms(start, presentEnd, roles).Some? && InOrder(roles.appSites) && k >= 0.0
    ensures ParksInTerm(start, presentEnd, roles, FrameTerms(start, presentEnd, roles).value, k)
  {
    hide FrameTerms, ParksFrom, ParkFailed, Where, InOrder, WithinDeadline, BeyondDeadline, BoundedWait, Ms, Apart;
    var f := FrameTerms(start, presentEnd, roles).value;
    PacingTerm(start, presentEnd, roles);
    var window, t1 := PacingWindow(start, presentEnd, roles), f.terms[0].t1;
    WhereInOrder(roles.appSites, (x: Record) => start <= x.cycles <= presentEnd.cycles);
    RefusedForPark(window, None, start, t1, k);
    ParksAddUp(window, start, t1, k);
  }

  /** So of every frame of every drain the account accepts. */
  lemma {:induction false} AccountParks(d: Drain, tscHz: nat, i: nat)
    requires Account(d, tscHz).Some? && i < |Account(d, tscHz).value.ends|
    ensures var r := Account(d, tscHz).value;
            && |r.frames| == |r.ends|
            && ParksInTerm(StartOf(r.begin, r.ends, i), r.ends[i], r.roles, r.frames[i], ScaleOf(tscHz))
  {
    hide Account, FramesFrom, SortByCycles, FrameTerms, FramesTile, InOrder, ParksInTerm, Where, Intervals;
    var r := Account(d, tscHz).value;
    AccountIs(d, tscHz);
    SortedInOrder(d.records);
    WhereInOrder(r.records, SiteOf(r.roles.app));
    FramesOk(r.begin, r.ends, r.roles);
    FrameParks(StartOf(r.begin, r.ends, i), r.ends[i], r.roles, ScaleOf(tscHz));
  }

  /** An accepted drain has a clock. */
  function ScaleOf(tscHz: nat): (k: real)
    ensures k >= 0.0
  {
    if tscHz == 0 then 0.0 else Scale(tscHz)
  }
}
