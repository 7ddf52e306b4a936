/** Field lists: units placed by the lengths before them, and the walk that finds where each one is. */
module AmlFields {
  import opened Bytes
  import opened Aml
  import opened AmlTerms

  /** A named unit, a reserved run, the two forms of an access entry, and a connection over a descriptor. */
  datatype Entry =
    | Unit(seg: seq<Byte>, bits: nat)
    | Reserved(bits: nat)
    | AccessAs(access: Byte, attrib: Byte)
    | AccessExt(access: Byte, attrib: Byte, length: Byte)
    | Connection(resource: seq<Byte>)

  /** A buffer's content: the descriptor's length and the descriptor. */
  function BufferBody(resource: seq<Byte>): seq<Byte> {
    EncodeInt(|resource|) + resource
  }

  /** What the emitter writes. */
  predicate EntryWritten(e: Entry) {
    match e
    case Unit(seg, bits) => SegWritten(seg) && bits < LIMIT
    case Reserved(bits) => bits < LIMIT
    case AccessAs(_, _) => true
    case AccessExt(_, _, _) => true
    case Connection(resource) => PkgFits(|BufferBody(resource)|)
  }

  /** What the walk reads as it was meant: not a connection, and no unit whose name takes more than four bytes. */
  predicate EntryFits(e: Entry) {
    EntryWritten(e) && !e.Connection? && (e.Unit? ==> |e.seg| == 4)
  }

  function EntryBytes(e: Entry): (s: seq<Byte>) {
    match e
    case Unit(seg, bits) => seg + LengthBytes(bits)
    case Reserved(bits) => [0x00] + LengthBytes(bits)
    case AccessAs(access, attrib) => [0x01, access, attrib]
    case AccessExt(access, attrib, length) => [0x03, access, attrib, length]
    case Connection(resource) => [0x02, 0x11] + Pkg(BufferBody(resource))
  }

  function ListBytes(es: seq<Entry>): seq<Byte> {
    if es == [] then [] else EntryBytes(es[0]) + ListBytes(es[1..])
  }

  /** `field` over the region the walk looks for. */
  function FieldBytes(region: seq<Byte>, flags: Byte, es: seq<Entry>): seq<Byte> {
    [0x5B, 0x81] + Pkg(region + [flags] + ListBytes(es))
  }

  function Width(e: Entry): nat {
    match e
    case Unit(_, bits) => bits
    case Reserved(bits) => bits
    case AccessAs(_, _) => 0
    case AccessExt(_, _, _) => 0
    case Connection(_) => 0
  }

  function Widths(es: seq<Entry>): nat {
    if es == [] then 0 else Width(es[0]) + Widths(es[1..])
  }

  // ----- the walk -----

  /** A unit, the byte it begins in and the bit of that byte. */
  datatype Found = Found(name: seq<Byte>, byte: nat, bit: nat)

  datatype Walk = Walk(units: seq<Found>, at: nat, bit: nat)

  function LengthAt(table: seq<Byte>, at: nat): (r: Option<Length>)
    ensures r.Some? ==> 1 <= r.value.size <= 4 && at + r.value.size <= |table|
  {
    if at > |table| then None else DecodeLength(table[at..])
  }

  /** The walk of one field list from offset `at` and bit `bit` on; reading past the table raises. */
  function WalkFrom(table: seq<Byte>, at: nat, end: nat, bit: nat): Option<Walk>
    requires end <= |table|
    decreases end - at
  {
    if at >= end then Some(Walk([], at, bit))
    else if table[at] == 0x00 then
      var l :- LengthAt(table, at + 1);
      WalkFrom(table, at + 1 + l.size, end, bit + l.value)
    else if table[at] == 0x01 || table[at] == 0x03 then
      WalkFrom(table, at + (if table[at] == 0x01 then 3 else 4), end, bit)
    else
      var l :- LengthAt(table, at + 4);
      var more :- WalkFrom(table, at + 4 + l.size, end, bit + l.value);
      Some(more.(units := [Found(Slice(table, at, at + 4), bit / 8, bit % 8)] + more.units))
  }

  /** The field whose opcode is at `start`: walked when it is the region's and lies within the table. */
  function FieldWalk(table: seq<Byte>, start: nat, region: seq<Byte>): Option<Walk> {
    var l :- LengthAt(table, start + 2);
    var body, end := start + 2 + l.size, start + 2 + l.value;
    if Slice(table, body, body + 4) == region && end <= |table| then WalkFrom(table, body + 5, end, 0)
    else Some(Walk([], end, 0))
  }

  method PageUnits(table: seq<Byte>, start: nat, region: seq<Byte>) returns (r: Option<Walk>)
    ensures r == FieldWalk(table, start, region)
  {
    hide LengthAt, Slice;
    var l :- LengthAt(table, start + 2);
    var body, end := start + 2 + l.size, start + 2 + l.value;
    if Slice(table, body, body + 4) != region || end > |table| { return Some(Walk([], end, 0)); }
    var at: nat, bit: nat, units: seq<Found> := body + 5, 0, [];
    assert forall more: seq<Found> :: [] + more == more;
    while at < end
      invariant match WalkFrom(table, at, end, bit)
                case None => WalkFrom(table, body + 5, end, 0).None?
                case Some(w) => WalkFrom(table, body + 5, end, 0) == Some(w.(units := units + w.units))
      decreases end - at
    {
      if table[at] == 0x00 {
        var n :- LengthAt(table, at + 1);
        at, bit := at + 1 + n.size, bit + n.value;
      } else if table[at] == 0x01 || table[at] == 0x03 {
        at := at + (if table[at] == 0x01 then 3 else 4);
      } else {
        var name := Slice(table, at, at + 4);
        var n :- LengthAt(table, at + 4);
        var found := Found(name, bit / 8, bit % 8);
        assert forall more :: units + ([found] + more) == (units + [found]) + more;
        at := at + 4 + n.size;
        units := units + [found];
        bit := bit + n.value;
      }
    }
    assert units + [] == units;
    return Some(Walk(units, at, bit));
  }

  // ----- what the walk finds -----

  /** Each named unit in order, at the sum of all the widths before it. */
  function Placed(es: seq<Entry>, bit: nat): seq<Found> {
    if es == [] then []
    else Own(es[0], bit) + Placed(es[1..], bit + Width(es[0]))
  }

  function NamedUnits(es: seq<Entry>): nat {
    if es == [] then 0 else (if es[0].Unit? then 1 else 0) + NamedUnits(es[1..])
  }

  /** A unit stands at the sum of the widths of everything before it, after the units before it. */
  lemma {:induction false} PlacedAt(es: seq<Entry>, bit: nat, i: nat)
    requires i < |es| && es[i].Unit?
    ensures |Placed(es, bit)| == NamedUnits(es) > NamedUnits(es[..i])
    ensures var sum := bit + Widths(es[..i]);
            Placed(es, bit)[NamedUnits(es[..i])] == Found(es[i].seg, sum / 8, sum % 8)
  {
    PlacedCount(es, bit);
    if i == 0 {
      assert es[..0] == [];
      PlacedCount(es[1..], bit + Width(es[0]));
    } else {
      assert es[..i] == [es[0]] + es[1..][..i - 1];
      PlacedAt(es[1..], bit + Width(es[0]), i - 1);
    }
  }

  lemma {:induction false} PlacedCount(es: seq<Entry>, bit: nat)
    ensures |Placed(es, bit)| == NamedUnits(es)
  {
    if es != [] {
      PlacedCount(es[1..], bit + Width(es[0]));
    }
  }

  lemma {:induction false} EntryAt(table: seq<Byte>, at: nat, e: Entry, rest: seq<Byte>)
    requires at <= |table| && table[at..] == EntryBytes(e) + rest && EntryFits(e)
    ensures EntryBytes(e) != [] && at < |table|
    ensures e.Unit? ==> table[at] != 0x00 && table[at] != 0x01 && table[at] != 0x03 && Slice(table, at, at + 4) == e.seg
                        && LengthAt(table, at + 4) == Some(Length(e.bits, |EntryBytes(e)| - 4))
    ensures e.Reserved? ==> table[at] == 0x00 && LengthAt(table, at + 1) == Some(Length(e.bits, |EntryBytes(e)| - 1))
    ensures e.AccessAs? ==> table[at] == 0x01
    ensures e.AccessExt? ==> table[at] == 0x03
  {
    hide DecodeLength, LengthBytes, NameChar, Pkg, BufferBody;
    assert table[at] == table[at..][0];
    match e
    case Unit(seg, bits) =>
      assert table[at..] == seg + (LengthBytes(bits) + rest);
      assert table[at + 4..] == table[at..][4..] == LengthBytes(bits) + rest;
      LengthRoundTrip(bits, rest);
      assert Slice(table, at, at + 4) == table[at..][..4] == seg;
    case Reserved(bits) =>
      assert table[at..] == [0x00] + (LengthBytes(bits) + rest);
      assert table[at + 1..] == table[at..][1..] == LengthBytes(bits) + rest;
      LengthRoundTrip(bits, rest);
    case AccessAs(_, _) =>
    case AccessExt(_, _, _) =>
  }

  /** The units one entry adds to the walk. */
  function Own(e: Entry, bit: nat): seq<Found> {
    if e.Unit? then [Found(e.seg, bit / 8, bit % 8)] else []
  }

  lemma {:induction false} WalkEntry(table: seq<Byte>, at: nat, end: nat, bit: nat, e: Entry, rest: seq<Byte>)
    requires at < end <= |table| && table[at..] == EntryBytes(e) + rest && EntryFits(e)
    ensures WalkFrom(table, at, end, bit) ==
            match WalkFrom(table, at + |EntryBytes(e)|, end, bit + Width(e))
            case None => None
            case Some(w) => Some(w.(units := Own(e, bit) + w.units))
  {
    hide EntryBytes, LengthAt, EntryWritten, Slice;
    EntryAt(table, at, e, rest);
    EntrySize(e);
    assert forall more: seq<Found> :: [] + more == more;
  }

  lemma {:induction false} WalkPlaces(table: seq<Byte>, at: nat, end: nat, bit: nat, es: seq<Entry>)
    requires at <= end <= |table| && table[at..end] == ListBytes(es)
    requires forall i | 0 <= i < |es| :: EntryFits(es[i])
    ensures WalkFrom(table, at, end, bit) == Some(Walk(Placed(es, bit), end, bit + Widths(es)))
    decreases es
  {
    hide EntryBytes, EntryFits, WalkFrom;
    if es == [] {
      WalkEnds(table, at, bit);
    } else {
      var own, more := EntryBytes(es[0]), ListBytes(es[1..]);
      assert table[at..] == own + (more + table[end..]) by {
        assert table[at..] == table[at..end] + table[end..];
      }
      EntryAt(table, at, es[0], more + table[end..]);
      WalkEntry(table, at, end, bit, es[0], more + table[end..]);
      var next := at + |own|;
      assert table[next..end] == table[at..end][|own|..] == more;
      WalkPlaces(table, next, end, bit + Width(es[0]), es[1..]);
    }
  }

  lemma {:induction false} WalkEnds(table: seq<Byte>, at: nat, bit: nat)
    requires at <= |table|
    ensures WalkFrom(table, at, at, bit) == Some(Walk([], at, bit))
  {
  }

  lemma {:induction false} EntrySize(e: Entry)
    ensures e.AccessAs? ==> |EntryBytes(e)| == 3
    ensures e.AccessExt? ==> |EntryBytes(e)| == 4
  {
  }

  // ----- what the walk cannot read -----

  /** The walk takes four bytes for every name. */
  lemma {:induction false} WalkNames(table: seq<Byte>, at: nat, end: nat, bit: nat)
    requires end <= |table| && WalkFrom(table, at, end, bit).Some?
    ensures forall x | x in WalkFrom(table, at, end, bit).value.units :: |x.name| <= 4
    decreases end - at
  {
    hide LengthAt;
    if at < end {
      if table[at] == 0x00 {
        var l := LengthAt(table, at + 1).value;
        WalkNames(table, at + 1 + l.size, end, bit + l.value);
      } else if table[at] == 0x01 || table[at] == 0x03 {
        WalkNames(table, at + (if table[at] == 0x01 then 3 else 4), end, bit);
      } else {
        var l := LengthAt(table, at + 4).value;
        WalkNames(table, at + 4 + l.size, end, bit + l.value);
      }
    }
  }

  /** A name no unit has: it begins with the byte a connection begins with. */
  predicate Mistaken(x: Found) {
    x.name != [] && x.name[0] == 0x02
  }

  lemma {:induction false} PlacedNames(es: seq<Entry>, bit: nat)
    requires forall i | 0 <= i < |es| :: EntryWritten(es[i])
    ensures forall x | x in Placed(es, bit) :: !Mistaken(x)
  {
    if es != [] {
      assert EntryWritten(es[0]);
      PlacedNames(es[1..], bit + Width(es[0]));
    }
  }

  lemma {:induction false} AtConnection(table: seq<Byte>, at: nat, end: nat, bit: nat)
    requires at < end <= |table| && table[at] == 0x02
    ensures match WalkFrom(table, at, end, bit)
            case None => true
            case Some(w) => w.units != [] && Mistaken(w.units[0])
  {
    hide LengthAt;
    assert Slice(table, at, at + 4)[0] == table[at];
  }

  /** From a list with a connection, whose names take four bytes, the walk fails or finds a unit that is none. */
  lemma {:induction false} WalkMistakes(table: seq<Byte>, at: nat, end: nat, bit: nat, es: seq<Entry>)
    requires at <= end <= |table| && table[at..end] == ListBytes(es)
    requires forall i | 0 <= i < |es| :: EntryWritten(es[i]) && (es[i].Unit? ==> |es[i].seg| == 4)
    requires exists i | 0 <= i < |es| :: es[i].Connection?
    ensures match WalkFrom(table, at, end, bit)
            case None => true
            case Some(w) => exists x :: x in w.units && Mistaken(x)
    decreases es
  {
    hide EntryBytes, EntryWritten, WalkFrom, Mistaken, Pkg;
    var own, more := EntryBytes(es[0]), ListBytes(es[1..]);
    EntrySome(es[0]);
    assert table[at..] == own + (more + table[end..]) by {
      assert table[at..] == table[at..end] + table[end..];
    }
    if es[0].Connection? {
      assert table[at] == table[at..][0] == own[0];
      AtConnection(table, at, end, bit);
    } else {
      WalkEntry(table, at, end, bit, es[0], more + table[end..]);
      var next := at + |own|;
      assert table[next..end] == table[at..end][|own|..] == more;
      var i :| 0 <= i < |es| && es[i].Connection?;
      assert es[1..][i - 1] == es[i];
      WalkMistakes(table, next, end, bit + Width(es[0]), es[1..]);
      assert forall own: seq<Found>, more: seq<Found>, x :: x in more ==> x in own + more;
    }
  }

  lemma {:induction false} EntrySome(e: Entry)
    requires EntryWritten(e)
    ensures EntryBytes(e) != [] && (e.Connection? ==> EntryBytes(e)[0] == 0x02)
  {
    hide Pkg, BufferBody;
  }

  // ----- the field -----

  lemma {:induction false} FieldStands(before: seq<Byte>, region: seq<Byte>, flags: Byte, es: seq<Entry>,
                                       after: seq<Byte>)
    returns (at: nat, end: nat)
    requires |region| == 4 && PkgFits(5 + |ListBytes(es)|)
    ensures var field := FieldBytes(region, flags, es);
            var table := before + field + after;
            && at <= end == |before| + |field| <= |table| && table[at..end] == ListBytes(es)
            && FieldWalk(table, |before|, region) == WalkFrom(table, at, end, 0)
  {
    hide DecodeLength, Pkg, PkgExtra, WalkFrom, ListBytes;
    var content := region + [flags] + ListBytes(es);
    var table := before + FieldBytes(region, flags, es) + after;
    var start := |before|;
    var size := 1 + PkgExtra(|content|);
    PkgRoundTrip(content, after);
    assert table[start + 2..] == Pkg(content) + after;
    var body := start + 2 + size;
    end := body + |content|;
    at := body + 5;
    assert table[body..end] == table[start + 2..][size..size + |content|] == content;
    assert Slice(table, body, body + 4) == table[body..end][..4] == region;
    assert table[at..end] == content[5..] == ListBytes(es);
  }

  /** The walk finds exactly the named units, in order and each in its place. */
  predicate FindsAll(r: Option<Walk>, es: seq<Entry>) {
    r.Some? && r.value.units == Placed(es, 0)
  }

  /** Wherever an emitted field stands in a table, the walk finds its named units in order, each at the sum of the
      lengths before it, if and only if no entry is a connection and no unit's name takes more than four bytes; it then
      ends exactly at the field's end. */
  lemma {:induction false} FieldReadBack(before: seq<Byte>, region: seq<Byte>, flags: Byte, es: seq<Entry>,
                                         after: seq<Byte>)
    requires |region| == 4 && PkgFits(5 + |ListBytes(es)|) && forall i | 0 <= i < |es| :: EntryWritten(es[i])
    ensures var field := FieldBytes(region, flags, es);
            var walk := FieldWalk(before + field + after, |before|, region);
            && (FindsAll(walk, es) <==> forall i | 0 <= i < |es| :: EntryFits(es[i]))
            && (FindsAll(walk, es) ==> walk == Some(Walk(Placed(es, 0), |before| + |field|, Widths(es))))
  {
    hide WalkFrom, Placed, Widths, ListBytes, FieldWalk, EntryWritten, FieldBytes, Mistaken;
    var at, end := FieldStands(before, region, flags, es, after);
    var table := before + FieldBytes(region, flags, es) + after;
    if forall i | 0 <= i < |es| :: EntryFits(es[i]) {
      WalkPlaces(table, at, end, 0, es);
    } else if WalkFrom(table, at, end, 0).Some? {
      if i :| 0 <= i < |es| && es[i].Unit? && |es[i].seg| != 4 {
        WalkNames(table, at, end, 0);
        LongName(es, i);
      } else {
        WalkMistakes(table, at, end, 0, es);
        PlacedNames(es, 0);
      }
    }
  }

  lemma {:induction false} LongName(es: seq<Entry>, i: nat)
    requires i < |es| && es[i].Unit? && EntryWritten(es[i]) && |es[i].seg| != 4
    ensures exists x :: x in Placed(es, 0) && |x.name| > 4
  {
    hide Placed;
    PlacedAt(es, 0, i);
    var x := Placed(es, 0)[NamedUnits(es[..i])];
    assert x in Placed(es, 0);
  }

  // ----- a field that is not read -----

  const REGION: seq<Byte> := [0x48, 0x50, 0x47, 0x53]

  /** A unit `REG0` of 8 bits after a connection over an empty descriptor. */
  const CONNECTED: seq<Entry> := [Connection([]), Unit([0x52, 0x45, 0x47, 0x30], 8)]

  lemma {:induction false} ConnectedBytes()
    ensures ListBytes(CONNECTED) == [0x02, 0x11, 0x02, 0x00, 0x52, 0x45, 0x47, 0x30, 0x08]
  {
    var reg0: seq<Byte> := [0x52, 0x45, 0x47, 0x30];
    assert BufferBody([]) == [0x00] && Pkg([0x00]) == [0x02, 0x00] by { ShortPkg([0x00]); }
    assert EntryBytes(CONNECTED[0]) == [0x02, 0x11, 0x02, 0x00];
    assert EntryBytes(CONNECTED[1]) == reg0 + [0x08];
    assert CONNECTED[1..] == [CONNECTED[1]] && CONNECTED[1..][1..] == [];
    assert ListBytes(CONNECTED[1..]) == reg0 + [0x08];
  }

  lemma {:induction false} ShortPkg(body: seq<Byte>)
    requires |body| < 0x3F
    ensures Pkg(body) == [1 + |body|] + body
  {
  }

  /** The walk takes the connection for a unit's name and what follows for a length, and here runs off the table. */
  lemma {:induction false} ConnectionUnread()
    ensures FieldWalk([] + FieldBytes(REGION, 0, CONNECTED) + [], 0, REGION) == None
  {
    hide WalkFrom, ListBytes, FieldWalk, Pkg;
    ConnectedBytes();
    var at, end := FieldStands([], REGION, 0, CONNECTED, []);
    var table := [] + FieldBytes(REGION, 0, CONNECTED) + [];
    ConnectedWalk(table, at, end);
  }

  lemma {:induction false} ConnectedWalk(table: seq<Byte>, at: nat, end: nat)
    requires at <= end == |table| && table[at..end] == [0x02, 0x11, 0x02, 0x00, 0x52, 0x45, 0x47, 0x30, 0x08]
    ensures WalkFrom(table, at, end, 0) == None
  {
    var list := table[at..end];
    assert table[at] == list[0] && table[at + 6] == list[6];
    assert table[at + 4..] == list[4..] == [0x52, 0x45, 0x47, 0x30, 0x08];
    assert LengthAt(table, at + 4) == Some(Length(1106, 2));
    assert WalkFrom(table, at + 6, end, 1106) == None;
  }
}
