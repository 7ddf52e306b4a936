/** One Ethernet frame as the test peer reads it. Every byte string has a reading: nothing here can fail. */
module InetFrame {
  import opened Bytes

  const ARP := 0x0806
  const IPV4 := 0x0800
  const IPV6 := 0x86DD

  const HOP_BY_HOP: Byte := 0
  const DESTINATION: Byte := 60
  const ICMPV6: Byte := 58
  const UDP: Byte := 17
  const TCP: Byte := 6
  const ICMP: Byte := 1

  const ROUTER_ALERT: Byte := 5
  const MLD_REPORT_V1: Byte := 131
  const MLD_DONE_V1: Byte := 132
  const NEIGHBOUR_SOLICITATION: Byte := 135
  const NEIGHBOUR_ADVERTISEMENT: Byte := 136
  const MLD_REPORT_V2: Byte := 143

  datatype Kind =
    | Other | Arp | Ipv4 | Tcp4 | EchoReply4 | EchoRequest4
    | Udp6 | Tcp6 | Proto6(next: Byte) | Icmp6(message: Byte)

  datatype Frame = Frame(
    kind: Kind, ethertype: nat, sourceMac: seq<Byte>,
    source: seq<Byte>, destination: seq<Byte>, hopLimit: Byte,
    icmpType: Option<Byte>, routerAlert: bool, target: seq<Byte>, groups: seq<seq<Byte>>,
    ipv4Source: seq<Byte>, ipv4Destination: seq<Byte>,
    sourcePort: nat, destinationPort: nat, sequence: nat, acknowledgement: nat, flags: Byte, payload: seq<Byte>)

  const BLANK := Frame(Other, 0, [], [], [], 0, None, false, [], [], [], [], 0, 0, 0, 0, 0, [])

  predicate IsExtension(next: Byte) {
    next == HOP_BY_HOP || next == DESTINATION
  }

  /** Whether the options from here on hold a router alert. */
  function AlertIn(options: seq<Byte>): bool
    decreases |options|
  {
    if |options| < 2 then false
    else if options[0] == 0 then AlertIn(options[1..])
    else options[0] == ROUTER_ALERT || AlertIn(Drop(options, 2 + options[1] as int))
  }

  /** What stands after the extension headers. */
  datatype Upper = Upper(next: Byte, payload: seq<Byte>, alert: bool)

  function Extensions(body: seq<Byte>, next: Byte, alert: bool): Upper
    decreases |body|
  {
    if !IsExtension(next) || |body| < 2 then Upper(next, body, alert)
    else
      var length := ((body[1] as int) + 1) * 8;
      Extensions(Drop(body, length), body[0], alert || AlertIn(Drop(Slice(body, 0, length), 2)))
  }

  /** One turn of the walk, by offsets into the whole. */
  lemma {:induction false} ExtensionAt(body: seq<Byte>, offset: nat, next: Byte, alert: bool)
    requires IsExtension(next) && offset + 2 <= |body|
    ensures var length := ((body[offset + 1] as int) + 1) * 8;
            var option := Slice(body, offset, offset + length);
            && option != [] && option[0] == body[offset]
            && Extensions(Drop(body, offset), next, alert)
               == Extensions(Drop(body, offset + length), option[0], alert || AlertIn(Drop(option, 2)))
  {
    hide AlertIn, Extensions, IsExtension, Drop, Slice;
    var length := ((body[offset + 1] as int) + 1) * 8;
    DropTwice(body, offset, length);
    OneExtension(Drop(body, offset), next, alert);
  }

  lemma {:induction false} OneExtension(body: seq<Byte>, next: Byte, alert: bool)
    requires IsExtension(next) && |body| >= 2
    ensures var length := ((body[1] as int) + 1) * 8;
            Extensions(body, next, alert)
            == Extensions(Drop(body, length), body[0], alert || AlertIn(Drop(Slice(body, 0, length), 2)))
  {
  }

  lemma {:induction false} DropTwice(s: seq<Byte>, a: nat, b: nat)
    ensures Drop(Drop(s, a), b) == Drop(s, a + b)
    ensures Slice(Drop(s, a), 0, b) == Slice(s, a, a + b)
    ensures a + 2 <= |s| ==> |Drop(s, a)| >= 2 && Drop(s, a)[0] == s[a] && Drop(s, a)[1] == s[a + 1]
    ensures a + 2 <= |s| && b > 0 ==> Slice(s, a, a + b) != [] && Slice(s, a, a + b)[0] == s[a]
  {
  }

  lemma {:induction false} ExtensionsEnd(body: seq<Byte>, next: Byte, alert: bool)
    requires !IsExtension(next) || |body| < 2
    ensures Extensions(body, next, alert) == Upper(next, body, alert)
  {
  }

  method ReadExtensions(body: seq<Byte>, first: Byte) returns (u: Upper)
    ensures u == Extensions(body, first, false)
  {
    hide AlertIn, Extensions, IsExtension;
    var next, offset: nat, alert := first, 0, false;
    assert Drop(body, 0) == body;
    while IsExtension(next) && offset + 2 <= |body|
      invariant Extensions(Drop(body, offset), next, alert) == Extensions(body, first, false)
      decreases |body| - offset
    {
      ExtensionAt(body, offset, next, alert);
      var length := ((body[offset + 1] as int) + 1) * 8;
      var option := Slice(body, offset, offset + length);
      var found := ReadOptions(option);
      alert := alert || found;
      next := if option != [] then option[0] else 59;
      offset := offset + length;
    }
    ExtensionsEnd(Drop(body, offset), next, alert);
    u := Upper(next, Drop(body, offset), alert);
  }

  lemma {:induction false} OptionAt(option: seq<Byte>, index: nat)
    requires index + 1 < |option|
    ensures AlertIn(Drop(option, index)) ==
            if option[index] == 0 then AlertIn(Drop(option, index + 1))
            else option[index] == ROUTER_ALERT || AlertIn(Drop(option, index + (2 + option[index + 1] as int)))
  {
    hide AlertIn, Drop;
    DropTwice(option, index, 1);
    DropTwice(option, index, 2 + option[index + 1] as int);
    OneOption(Drop(option, index));
  }

  lemma {:induction false} OneOption(options: seq<Byte>)
    requires |options| >= 2
    ensures AlertIn(options) ==
            if options[0] == 0 then AlertIn(Drop(options, 1))
            else options[0] == ROUTER_ALERT || AlertIn(Drop(options, 2 + options[1] as int))
  {
  }

  method ReadOptions(option: seq<Byte>) returns (alert: bool)
    ensures alert == AlertIn(Drop(option, 2))
  {
    hide AlertIn, Drop;
    alert := false;
    var index: nat := 2;
    while index + 1 < |option|
      invariant (alert || AlertIn(Drop(option, index))) == AlertIn(Drop(option, 2))
      decreases |option| - index
    {
      OptionAt(option, index);
      if option[index] == 0 {
        index := index + 1;
        continue;
      }
      if option[index] == ROUTER_ALERT { alert := true; }
      index := index + (2 + option[index + 1] as int);
    }
    NoOption(option, index);
  }

  lemma {:induction false} NoOption(option: seq<Byte>, index: nat)
    requires index + 1 >= |option|
    ensures !AlertIn(Drop(option, index))
  {
  }

  /** The groups of at most `count` records. */
  function Groups(records: seq<Byte>, count: nat): seq<seq<Byte>>
    decreases count
  {
    if count == 0 || |records| < 20 then []
    else [records[4..20]] + Groups(Drop(records, 20 + 16 * Get16(records[2..4])), count - 1)
  }

  lemma {:induction false} GroupAt(payload: seq<Byte>, index: nat, left: nat)
    requires left > 0
    ensures index + 20 > |payload| ==> Groups(Drop(payload, index), left) == []
    ensures index + 20 <= |payload| ==>
              var step := 20 + 16 * Get16(payload[index + 2..index + 4]);
              Groups(Drop(payload, index), left)
              == [payload[index + 4..index + 20]] + Groups(Drop(payload, index + step), left - 1)
  {
    hide Get16;
    if index + 20 <= |payload| {
      var rest := Drop(payload, index);
      assert rest[4..20] == payload[index + 4..index + 20] && rest[2..4] == payload[index + 2..index + 4];
      var step := 20 + 16 * Get16(payload[index + 2..index + 4]);
      assert Drop(rest, step) == Drop(payload, index + step);
    }
  }

  method ReadGroups(payload: seq<Byte>) returns (groups: seq<seq<Byte>>)
    requires |payload| >= 8
    ensures groups == Groups(payload[8..], Get16(payload[6..8]))
  {
    hide Get16, Groups;
    var count := Get16(payload[6..8]);
    groups := [];
    var index: nat, left: nat := 8, count;
    assert payload[8..] == Drop(payload, 8);
    assert [] + Groups(payload[8..], count) == Groups(payload[8..], count);
    while left > 0
      invariant groups + Groups(Drop(payload, index), left) == Groups(payload[8..], count)
      decreases left
    {
      GroupAt(payload, index, left);
      assert groups + [] == groups;
      if index + 20 > |payload| { return; }
      var step := 20 + 16 * Get16(payload[index + 2..index + 4]);
      ghost var more := Groups(Drop(payload, index + step), left - 1);
      assert groups + ([payload[index + 4..index + 20]] + more) == (groups + [payload[index + 4..index + 20]]) + more;
      groups := groups + [payload[index + 4..index + 20]];
      index := index + step;
      left := left - 1;
    }
    NoGroups(Drop(payload, index));
    assert groups + [] == groups;
  }

  lemma {:induction false} NoGroups(records: seq<Byte>)
    ensures Groups(records, 0) == []
  {
  }

  function WithPorts(f: Frame, s: seq<Byte>): Frame
    requires |s| >= 4
  {
    f.(sourcePort := Get16(s[0..2]), destinationPort := Get16(s[2..4]))
  }

  function WithTcp(f: Frame, s: seq<Byte>): Frame
    requires |s| >= 20
  {
    WithPorts(f, s).(sequence := Get32(s[4..8]), acknowledgement := Get32(s[8..12]), flags := s[13],
                     payload := Drop(s, (s[12] as int) / 16 * 4))
  }

  function DecodeIcmp(f: Frame, payload: seq<Byte>): Frame
    requires payload != []
  {
    var t := payload[0];
    var g := f.(icmpType := Some(t), kind := Icmp6(t));
    if (t == NEIGHBOUR_SOLICITATION || t == NEIGHBOUR_ADVERTISEMENT) && |payload| >= 24 then
      g.(target := payload[8..24])
    else if t == MLD_REPORT_V2 && |payload| >= 8 then g.(groups := Groups(payload[8..], Get16(payload[6..8])))
    else if (t == MLD_REPORT_V1 || t == MLD_DONE_V1) && |payload| >= 24 then g.(groups := [payload[8..24]])
    else g
  }

  function DecodeUpper(f: Frame, next: Byte, payload: seq<Byte>): Frame {
    if next == UDP && |payload| >= 8 then
      WithPorts(f.(kind := Udp6), payload).(payload := Slice(payload, 8, Get16(payload[4..6])))
    else if next == TCP && |payload| >= 20 then WithTcp(f.(kind := Tcp6), payload)
    else if next != ICMPV6 || payload == [] then f.(kind := Proto6(next))
    else DecodeIcmp(f, payload)
  }

  function DecodeIpv6(f: Frame, packet: seq<Byte>): Frame
    requires |packet| >= 40
  {
    var body := Slice(packet, 40, 40 + Get16(packet[4..6]));
    var upper := Extensions(body, packet[6], false);
    DecodeUpper(f.(source := packet[8..24], destination := packet[24..40], hopLimit := packet[7],
                   routerAlert := upper.alert),
                upper.next, upper.payload)
  }

  function DecodeIpv4(f: Frame, packet: seq<Byte>): Frame {
    if |packet| < 20 || (packet[9] != TCP && packet[9] != ICMP) then f
    else
      var header := (packet[0] as int) % 16 * 4;
      var g := f.(ipv4Source := packet[12..16], ipv4Destination := packet[16..20]);
      if packet[9] == TCP then
        var segment := Drop(packet, header);
        if |segment| >= 20 then WithTcp(g.(kind := Tcp4), segment) else g
      else if |packet| >= header + 8 && packet[header] == 0 then g.(kind := EchoReply4)
      else if |packet| >= header + 8 && packet[header] == 8 then g.(kind := EchoRequest4, payload := packet[header..])
      else g
  }

  function Decode(raw: seq<Byte>): Frame {
    var ethertype := if |raw| >= 14 then Get16(raw[12..14]) else 0;
    var f := BLANK.(ethertype := ethertype, sourceMac := if |raw| >= 12 then raw[6..12] else []);
    if ethertype == ARP then f.(kind := Arp)
    else if ethertype == IPV4 then DecodeIpv4(f.(kind := Ipv4), raw[14..])
    else if ethertype != IPV6 || |raw| < 54 then f
    else DecodeIpv6(f, raw[14..])
  }

  // ----- reading a frame field by field -----

  method ReadFrame(raw: seq<Byte>) returns (f: Frame)
    ensures f == Decode(raw)
  {
    hide WithTcp, DecodeUpper, Extensions;
    f := BLANK;
    f := f.(ethertype := if |raw| >= 14 then Get16(raw[12..14]) else 0);
    f := f.(sourceMac := if |raw| >= 12 then raw[6..12] else []);
    if f.ethertype == ARP {
      f := f.(kind := Arp);
      return;
    }
    if f.ethertype == IPV4 {
      f := f.(kind := Ipv4);
      f := ReadIpv4(f, raw[14..]);
      return;
    }
    if f.ethertype != IPV6 || |raw| < 54 { return; }
    var packet := raw[14..];
    var declared := Get16(packet[4..6]);
    var body := Slice(packet, 40, 40 + declared);
    f := f.(source := packet[8..24], destination := packet[24..40], hopLimit := packet[7]);
    var upper := ReadExtensions(body, packet[6]);
    f := f.(routerAlert := upper.alert);
    f := ReadUpper(f, upper.next, upper.payload);
  }

  method ReadIpv4(start: Frame, packet: seq<Byte>) returns (f: Frame)
    ensures f == DecodeIpv4(start, packet)
  {
    f := start;
    if |packet| >= 20 && packet[9] == TCP {
      var header := (packet[0] as int) % 16 * 4;
      f := f.(ipv4Source := packet[12..16], ipv4Destination := packet[16..20]);
      var segment := Drop(packet, header);
      if |segment| >= 20 { f := WithTcp(f.(kind := Tcp4), segment); }
      return;
    }
    if |packet| >= 20 && packet[9] == ICMP {
      var header := (packet[0] as int) % 16 * 4;
      f := f.(ipv4Source := packet[12..16], ipv4Destination := packet[16..20]);
      if |packet| >= header + 8 && packet[header] == 0 { f := f.(kind := EchoReply4); }
      if |packet| >= header + 8 && packet[header] == 8 { f := f.(kind := EchoRequest4, payload := packet[header..]); }
    }
  }

  method ReadUpper(start: Frame, next: Byte, payload: seq<Byte>) returns (f: Frame)
    ensures f == DecodeUpper(start, next, payload)
  {
    hide Groups;
    f := start;
    if next == UDP && |payload| >= 8 {
      f := WithPorts(f.(kind := Udp6), payload);
      f := f.(payload := Slice(payload, 8, Get16(payload[4..6])));
      return;
    }
    if next == TCP && |payload| >= 20 {
      f := WithTcp(f.(kind := Tcp6), payload);
      return;
    }
    if next != ICMPV6 || payload == [] {
      f := f.(kind := Proto6(next));
      return;
    }
    var t := payload[0];
    f := f.(icmpType := Some(t), kind := Icmp6(t));
    if (t == NEIGHBOUR_SOLICITATION || t == NEIGHBOUR_ADVERTISEMENT) && |payload| >= 24 {
      f := f.(target := payload[8..24]);
    }
    if t == MLD_REPORT_V2 && |payload| >= 8 {
      var groups := ReadGroups(payload);
      f := f.(groups := groups);
    }
    if (t == MLD_REPORT_V1 || t == MLD_DONE_V1) && |payload| >= 24 {
      f := f.(groups := [payload[8..24]]);
    }
  }

  // ----- chains of extension headers -----

  datatype Opt = Pad | Opt(kind: Byte, data: seq<Byte>)

  /** An extension header by its own number, with its options. */
  datatype Extension = Extension(number: Byte, options: seq<Opt>)

  function OptBytes(o: Opt): seq<Byte> {
    match o
    case Pad => [0]
    case Opt(kind, data) => [kind, |data| % 256] + data
  }

  function OptionBytes(options: seq<Opt>): seq<Byte> {
    if options == [] then [] else OptBytes(options[0]) + OptionBytes(options[1..])
  }

  predicate OptFits(o: Opt) {
    o.Opt? ==> o.kind != 0 && |o.data| < 256
  }

  /** The header fills its eight-byte units; its options are what pads it. */
  predicate ExtensionFits(x: Extension) {
    && IsExtension(x.number)
    && (forall i | 0 <= i < |x.options| :: OptFits(x.options[i]))
    && (|OptionBytes(x.options)| + 2) % 8 == 0 && |OptionBytes(x.options)| + 2 <= 2048
  }

  function FirstNumber(chain: seq<Extension>, last: Byte): Byte {
    if chain == [] then last else chain[0].number
  }

  function HeaderBytes(x: Extension, next: Byte): seq<Byte> {
    [next, ((|OptionBytes(x.options)| + 2) / 8 - 1) % 256] + OptionBytes(x.options)
  }

  function ChainBytes(chain: seq<Extension>, last: Byte): seq<Byte>
    requires forall i | 0 <= i < |chain| :: ExtensionFits(chain[i])
  {
    if chain == [] then [] else HeaderBytes(chain[0], FirstNumber(chain[1..], last)) + ChainBytes(chain[1..], last)
  }

  predicate HasAlert(options: seq<Opt>) {
    exists i | 0 <= i < |options| :: options[i].Opt? && options[i].kind == ROUTER_ALERT
  }

  predicate ChainAlerts(chain: seq<Extension>) {
    exists i | 0 <= i < |chain| :: HasAlert(chain[i].options)
  }

  lemma {:induction false} AlertFound(options: seq<Opt>)
    requires forall i | 0 <= i < |options| :: OptFits(options[i])
    ensures AlertIn(OptionBytes(options)) == HasAlert(options)
  {
    if options != [] {
      var later := options[1..];
      AlertFound(later);
      var o, rest := options[0], OptionBytes(later);
      var s := OptBytes(o) + rest;
      assert HasAlert(options) == ((o.Opt? && o.kind == ROUTER_ALERT) || HasAlert(later)) by {
        assert forall i | 0 < i < |options| :: options[i] == later[i - 1];
        assert forall i | 0 <= i < |later| :: later[i] == options[i + 1];
      }
      if o.Pad? {
        assert s[1..] == rest;
        if |s| < 2 { assert rest == []; }
      } else {
        assert s[0] == o.kind && s[1] == |o.data| && Drop(s, 2 + s[1] as int) == rest;
      }
    }
  }

  lemma {:induction false} OneHeader(x: Extension, next: Byte, rest: seq<Byte>, alert: bool)
    requires ExtensionFits(x)
    ensures Extensions(HeaderBytes(x, next) + rest, x.number, alert)
            == Extensions(rest, next, alert || HasAlert(x.options))
  {
    hide AlertIn, OptionBytes, HasAlert;
    var header := HeaderBytes(x, next);
    var body := header + rest;
    assert ((body[1] as int) + 1) * 8 == |header|;
    assert Slice(body, 0, |header|) == header && Drop(header, 2) == OptionBytes(x.options);
    assert Drop(body, |header|) == rest && body[0] == next;
    AlertFound(x.options);
  }

  /** However many extension headers come first and whatever options they carry, the walk ends at the transport header,
      and the alert is seen exactly when one of the options is one. */
  lemma {:induction false} ChainRead(chain: seq<Extension>, last: Byte, rest: seq<Byte>, alert: bool)
    requires forall i | 0 <= i < |chain| :: ExtensionFits(chain[i])
    requires !IsExtension(last)
    ensures Extensions(ChainBytes(chain, last) + rest, FirstNumber(chain, last), alert)
            == Upper(last, rest, alert || ChainAlerts(chain))
    decreases chain
  {
    hide HeaderBytes, HasAlert, ExtensionFits, Extensions, ChainAlerts;
    if chain == [] {
      assert [] + rest == rest;
      ExtensionsEnd(rest, last, alert);
      assert !ChainAlerts([]) by { NoAlerts(); }
    } else {
      var later := chain[1..];
      var header := HeaderBytes(chain[0], FirstNumber(later, last));
      assert (header + ChainBytes(later, last)) + rest == header + (ChainBytes(later, last) + rest);
      OneHeader(chain[0], FirstNumber(later, last), ChainBytes(later, last) + rest, alert);
      ChainRead(later, last, rest, alert || HasAlert(chain[0].options));
      FirstAlerts(chain);
    }
  }

  lemma {:induction false} NoAlerts()
    ensures !ChainAlerts([])
  {
  }

  lemma {:induction false} FirstAlerts(chain: seq<Extension>)
    requires chain != []
    ensures ChainAlerts(chain) == (HasAlert(chain[0].options) || ChainAlerts(chain[1..]))
  {
  }

  // ----- listener reports -----

  /** A record of a listener report: its type, its group and its sources. */
  datatype GroupRecord = GroupRecord(kind: Byte, group: seq<Byte>, sources: seq<Byte>)

  predicate RecordFits(r: GroupRecord) {
    |r.group| == 16 && |r.sources| % 16 == 0 && |r.sources| / 16 < 0x1_0000
  }

  function RecordBytes(rs: seq<GroupRecord>): seq<Byte> {
    if rs == [] then []
    else [rs[0].kind, 0] + Be16(|rs[0].sources| / 16) + rs[0].group + rs[0].sources + RecordBytes(rs[1..])
  }

  function GroupsOf(rs: seq<GroupRecord>): seq<seq<Byte>> {
    if rs == [] then [] else [rs[0].group] + GroupsOf(rs[1..])
  }

  /** Every record's group is read, in order, past the sources of the records before it. */
  lemma {:induction false} GroupsRead(rs: seq<GroupRecord>)
    requires forall i | 0 <= i < |rs| :: RecordFits(rs[i])
    ensures Groups(RecordBytes(rs), |rs|) == GroupsOf(rs)
  {
    hide Get16, Be16;
    if rs != [] {
      var r, rest := rs[0], RecordBytes(rs[1..]);
      var s := RecordBytes(rs);
      assert RecordFits(r);
      var n := |r.sources| / 16;
      assert s == [r.kind, 0] + Be16(n) + r.group + r.sources + rest;
      assert s[2..4] == Be16(n) && s[4..20] == r.group;
      Get16OfBe16(n, []);
      assert Be16(n) + [] == Be16(n);
      assert Drop(s, 20 + 16 * n) == rest;
      GroupsRead(rs[1..]);
    }
  }
}
