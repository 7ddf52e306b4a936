/** The packets the test peer builds, read back by the same peer's decoder and summed as a receiver sums them. */
module InetSend {
  import opened Bytes
  import opened InetFrame
  import opened InetSum

  type Mac = m: seq<Byte> | |m| == 6 witness Zeros(6)
  type Ip4 = a: seq<Byte> | |a| == 4 witness Zeros(4)

  /** Ports, sequence numbers and flags. */
  datatype Tcp = Tcp(sourcePort: nat, destinationPort: nat, sequence: nat, acknowledgement: nat, flags: Byte)

  // ----- IPv6 -----

  function Ipv6Bytes(to: Mac, mac: Mac, source: Ip6, destination: Ip6, next: Byte, hopLimit: Byte,
                     body: seq<Byte>): seq<Byte> {
    (to + mac + Be16(IPV6)) + (([0x60, 0, 0, 0] + Be16(|body|) + [next, hopLimit] + source + destination) + body)
  }

  /** What every frame so built decodes to, before its body is looked at. */
  function Ipv6Frame(mac: Mac, source: Ip6, destination: Ip6, hopLimit: Byte): Frame {
    BLANK.(ethertype := IPV6, sourceMac := mac, source := source, destination := destination, hopLimit := hopLimit)
  }

  lemma {:induction false} EthernetRead(to: Mac, mac: Mac, ethertype: nat, packet: seq<Byte>)
    requires ethertype < 0x1_0000
    ensures var raw := (to + mac + Be16(ethertype)) + packet;
            |raw| == 14 + |packet| && Get16(raw[12..14]) == ethertype && raw[6..12] == mac && raw[14..] == packet
  {
  }

  lemma {:induction false} HeaderRead(source: Ip6, destination: Ip6, next: Byte, hopLimit: Byte, body: seq<Byte>)
    requires |body| < 0x1_0000
    ensures var packet := ([0x60, 0, 0, 0] + Be16(|body|) + [next, hopLimit] + source + destination) + body;
            && |packet| == 40 + |body| && Get16(packet[4..6]) == |body| && packet[6] == next && packet[7] == hopLimit
            && packet[8..24] == source && packet[24..40] == destination && Slice(packet, 40, 40 + |body|) == body
  {
  }

  /** Through any chain of extension headers the decoder reaches the transport payload with the addresses as sent. */
  lemma {:induction false} Ipv6Read(to: Mac, mac: Mac, source: Ip6, destination: Ip6, chain: seq<Extension>, last: Byte,
                                    hopLimit: Byte, payload: seq<Byte>)
    requires forall i | 0 <= i < |chain| :: ExtensionFits(chain[i])
    requires !IsExtension(last) && |ChainBytes(chain, last) + payload| < 0x1_0000
    ensures Decode(Ipv6Bytes(to, mac, source, destination, FirstNumber(chain, last), hopLimit,
                             ChainBytes(chain, last) + payload))
            == DecodeUpper(Ipv6Frame(mac, source, destination, hopLimit).(routerAlert := ChainAlerts(chain)),
                           last, payload)
  {
    hide DecodeUpper, Extensions, ChainAlerts, ChainBytes, Be16, Get16, FirstNumber, ExtensionFits, Slice;
    var body := ChainBytes(chain, last) + payload;
    var next := FirstNumber(chain, last);
    var packet := ([0x60, 0, 0, 0] + Be16(|body|) + [next, hopLimit] + source + destination) + body;
    EthernetRead(to, mac, IPV6, packet);
    HeaderRead(source, destination, next, hopLimit, body);
    ChainRead(chain, last, payload, false);
  }

  // ----- UDP -----

  function UdpBlank(sourcePort: nat, destinationPort: nat, payload: seq<Byte>): seq<Byte> {
    Be16(sourcePort) + Be16(destinationPort) + Be16(8 + |payload|) + [0, 0] + payload
  }

  function Datagram(source: Ip6, destination: Ip6, sourcePort: nat, destinationPort: nat,
                    payload: seq<Byte>): seq<Byte> {
    var blank := UdpBlank(sourcePort, destinationPort, payload);
    Patch(blank, 6, Complement(PseudoSum(source, destination, UDP, |blank|) + WordSum(blank)))
  }

  /** The numbers a datagram's fields can hold; others cannot be packed. */
  predicate UdpFits(sourcePort: nat, destinationPort: nat, payload: seq<Byte>) {
    sourcePort < 0x1_0000 && destinationPort < 0x1_0000 && 8 + |payload| < 0x1_0000
  }

  method SendUdp6(to: Mac, mac: Mac, destination: Ip6, source: Ip6, sourcePort: nat, destinationPort: nat,
                  payload: seq<Byte>)
    returns (r: Option<seq<Byte>>)
    ensures r == if UdpFits(sourcePort, destinationPort, payload)
                 then Some(Ipv6Bytes(to, mac, source, destination, UDP, 64,
                                     Datagram(source, destination, sourcePort, destinationPort, payload)))
                 else None
  {
    if sourcePort >= 0x1_0000 || destinationPort >= 0x1_0000 || 8 + |payload| >= 0x1_0000 { return None; }
    var datagram := Be16(sourcePort) + Be16(destinationPort) + Be16(8 + |payload|) + [0, 0] + payload;
    var value := Checksum(source, destination, UDP, datagram);
    datagram := Patch(datagram, 6, value);
    return Some(Ipv6Bytes(to, mac, source, destination, UDP, 64, datagram));
  }

  lemma {:induction false} DatagramRead(source: Ip6, destination: Ip6, sourcePort: nat, destinationPort: nat,
                                        payload: seq<Byte>)
    requires UdpFits(sourcePort, destinationPort, payload)
    ensures var s := Datagram(source, destination, sourcePort, destinationPort, payload);
            && |s| == 8 + |payload| && Get16(s[0..2]) == sourcePort && Get16(s[2..4]) == destinationPort
            && Get16(s[4..6]) == |s| && Slice(s, 8, |s|) == payload
  {
    hide Get16, Be16, Complement, PseudoSum, WordSum;
    var s := Datagram(source, destination, sourcePort, destinationPort, payload);
    Number16(sourcePort);
    Number16(destinationPort);
    Number16(8 + |payload|);
    var blank := UdpBlank(sourcePort, destinationPort, payload);
    assert blank[0..2] == Be16(sourcePort) && blank[2..4] == Be16(destinationPort)
        && blank[4..6] == Be16(8 + |payload|);
    assert s[0..2] == blank[0..2] && s[2..4] == blank[2..4] && s[4..6] == blank[4..6];
    assert s[8..] == payload;
  }

  lemma {:induction false} Number16(n: nat)
    requires n < 0x1_0000
    ensures Get16(Be16(n)) == n
  {
  }

  lemma {:induction false} Number32(n: nat)
    requires n < WORD
    ensures Get32(Be32(n)) == n
  {
  }

  /** A datagram decodes to the addresses, ports and payload it was built from, and a receiver's sum over it folds to
      all ones. */
  lemma {:induction false} UdpRoundTrip(to: Mac, mac: Mac, destination: Ip6, source: Ip6, sourcePort: nat,
                                        destinationPort: nat, payload: seq<Byte>)
    requires UdpFits(sourcePort, destinationPort, payload)
    ensures var s := Datagram(source, destination, sourcePort, destinationPort, payload);
            && Decode(Ipv6Bytes(to, mac, source, destination, UDP, 64, s))
               == Ipv6Frame(mac, source, destination, 64).(kind := Udp6, sourcePort := sourcePort,
                                                           destinationPort := destinationPort, payload := payload)
            && Fold(PseudoSum(source, destination, UDP, |s|) + WordSum(s)) == 0xFFFF
  {
    hide Datagram, Decode, Ipv6Bytes, Fold, PseudoSum, WordSum, Get16, Slice;
    var s := Datagram(source, destination, sourcePort, destinationPort, payload);
    DatagramRead(source, destination, sourcePort, destinationPort, payload);
    Unextended(to, mac, source, destination, UDP, 64, s);
    DatagramSums(source, destination, sourcePort, destinationPort, payload);
  }

  lemma {:induction false} Unextended(to: Mac, mac: Mac, source: Ip6, destination: Ip6, next: Byte, hopLimit: Byte,
                                      s: seq<Byte>)
    requires |s| < 0x1_0000 && !IsExtension(next)
    ensures Decode(Ipv6Bytes(to, mac, source, destination, next, hopLimit, s))
            == DecodeUpper(Ipv6Frame(mac, source, destination, hopLimit), next, s)
  {
    hide Decode, Ipv6Bytes, DecodeUpper;
    assert [] + s == s;
    Ipv6Read(to, mac, source, destination, [], next, hopLimit, s);
    NoAlerts();
    var f := Ipv6Frame(mac, source, destination, hopLimit);
    assert f.(routerAlert := false) == f;
  }

  lemma {:induction false} DatagramSums(source: Ip6, destination: Ip6, sourcePort: nat, destinationPort: nat,
                                        payload: seq<Byte>)
    ensures var s := Datagram(source, destination, sourcePort, destinationPort, payload);
            Fold(PseudoSum(source, destination, UDP, |s|) + WordSum(s)) == 0xFFFF
  {
    hide Fold, PseudoSum, WordSum, Complement, Be16;
    var blank := UdpBlank(sourcePort, destinationPort, payload);
    assert blank[6] == 0 && blank[7] == 0;
    PatchedFolds(PseudoSum(source, destination, UDP, |blank|), blank, 6);
  }

  // ----- TCP -----

  predicate TcpFits(t: Tcp, options: seq<Byte>) {
    && t.sourcePort < 0x1_0000 && t.destinationPort < 0x1_0000
    && t.sequence < WORD && t.acknowledgement < WORD && (20 + |options|) / 4 < 16
  }

  function TcpBlank(t: Tcp, options: seq<Byte>, payload: seq<Byte>): seq<Byte> {
    (Be16(t.sourcePort) + Be16(t.destinationPort) + Be32(t.sequence) + Be32(t.acknowledgement)
     + [(20 + |options|) / 4 * 16 % 256, t.flags] + Be16(65535) + [0, 0, 0, 0]) + (options + payload)
  }

  /** The options past their last whole four-byte unit. */
  function Leftover(options: seq<Byte>): seq<Byte> {
    options[|options| / 4 * 4..]
  }

  /** A frame with what a segment so built reads as. */
  function TcpFrame(f: Frame, t: Tcp, options: seq<Byte>, payload: seq<Byte>): Frame {
    f.(sourcePort := t.sourcePort, destinationPort := t.destinationPort, sequence := t.sequence,
       acknowledgement := t.acknowledgement, flags := t.flags, payload := Leftover(options) + payload)
  }

  /** A segment with any number in its checksum field reads back as it was built - but for options that do not fill
      their last four-byte unit, whose tail reads as payload. */
  lemma {:induction false} SegmentRead(f: Frame, t: Tcp, options: seq<Byte>, payload: seq<Byte>, value: nat)
    requires TcpFits(t, options)
    ensures var s := Patch(TcpBlank(t, options, payload), 16, value);
            |s| >= 20 && WithTcp(f, s) == TcpFrame(f, t, options, payload)
  {
    hide Get16, Be16, Get32, Be32, TcpBlank;
    var blank := TcpBlank(t, options, payload);
    BlankParts(t, options, payload);
    var s := Patch(blank, 16, value);
    assert s[..14] == blank[..14] && s[20..] == blank[20..];
    assert s[0..2] == s[..14][0..2] && s[2..4] == s[..14][2..4];
    assert s[4..8] == s[..14][4..8] && s[8..12] == s[..14][8..12];
    assert s[12] == s[..14][12] && s[13] == s[..14][13];
    Number16(t.sourcePort);
    Number16(t.destinationPort);
    Number32(t.sequence);
    Number32(t.acknowledgement);
    var k := |options| / 4 * 4;
    assert (s[12] as int) / 16 * 4 == 20 + k;
    assert s[20 + k..] == s[20..][k..];
    assert (options + payload)[k..] == options[k..] + payload;
  }

  lemma {:induction false} BlankParts(t: Tcp, options: seq<Byte>, payload: seq<Byte>)
    requires TcpFits(t, options)
    ensures var s := TcpBlank(t, options, payload);
            && |s| == 20 + |options| + |payload| && s[20..] == options + payload
            && s[..14][0..2] == Be16(t.sourcePort) && s[..14][2..4] == Be16(t.destinationPort)
            && s[..14][4..8] == Be32(t.sequence) && s[..14][8..12] == Be32(t.acknowledgement)
            && s[..14][12] == (20 + |options|) / 4 * 16 && s[..14][13] == t.flags
  {
    hide Be16, Be32;
    var s := TcpBlank(t, options, payload);
    assert s[20..] == options + payload;
    assert s[..14] == Be16(t.sourcePort) + Be16(t.destinationPort) + Be32(t.sequence) + Be32(t.acknowledgement)
                      + [(20 + |options|) / 4 * 16, t.flags];
  }

  function Segment6(source: Ip6, destination: Ip6, t: Tcp, options: seq<Byte>, payload: seq<Byte>): seq<Byte> {
    var blank := TcpBlank(t, options, payload);
    Patch(blank, 16, Complement(PseudoSum(source, destination, TCP, |blank|) + WordSum(blank)))
  }

  method SendTcp6(to: Mac, mac: Mac, destination: Ip6, source: Ip6, t: Tcp, payload: seq<Byte>, options: seq<Byte>)
    returns (r: Option<seq<Byte>>)
    ensures r == if TcpFits(t, options) && 20 + |options| + |payload| < 0x1_0000
                 then Some(Ipv6Bytes(to, mac, source, destination, TCP, 64,
                                     Segment6(source, destination, t, options, payload)))
                 else None
  {
    hide Be16, Be32;
    if !TcpFits(t, options) { return None; }
    var segment := TcpBlank(t, options, payload);
    var value := Checksum(source, destination, TCP, segment);
    segment := Patch(segment, 16, value);
    if |segment| >= 0x1_0000 { return None; }
    return Some(Ipv6Bytes(to, mac, source, destination, TCP, 64, segment));
  }

  /** A segment over IPv6 decodes to the addresses, ports, sequence numbers and flags it was built from, and to its
      payload exactly when the options fill whole four-byte units; a receiver's sum over it folds to all ones. */
  lemma {:induction false} Tcp6RoundTrip(to: Mac, mac: Mac, destination: Ip6, source: Ip6, t: Tcp, payload: seq<Byte>,
                                         options: seq<Byte>)
    requires TcpFits(t, options) && 20 + |options| + |payload| < 0x1_0000
    ensures var s := Segment6(source, destination, t, options, payload);
            var f := Decode(Ipv6Bytes(to, mac, source, destination, TCP, 64, s));
            && f == TcpFrame(Ipv6Frame(mac, source, destination, 64).(kind := Tcp6), t, options, payload)
            && (f.payload == payload <==> |options| % 4 == 0)
            && Fold(PseudoSum(source, destination, TCP, |s|) + WordSum(s)) == 0xFFFF
  {
    hide Decode, Ipv6Bytes, Fold, PseudoSum, WordSum, Complement, WithTcp, Be16, Be32, Leftover;
    var blank := TcpBlank(t, options, payload);
    var value := Complement(PseudoSum(source, destination, TCP, |blank|) + WordSum(blank));
    var s := Segment6(source, destination, t, options, payload);
    var f := Ipv6Frame(mac, source, destination, 64);
    SegmentRead(f.(kind := Tcp6), t, options, payload, value);
    Unextended(to, mac, source, destination, TCP, 64, s);
    Tail(options, payload);
    assert blank[16] == 0 && blank[17] == 0;
    PatchedFolds(PseudoSum(source, destination, TCP, |blank|), blank, 16);
  }

  lemma {:induction false} Tail(options: seq<Byte>, payload: seq<Byte>)
    ensures Leftover(options) + payload == payload <==> |options| % 4 == 0
  {
  }

  /** One byte of options is one: it is read as payload. */
  lemma {:induction false} OptionReadAsPayload(to: Mac, mac: Mac, destination: Ip6, source: Ip6, t: Tcp, option: Byte)
    requires TcpFits(t, [option])
    ensures var f := Decode(Ipv6Bytes(to, mac, source, destination, TCP, 64,
                                      Segment6(source, destination, t, [option], [])));
            f.payload == [option]
  {
    hide Decode, Ipv6Bytes, Segment6, Fold, PseudoSum, WordSum;
    Tcp6RoundTrip(to, mac, destination, source, t, [], [option]);
    assert Leftover([option]) == [option] && [option] + [] == [option];
  }

  // ----- TCP over IPv4 -----

  function Pseudo4(source: Ip4, destination: Ip4, length: nat): seq<Byte> {
    source + destination + [0, TCP] + Be16(length)
  }

  function Segment4(source: Ip4, destination: Ip4, t: Tcp, options: seq<Byte>, payload: seq<Byte>): seq<Byte> {
    var blank := TcpBlank(t, options, payload);
    Patch(blank, 16, Complement(WordSum(Pseudo4(source, destination, |blank|) + blank)))
  }

  /** An IPv4 header of twenty bytes: the length of the whole, an identification, sixty-four hops, the protocol. */
  function Header4Blank(source: Ip4, destination: Ip4, id: nat, protocol: Byte, length: nat): seq<Byte> {
    [0x45, 0] + Be16(20 + length) + Be16(id) + Be16(0) + [0x40, protocol] + [0, 0] + source + destination
  }

  function Header4(source: Ip4, destination: Ip4, id: nat, protocol: Byte, length: nat): seq<Byte> {
    var blank := Header4Blank(source, destination, id, protocol, length);
    Patch(blank, 10, Complement(WordSum(blank)))
  }

  const TCP_ID := 0x4321
  const ECHO_ID := 0x1234

  function Tcp4Bytes(to: Mac, mac: Mac, source: Ip4, destination: Ip4, segment: seq<Byte>): seq<Byte> {
    (to + mac + Be16(IPV4)) + (Header4(source, destination, TCP_ID, TCP, |segment|) + segment)
  }

  function Ipv4Frame(mac: Mac, source: Ip4, destination: Ip4): Frame {
    BLANK.(ethertype := IPV4, sourceMac := mac, kind := Tcp4, ipv4Source := source, ipv4Destination := destination)
  }

  method SendTcp4(to: Mac, mac: Mac, destination: Ip4, source: Ip4, t: Tcp, payload: seq<Byte>, options: seq<Byte>)
    returns (r: Option<seq<Byte>>)
    ensures r == if TcpFits(t, options) && 40 + |options| + |payload| < 0x1_0000
                 then Some(Tcp4Bytes(to, mac, source, destination, Segment4(source, destination, t, options, payload)))
                 else None
  {
    hide Be16, Be32, Complement, WordSum;
    if !TcpFits(t, options) { return None; }
    var segment := TcpBlank(t, options, payload);
    if |segment| >= 0x1_0000 { return None; }
    var pseudo := source + destination + [0, TCP] + Be16(|segment|);
    var value := OnesComplement(pseudo + segment);
    segment := Patch(segment, 16, value);
    if 20 + |segment| >= 0x1_0000 { return None; }
    var header := Header4Blank(source, destination, TCP_ID, TCP, |segment|);
    value := OnesComplement(header);
    header := Patch(header, 10, value);
    return Some((to + mac + Be16(IPV4)) + (header + segment));
  }

  lemma {:induction false} Header4Read(source: Ip4, destination: Ip4, id: nat, protocol: Byte, body: seq<Byte>)
    ensures var packet := Header4(source, destination, id, protocol, |body|) + body;
            && |packet| == 20 + |body| && packet[0] == 0x45 && packet[9] == protocol
            && packet[12..16] == source && packet[16..20] == destination
            && Drop(packet, 20) == body && packet[20..] == body
  {
    hide Be16, Complement, WordSum;
    var blank := Header4Blank(source, destination, id, protocol, |body|);
    assert |blank| == 20 && blank[0] == 0x45 && blank[9] == protocol;
    assert blank[12..16] == source && blank[16..20] == destination;
    var header := Header4(source, destination, id, protocol, |body|);
    assert header[..10] == blank[..10] && header[12..] == blank[12..];
    assert header[0] == header[..10][0] && header[9] == header[..10][9];
    assert header[12..16] == header[12..][..4] == source && header[16..20] == header[12..][4..8] == destination;
    var packet := header + body;
    assert packet[12..16] == header[12..16] && packet[16..20] == header[16..20];
    assert packet[20..] == body;
  }

  lemma {:induction false} Tcp4Read(to: Mac, mac: Mac, source: Ip4, destination: Ip4, segment: seq<Byte>)
    requires |segment| >= 20
    ensures Decode(Tcp4Bytes(to, mac, source, destination, segment))
            == WithTcp(Ipv4Frame(mac, source, destination), segment)
  {
    hide WithTcp, Header4, Be16, Get16, Drop;
    EthernetRead(to, mac, IPV4, Header4(source, destination, TCP_ID, TCP, |segment|) + segment);
    Header4Read(source, destination, TCP_ID, TCP, segment);
  }

  /** The same over IPv4: the segment reads back, and the header and the segment with its pseudo-header both fold to all
      ones. */
  lemma {:induction false} Tcp4RoundTrip(to: Mac, mac: Mac, destination: Ip4, source: Ip4, t: Tcp, payload: seq<Byte>,
                                         options: seq<Byte>)
    requires TcpFits(t, options) && 40 + |options| + |payload| < 0x1_0000
    ensures var s := Segment4(source, destination, t, options, payload);
            var f := Decode(Tcp4Bytes(to, mac, source, destination, s));
            && f == TcpFrame(Ipv4Frame(mac, source, destination), t, options, payload)
            && (f.payload == payload <==> |options| % 4 == 0)
            && Fold(WordSum(Pseudo4(source, destination, |s|) + s)) == 0xFFFF
            && Fold(WordSum(Header4(source, destination, TCP_ID, TCP, |s|))) == 0xFFFF
  {
    hide Decode, Tcp4Bytes, Fold, WordSum, Complement, WithTcp, Be16, Be32, Pseudo4, Header4, Leftover, Ipv4Frame;
    var blank := TcpBlank(t, options, payload);
    var pseudo := Pseudo4(source, destination, |blank|);
    var value := Complement(WordSum(pseudo + blank));
    var s := Segment4(source, destination, t, options, payload);
    SegmentRead(Ipv4Frame(mac, source, destination), t, options, payload, value);
    Tcp4Read(to, mac, source, destination, s);
    Tail(options, payload);
    Segment4Sums(source, destination, t, options, payload);
    Header4Sums(source, destination, TCP_ID, TCP, |s|);
  }

  lemma {:induction false} Segment4Sums(source: Ip4, destination: Ip4, t: Tcp, options: seq<Byte>, payload: seq<Byte>)
    ensures var s := Segment4(source, destination, t, options, payload);
            Fold(WordSum(Pseudo4(source, destination, |s|) + s)) == 0xFFFF
  {
    hide Fold, WordSum, Complement, Be16, Be32;
    var blank := TcpBlank(t, options, payload);
    var pseudo := Pseudo4(source, destination, |blank|);
    var s := Segment4(source, destination, t, options, payload);
    WordSumJoin(pseudo, blank);
    WordSumJoin(pseudo, s);
    assert blank[16] == 0 && blank[17] == 0;
    PatchedFolds(WordSum(pseudo), blank, 16);
  }

  lemma {:induction false} Header4Sums(source: Ip4, destination: Ip4, id: nat, protocol: Byte, length: nat)
    ensures Fold(WordSum(Header4(source, destination, id, protocol, length))) == 0xFFFF
  {
    hide Fold, WordSum, Complement, Be16;
    var blank := Header4Blank(source, destination, id, protocol, length);
    assert blank[10] == 0 && blank[11] == 0;
    PatchedFolds(0, blank, 10);
  }

  // ----- echo over IPv4 -----

  const ECHO_REPLY: Byte := 0
  const ECHO_REQUEST: Byte := 8

  /** An echo message: its type, its checksum, and whatever it is to carry. */
  function EchoMessage(kind: Byte, content: seq<Byte>): (r: seq<Byte>)
    ensures |r| == 4 + |content|
  {
    var blank := [kind, 0, 0, 0] + content;
    Patch(blank, 2, Complement(WordSum(blank)))
  }

  function EchoBytes(to: Mac, mac: Mac, source: Ip4, destination: Ip4, message: seq<Byte>): seq<Byte> {
    (to + mac + Be16(IPV4)) + (Header4(source, destination, ECHO_ID, ICMP, |message|) + message)
  }

  /** A request carries an identifier, a sequence number and a text. */
  function RequestContent(identifier: nat, sequence: nat): seq<Byte> {
    Be16(identifier) + Be16(sequence) + Ascii("peer-v4-echo")
  }

  method SendEcho4(to: Mac, mac: Mac, source: Ip4, destination: Ip4, kind: Byte, content: seq<Byte>)
    returns (r: Option<seq<Byte>>)
    ensures r == if 24 + |content| < 0x1_0000
                 then Some(EchoBytes(to, mac, source, destination, EchoMessage(kind, content)))
                 else None
  {
    hide Be16, Complement, WordSum;
    var message := [kind, 0, 0, 0] + content;
    var value := OnesComplement(message);
    message := Patch(message, 2, value);
    if 20 + |message| >= 0x1_0000 { return None; }
    var header := Header4Blank(source, destination, ECHO_ID, ICMP, |message|);
    value := OnesComplement(header);
    header := Patch(header, 10, value);
    return Some((to + mac + Be16(IPV4)) + (header + message));
  }

  /** The request: numbers that do not fit in two bytes cannot be packed. */
  method SendEchoRequest4(to: Mac, mac: Mac, source: Ip4, destination: Ip4, identifier: nat, sequence: nat)
    returns (r: Option<seq<Byte>>)
    ensures r == if identifier < 0x1_0000 && sequence < 0x1_0000
                 then Some(EchoBytes(to, mac, source, destination,
                                     EchoMessage(ECHO_REQUEST, RequestContent(identifier, sequence))))
                 else None
  {
    if identifier >= 0x1_0000 || sequence >= 0x1_0000 { return None; }
    r := SendEcho4(to, mac, source, destination, ECHO_REQUEST, RequestContent(identifier, sequence));
  }

  /** What an echo frame of either kind reads as. */
  function EchoFrame(mac: Mac, source: Ip4, destination: Ip4, kind: Byte, message: seq<Byte>): Frame {
    var f := BLANK.(ethertype := IPV4, sourceMac := mac, ipv4Source := source, ipv4Destination := destination);
    if kind == ECHO_REQUEST then f.(kind := EchoRequest4, payload := message) else f.(kind := EchoReply4)
  }

  lemma {:induction false} MessageRead(kind: Byte, content: seq<Byte>)
    ensures var m := EchoMessage(kind, content); m[0] == kind && m[4..] == content && Fold(WordSum(m)) == 0xFFFF
  {
    hide Fold, WordSum, Complement, Be16;
    var blank := [kind, 0, 0, 0] + content;
    assert blank[2] == 0 && blank[3] == 0;
    PatchedFolds(0, blank, 2);
    var m := EchoMessage(kind, content);
    assert m[4..] == blank[4..] == content;
  }

  /** An echo message of at least its eight bytes decodes to its kind, the addresses it was sent between and, for a
      request, itself; header and message both fold to all ones. */
  lemma {:induction false} EchoRoundTrip(to: Mac, mac: Mac, source: Ip4, destination: Ip4, kind: Byte,
                                         content: seq<Byte>)
    requires (kind == ECHO_REPLY || kind == ECHO_REQUEST) && |content| >= 4
    ensures var m := EchoMessage(kind, content);
            && Decode(EchoBytes(to, mac, source, destination, m)) == EchoFrame(mac, source, destination, kind, m)
            && m[0] == kind && m[4..] == content && Fold(WordSum(m)) == 0xFFFF
            && Fold(WordSum(Header4(source, destination, ECHO_ID, ICMP, |m|))) == 0xFFFF
  {
    hide EchoMessage, Header4, Be16, Get16, Drop, Fold, WordSum, WithTcp;
    var m := EchoMessage(kind, content);
    MessageRead(kind, content);
    Header4Sums(source, destination, ECHO_ID, ICMP, |m|);
    var packet := Header4(source, destination, ECHO_ID, ICMP, |m|) + m;
    EthernetRead(to, mac, IPV4, packet);
    Header4Read(source, destination, ECHO_ID, ICMP, m);
    assert packet[20] == packet[20..][0] == kind;
  }

  /** The peer's answer to a request, if its length can be packed: back to where it came from, with what it carried. */
  method AnswerEcho4(mac: Mac, f: Frame) returns (r: Option<seq<Byte>>)
    requires |f.sourceMac| == 6 && |f.ipv4Source| == 4 && |f.ipv4Destination| == 4 && |f.payload| >= 4
    ensures r == if 20 + |f.payload| < 0x1_0000
                 then Some(EchoBytes(f.sourceMac, mac, f.ipv4Destination, f.ipv4Source,
                                     EchoMessage(ECHO_REPLY, f.payload[4..])))
                 else None
  {
    r := SendEcho4(f.sourceMac, mac, f.ipv4Destination, f.ipv4Source, ECHO_REPLY, f.payload[4..]);
  }

  /** Whatever frame the decoder calls a request, it can be answered, and the answer decodes to a reply between the same
      two addresses turned round. */
  lemma {:induction false} EchoAnswered(mac: Mac, raw: seq<Byte>)
    requires Decode(raw).kind == EchoRequest4
    ensures var f := Decode(raw);
            && |f.sourceMac| == 6 && |f.ipv4Source| == 4 && |f.ipv4Destination| == 4 && |f.payload| >= 8
            && Decode(EchoBytes(f.sourceMac, mac, f.ipv4Destination, f.ipv4Source,
                                EchoMessage(ECHO_REPLY, f.payload[4..])))
               == BLANK.(ethertype := IPV4, sourceMac := mac, kind := EchoReply4,
                         ipv4Source := f.ipv4Destination, ipv4Destination := f.ipv4Source)
  {
    hide EchoMessage, EchoBytes, WithTcp, Get16;
    var f := Decode(raw);
    assert RequestShape(f) by { RequestIs(raw); }
    EchoRoundTrip(f.sourceMac, mac, f.ipv4Destination, f.ipv4Source, ECHO_REPLY, f.payload[4..]);
  }

  predicate RequestShape(f: Frame) {
    |f.sourceMac| == 6 && |f.ipv4Source| == 4 && |f.ipv4Destination| == 4 && |f.payload| >= 8
  }

  lemma {:induction false} RequestIs(raw: seq<Byte>)
    requires Decode(raw).kind == EchoRequest4
    ensures RequestShape(Decode(raw))
  {
    hide Get16, Get32, Extensions, Groups, Slice;
  }
}
