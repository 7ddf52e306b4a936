/** Scopes, devices, methods, packages and data nested to any depth, and the reader that skips by their lengths. */
module AmlTerms {
  import opened Bytes
  import opened Aml

  // ----- names -----

  predicate LeadChar(b: Byte) {
    b == 0x5F || 0x41 <= b <= 0x5A
  }

  predicate NameChar(b: Byte) {
    LeadChar(b) || 0x30 <= b <= 0x39
  }

  /** A segment as the emitter writes it: four characters, padded with underscores, the first a letter. It asks for
      upper-case letters and digits of any script, so a segment can take more than four bytes of UTF-8; which
      characters past ASCII pass is left open here. */
  predicate SegWritten(s: seq<Byte>) {
    && |s| >= 4
    && (LeadChar(s[0]) || 0xC2 <= s[0] <= 0xF4)
    && forall i | 1 <= i < |s| :: NameChar(s[i]) || 0x80 <= s[i] <= 0xF4
  }

  /** A segment of four bytes, which is what a reader of AML takes. */
  predicate IsSeg(s: seq<Byte>) {
    SegWritten(s) && |s| == 4
  }

  /** `\` or not, a number of `^`, and the segments. */
  datatype Name = Name(rooted: bool, ups: nat, segs: seq<seq<Byte>>)

  function JoinSegs(segs: seq<seq<Byte>>): seq<Byte> {
    if segs == [] then [] else segs[0] + JoinSegs(segs[1..])
  }

  function Ups(n: nat): seq<Byte> {
    if n == 0 then [] else [0x5E] + Ups(n - 1)
  }

  function SegBytes(segs: seq<seq<Byte>>): seq<Byte> {
    if segs == [] then [0]
    else if |segs| == 1 then segs[0]
    else if |segs| == 2 then [0x2E] + segs[0] + segs[1]
    else [0x2F, |segs| % 256] + JoinSegs(segs)
  }

  function EncodeName(n: Name): seq<Byte> {
    (if n.rooted then [0x5C] else []) + (Ups(n.ups) + SegBytes(n.segs))
  }

  /** What the emitter writes: segments as above, and a count of them that fits in a byte. */
  predicate NameWritten(n: Name) {
    |n.segs| < 256 && forall i | 0 <= i < |n.segs| :: SegWritten(n.segs[i])
  }

  /** Each segment takes four bytes, as every segment of ASCII does. */
  predicate NameFits(n: Name) {
    NameWritten(n) && forall i | 0 <= i < |n.segs| :: |n.segs[i]| == 4
  }

  function TakeSegs(s: seq<Byte>, n: nat): Option<(seq<seq<Byte>>, seq<Byte>)> {
    if n == 0 then Some(([], s))
    else if |s| < 4 then None
    else
      var (more, rest) :- TakeSegs(s[4..], n - 1);
      Some(([s[..4]] + more, rest))
  }

  function DecodeSegs(s: seq<Byte>): Option<(seq<seq<Byte>>, seq<Byte>)> {
    if s == [] then None
    else if s[0] == 0 then Some(([], s[1..]))
    else if s[0] == 0x2E then TakeSegs(s[1..], 2)
    else if s[0] == 0x2F then if |s| < 2 then None else TakeSegs(s[2..], s[1])
    else TakeSegs(s, 1)
  }

  function CountUps(s: seq<Byte>): (n: nat)
    ensures n <= |s|
  {
    if s != [] && s[0] == 0x5E then 1 + CountUps(s[1..]) else 0
  }

  function DecodeName(s: seq<Byte>): Option<(Name, seq<Byte>)> {
    var rooted := s != [] && s[0] == 0x5C;
    var s1 := if rooted then s[1..] else s;
    var ups := CountUps(s1);
    var (segs, rest) :- DecodeSegs(s1[ups..]);
    Some((Name(rooted, ups, segs), rest))
  }

  lemma {:induction false} TakeJoined(segs: seq<seq<Byte>>, rest: seq<Byte>)
    requires forall i | 0 <= i < |segs| :: |segs[i]| == 4
    ensures TakeSegs(JoinSegs(segs) + rest, |segs|) == Some((segs, rest))
  {
    if segs == [] {
      assert JoinSegs(segs) + rest == rest;
    } else {
      var s := JoinSegs(segs) + rest;
      assert s[..4] == segs[0] && s[4..] == JoinSegs(segs[1..]) + rest;
      TakeJoined(segs[1..], rest);
      assert [segs[0]] + segs[1..] == segs;
    }
  }

  lemma {:induction false} SegsStart(segs: seq<seq<Byte>>)
    requires forall i | 0 <= i < |segs| :: SegWritten(segs[i])
    ensures var s := SegBytes(segs);
            && s != [] && s[0] != 0x5C && s[0] != 0x5E
            && (segs != [] ==> s[0] == 0x2E || s[0] == 0x2F || LeadChar(s[0]) || 0xC2 <= s[0] <= 0xF4)
            && (|segs| == 1 ==> s[0] != 0 && s[0] != 0x2E && s[0] != 0x2F)
  {
  }

  lemma {:induction false} SegsRoundTrip(segs: seq<seq<Byte>>, rest: seq<Byte>)
    requires |segs| < 256 && forall i | 0 <= i < |segs| :: IsSeg(segs[i])
    ensures DecodeSegs(SegBytes(segs) + rest) == Some((segs, rest))
  {
    hide TakeSegs, SegWritten, JoinSegs;
    var s := SegBytes(segs) + rest;
    SegsStart(segs);
    TakeJoined(segs, rest);
    FewJoined(segs);
    if segs == [] {
      assert s[1..] == rest;
    } else if |segs| == 1 {
      assert s[0] == segs[0][0];
    } else if |segs| == 2 {
      assert s[1..] == JoinSegs(segs) + rest;
    } else {
      assert s[1] == |segs| && s[2..] == JoinSegs(segs) + rest;
    }
  }

  lemma {:induction false} FewJoined(segs: seq<seq<Byte>>)
    ensures |segs| == 1 ==> JoinSegs(segs) == segs[0]
    ensures |segs| == 2 ==> JoinSegs(segs) == segs[0] + segs[1]
  {
    if |segs| == 1 {
      assert segs[1..] == [] && segs[0] + [] == segs[0];
    } else if |segs| == 2 {
      assert segs[1..][1..] == [] && JoinSegs(segs[1..]) == segs[1] + [] == segs[1];
    }
  }

  lemma {:induction false} UpsCounted(n: nat, s: seq<Byte>)
    requires s == [] || s[0] != 0x5E
    ensures CountUps(Ups(n) + s) == n && |Ups(n)| == n && (Ups(n) + s)[n..] == s
    ensures n > 0 ==> Ups(n)[0] == 0x5E
  {
    if n == 0 {
      assert Ups(n) + s == s;
    } else {
      UpsCounted(n - 1, s);
      assert (Ups(n) + s)[1..] == Ups(n - 1) + s;
    }
  }

  /** A name reads back, whatever follows it, if and only if each of its segments takes four bytes. */
  lemma {:induction false} NameRoundTrip(n: Name, rest: seq<Byte>)
    requires NameWritten(n)
    ensures DecodeName(EncodeName(n) + rest) == Some((n, rest)) <==> NameFits(n)
  {
    hide DecodeName, EncodeName;
    if NameFits(n) {
      NameReadBack(n, rest);
    } else if DecodeName(EncodeName(n) + rest).Some? {
      FourByteSegs(EncodeName(n) + rest);
    }
  }

  lemma {:induction false} FourByteSegs(s: seq<Byte>)
    requires DecodeName(s).Some?
    ensures forall i | 0 <= i < |DecodeName(s).value.0.segs| :: |DecodeName(s).value.0.segs[i]| == 4
  {
    hide TakeSegs;
    var s1 := if s != [] && s[0] == 0x5C then s[1..] else s;
    var s2 := s1[CountUps(s1)..];
    assert DecodeSegs(s2).Some?;
    if s2[0] == 0x2E {
      TakesFour(s2[1..], 2);
    } else if s2[0] == 0x2F {
      TakesFour(s2[2..], s2[1]);
    } else if s2[0] != 0 {
      TakesFour(s2, 1);
    }
  }

  lemma {:induction false} TakesFour(s: seq<Byte>, n: nat)
    requires TakeSegs(s, n).Some?
    ensures forall i | 0 <= i < |TakeSegs(s, n).value.0| :: |TakeSegs(s, n).value.0[i]| == 4
  {
    if n > 0 {
      TakesFour(s[4..], n - 1);
    }
  }

  lemma {:induction false} NameReadBack(n: Name, rest: seq<Byte>)
    requires NameFits(n)
    ensures DecodeName(EncodeName(n) + rest) == Some((n, rest))
  {
    hide DecodeSegs, SegBytes, SegWritten;
    SegsRoundTrip(n.segs, rest);
    SegsStart(n.segs);
    var tail := SegBytes(n.segs) + rest;
    UpsCounted(n.ups, tail);
    var s1 := Ups(n.ups) + tail;
    var s := EncodeName(n) + rest;
    assert s == (if n.rooted then [0x5C] else []) + s1;
    if n.rooted {
      assert s[0] == 0x5C && s[1..] == s1;
    } else {
      assert s == s1 && s[0] != 0x5C;
    }
  }

  /** The name that is nothing at all; as an operand it is the byte of a zero. */
  const NULL := Name(false, 0, [])

  lemma {:induction false} NameStart(n: Name)
    requires NameWritten(n) && n != NULL
    ensures var s := EncodeName(n);
            && s != []
            && (s[0] in [0x5C, 0x5E, 0x2E, 0x2F] || LeadChar(s[0]) || 0xC2 <= s[0] <= 0xF4)
  {
    hide SegBytes, SegWritten;
    SegsStart(n.segs);
    UpsCounted(n.ups, []);
  }

  // ----- integers -----

  const MAX64 := 0xFFFF_FFFF_FFFF_FFFF

  function EncodeInt(v: nat): seq<Byte> {
    if v == 0 then [0x00]
    else if v == 1 then [0x01]
    else if v == MAX64 then [0xFF]
    else if v <= 0xFF then [0x0A] + Le(v, 1)
    else if v <= 0xFFFF then [0x0B] + Le(v, 2)
    else if v <= 0xFFFF_FFFF then [0x0C] + Le(v, 4)
    else [0x0E] + Le(v, 8)
  }

  function IntWidth(opcode: Byte): nat {
    if opcode == 0x0A then 1 else if opcode == 0x0B then 2 else if opcode == 0x0C then 4 else 8
  }

  // ----- terms -----

  datatype Term =
    | Int(value: nat)
    | Str(text: seq<Byte>)
    | Ref(target: Name)
    | Named(name: Name, obj: Term)
    | Package(elements: seq<Term>)
    | Scope(name: Name, body: seq<Term>)
    | Device(name: Name, body: seq<Term>)
    | Method(name: Name, args: nat, serialized: bool, body: seq<Term>)

  function Flags(args: nat, serialized: bool): Byte {
    args % 8 + if serialized then 8 else 0
  }

  function Encode(t: Term): seq<Byte>
    decreases t
  {
    match t
    case Int(v) => EncodeInt(v)
    case Str(text) => [0x0D] + text + [0]
    case Ref(target) => EncodeName(target)
    case Named(name, obj) => [0x08] + EncodeName(name) + Encode(obj)
    case Package(elements) => [0x12] + Pkg([|elements| % 256] + EncodeAll(elements))
    case Scope(name, body) => [0x10] + Pkg(EncodeName(name) + EncodeAll(body))
    case Device(name, body) => [0x5B, 0x82] + Pkg(EncodeName(name) + EncodeAll(body))
    case Method(name, args, serialized, body) =>
      [0x14] + Pkg(EncodeName(name) + [Flags(args, serialized)] + EncodeAll(body))
  }

  function EncodeAll(ts: seq<Term>): seq<Byte>
    decreases ts
  {
    if ts == [] then [] else Encode(ts[0]) + EncodeAll(ts[1..])
  }

  /** What the emitter writes, and does not raise for: ASCII text, names as above, any number of arguments, and every
      package under 2^28 bytes. */
  predicate Written(t: Term)
    decreases t
  {
    match t
    case Int(v) => v <= MAX64
    case Str(text) => forall b | b in text :: b < 128
    case Ref(target) => NameWritten(target)
    case Named(name, obj) => NameWritten(name) && Written(obj)
    case Package(elements) => |elements| < 256 && AllWritten(elements) && PkgFits(1 + |EncodeAll(elements)|)
    case Scope(name, body) =>
      NameWritten(name) && AllWritten(body) && PkgFits(|EncodeName(name)| + |EncodeAll(body)|)
    case Device(name, body) =>
      NameWritten(name) && AllWritten(body) && PkgFits(|EncodeName(name)| + |EncodeAll(body)|)
    case Method(name, _, _, body) =>
      NameWritten(name) && AllWritten(body) && PkgFits(|EncodeName(name)| + 1 + |EncodeAll(body)|)
  }

  predicate AllWritten(ts: seq<Term>)
    decreases ts
  {
    ts == [] || (Written(ts[0]) && AllWritten(ts[1..]))
  }

  /** What of it reads back: strings without NUL, at most seven arguments, names of four-byte segments, and as an
      operand not the null name. */
  predicate Fits(t: Term)
    decreases t
  {
    match t
    case Int(_) => true
    case Str(text) => 0 !in text
    case Ref(target) => NameFits(target) && target != NULL
    case Named(name, obj) => NameFits(name) && Fits(obj)
    case Package(elements) => FitAll(elements)
    case Scope(name, body) => NameFits(name) && FitAll(body)
    case Device(name, body) => NameFits(name) && FitAll(body)
    case Method(name, args, _, body) => NameFits(name) && args < 8 && FitAll(body)
  }

  predicate FitAll(ts: seq<Term>)
    decreases ts
  {
    ts == [] || (Fits(ts[0]) && FitAll(ts[1..]))
  }

  // ----- the reader -----

  /** The body that the length at the front of `s` spans, and what follows it. */
  function TakePkg(s: seq<Byte>): (r: Option<(seq<Byte>, seq<Byte>)>)
    ensures r.Some? ==> |r.value.0| < |s| && |r.value.1| < |s|
  {
    var l :- DecodeLength(s);
    if l.size <= l.value <= |s| then Some((s[l.size..l.value], s[l.value..])) else None
  }

  function Decode(s: seq<Byte>): (r: Option<(Term, seq<Byte>)>)
    ensures r.Some? ==> |r.value.1| < |s|
    decreases |s|, 0
  {
    if s == [] then None
    else if s[0] == 0x00 then Some((Int(0), s[1..]))
    else if s[0] == 0x01 then Some((Int(1), s[1..]))
    else if s[0] == 0xFF then Some((Int(MAX64), s[1..]))
    else if s[0] in [0x0A, 0x0B, 0x0C, 0x0E] then
      var w := IntWidth(s[0]);
      if |s| < 1 + w then None else Some((Int(FromLe(s[1..1 + w])), s[1 + w..]))
    else if s[0] == 0x0D then
      var k :- FirstNul(s[1..]);
      Some((Str(s[1..][..k]), s[1..][k + 1..]))
    else if s[0] == 0x08 then
      var (name, rest) :- DecodeName(s[1..]);
      if |rest| >= |s| then None
      else
        var (obj, rest') :- Decode(rest);
        Some((Named(name, obj), rest'))
    else if s[0] == 0x12 then
      var (body, rest) :- TakePkg(s[1..]);
      if body == [] then None
      else
        var elements :- DecodeAll(body[1..]);
        if |elements| == body[0] then Some((Package(elements), rest)) else None
    else if s[0] == 0x10 then
      var (body, rest) :- TakePkg(s[1..]);
      var (name, terms) :- DecodeNamed(body);
      Some((Scope(name, terms), rest))
    else if s[0] == 0x14 then
      var (body, rest) :- TakePkg(s[1..]);
      var (name, inner) :- DecodeName(body);
      if inner == [] || |inner| > |body| then None
      else
        var terms :- DecodeAll(inner[1..]);
        Some((Method(name, inner[0] % 8, inner[0] / 8 % 2 == 1, terms), rest))
    else if s[0] == 0x5B && |s| >= 2 && s[1] == 0x82 then
      var (body, rest) :- TakePkg(s[2..]);
      var (name, terms) :- DecodeNamed(body);
      Some((Device(name, terms), rest))
    else if s[0] in [0x5C, 0x5E, 0x2E, 0x2F] || LeadChar(s[0]) || 0xC2 <= s[0] <= 0xF4 then
      var (target, rest) :- DecodeName(s);
      if |rest| >= |s| then None else Some((Ref(target), rest))
    else None
  }

  function DecodeNamed(body: seq<Byte>): Option<(Name, seq<Term>)>
    decreases |body|, 2
  {
    var (name, inner) :- DecodeName(body);
    if |inner| > |body| then None
    else
      var terms :- DecodeAll(inner);
      Some((name, terms))
  }

  function DecodeAll(s: seq<Byte>): Option<seq<Term>>
    decreases |s|, 1
  {
    if s == [] then Some([])
    else
      var (t, rest) :- Decode(s);
      var more :- DecodeAll(rest);
      Some([t] + more)
  }

  // ----- round trip -----

  lemma {:induction false} TakePkgBack(body: seq<Byte>, rest: seq<Byte>)
    requires PkgFits(|body|)
    ensures TakePkg(Pkg(body) + rest) == Some((body, rest))
  {
    hide DecodeLength, Pkg, PkgExtra;
    PkgRoundTrip(body, rest);
  }

  lemma {:induction false} IntRoundTrip(v: nat, rest: seq<Byte>)
    requires v <= MAX64
    ensures Decode(EncodeInt(v) + rest) == Some((Int(v), rest))
  {
    hide Le, FromLe, DecodeName, DecodeNamed, DecodeAll, TakePkg;
    var s := EncodeInt(v) + rest;
    Powers();
    if 2 <= v < MAX64 {
      var w := IntWidth(s[0]);
      LeRoundTrip(v, w);
      assert s[1..1 + w] == Le(v, w) && s[1 + w..] == rest;
    } else {
      assert s[1..] == rest;
    }
  }

  lemma {:induction false} StrRoundTrip(text: seq<Byte>, rest: seq<Byte>)
    requires 0 !in text
    ensures Decode([0x0D] + text + [0] + rest) == Some((Str(text), rest))
  {
    hide DecodeName, DecodeNamed, DecodeAll, TakePkg, FirstNul, FromLe;
    var s := [0x0D] + text + [0] + rest;
    assert s[1..] == text + [0] + rest;
    FirstNulOf(text, rest);
    assert s[1..][..|text|] == text && s[1..][|text| + 1..] == rest;
  }

  lemma {:induction false} NamedBody(name: Name, terms: seq<Term>)
    requires NameFits(name) && DecodeAll(EncodeAll(terms)) == Some(terms)
    ensures DecodeNamed(EncodeName(name) + EncodeAll(terms)) == Some((name, terms))
  {
    hide DecodeName, EncodeName, DecodeAll, EncodeAll;
    NameReadBack(name, EncodeAll(terms));
  }

  /** Reading gives the same term and leaves what follows it, for every nesting. */
  lemma {:induction false} TermReadBack(t: Term, rest: seq<Byte>)
    requires Written(t) && Fits(t)
    ensures Encode(t) != [] && Decode(Encode(t) + rest) == Some((t, rest))
    decreases t
  {
    hide Decode, EncodeName, DecodeAll, EncodeAll, Pkg, EncodeInt, NameFits;
    match t
    case Int(v) => IntRoundTrip(v, rest); IntSome(v);
    case Str(text) => StrRoundTrip(text, rest);
    case Ref(target) => RefRoundTrip(target, rest);
    case Named(name, obj) => TermReadBack(obj, rest); NamedRoundTrip(name, obj, rest);
    case Package(elements) => AllReadBack(elements); PackageRoundTrip(elements, rest);
    case Scope(name, body) => AllReadBack(body); BlockRoundTrip(t, name, body, rest);
    case Device(name, body) => AllReadBack(body); BlockRoundTrip(t, name, body, rest);
    case Method(name, args, serialized, body) =>
      AllReadBack(body);
      MethodRoundTrip(name, args, serialized, body, rest);
  }

  lemma {:induction false} RefRoundTrip(target: Name, rest: seq<Byte>)
    requires NameFits(target) && target != NULL
    ensures EncodeName(target) != [] && Decode(EncodeName(target) + rest) == Some((Ref(target), rest))
  {
    hide DecodeName, EncodeName, DecodeNamed, DecodeAll, TakePkg, FirstNul, FromLe, NameWritten;
    NameStart(target);
    NameReadBack(target, rest);
  }

  lemma {:induction false} BlockRoundTrip(t: Term, name: Name, body: seq<Term>, rest: seq<Byte>)
    requires t == Scope(name, body) || t == Device(name, body)
    requires NameFits(name) && PkgFits(|EncodeName(name)| + |EncodeAll(body)|)
    requires DecodeAll(EncodeAll(body)) == Some(body)
    ensures Decode(Encode(t) + rest) == Some((t, rest))
  {
    hide DecodeName, EncodeName, DecodeAll, EncodeAll, DecodeNamed, TakePkg, Pkg, FirstNul, FromLe, NameFits;
    var whole := EncodeName(name) + EncodeAll(body);
    NamedBody(name, body);
    TakePkgBack(whole, rest);
    var s := Encode(t) + rest;
    assert t.Scope? ==> s[1..] == Pkg(whole) + rest;
    assert t.Device? ==> s[2..] == Pkg(whole) + rest;
  }

  lemma {:induction false} IntSome(v: nat)
    ensures EncodeInt(v) != []
  {
  }

  lemma {:induction false} NamedRead(s: seq<Byte>, name: Name, tail: seq<Byte>, obj: Term, rest: seq<Byte>)
    requires s != [] && s[0] == 0x08 && |tail| < |s| && DecodeName(s[1..]) == Some((name, tail))
    requires Decode(tail) == Some((obj, rest))
    ensures Decode(s) == Some((Named(name, obj), rest))
  {
  }

  lemma {:induction false} NamedRoundTrip(name: Name, obj: Term, rest: seq<Byte>)
    requires NameFits(name) && Decode(Encode(obj) + rest) == Some((obj, rest))
    ensures Decode(Encode(Named(name, obj)) + rest) == Some((Named(name, obj), rest))
  {
    hide Decode, DecodeName, EncodeName, NameFits;
    var tail := Encode(obj) + rest;
    NameReadBack(name, tail);
    var s := Encode(Named(name, obj)) + rest;
    assert s == [0x08] + (EncodeName(name) + tail);
    assert s[1..] == EncodeName(name) + tail;
    NamedRead(s, name, tail, obj, rest);
  }

  lemma {:induction false} PackageRoundTrip(elements: seq<Term>, rest: seq<Byte>)
    requires |elements| < 256 && PkgFits(1 + |EncodeAll(elements)|)
    requires DecodeAll(EncodeAll(elements)) == Some(elements)
    ensures Decode(Encode(Package(elements)) + rest) == Some((Package(elements), rest))
  {
    hide DecodeName, DecodeAll, EncodeAll, DecodeNamed, TakePkg, Pkg, FirstNul, FromLe;
    var body := [|elements| % 256] + EncodeAll(elements);
    TakePkgBack(body, rest);
    var s := Encode(Package(elements)) + rest;
    assert s[1..] == Pkg(body) + rest;
    assert body[1..] == EncodeAll(elements) && body[0] == |elements|;
  }

  lemma {:induction false} MethodRoundTrip(name: Name, args: nat, serialized: bool, body: seq<Term>, rest: seq<Byte>)
    requires NameFits(name) && args < 8 && PkgFits(|EncodeName(name)| + 1 + |EncodeAll(body)|)
    requires DecodeAll(EncodeAll(body)) == Some(body)
    ensures var t := Method(name, args, serialized, body); Decode(Encode(t) + rest) == Some((t, rest))
  {
    hide DecodeName, EncodeName, DecodeAll, EncodeAll, DecodeNamed, TakePkg, Pkg, FirstNul, FromLe, NameFits;
    var t := Method(name, args, serialized, body);
    var flags := Flags(args, serialized);
    var inner := [flags] + EncodeAll(body);
    var whole := EncodeName(name) + [flags] + EncodeAll(body);
    assert whole == EncodeName(name) + inner;
    NameReadBack(name, inner);
    TakePkgBack(whole, rest);
    var s := Encode(t) + rest;
    assert s[1..] == Pkg(whole) + rest;
    assert inner[1..] == EncodeAll(body) && inner[0] % 8 == args && (inner[0] / 8 % 2 == 1) == serialized;
  }

  lemma {:induction false} AllReadBack(ts: seq<Term>)
    requires AllWritten(ts) && FitAll(ts)
    ensures DecodeAll(EncodeAll(ts)) == Some(ts)
    decreases ts
  {
    hide Decode, Encode, Fits, Written;
    if ts != [] {
      TermReadBack(ts[0], EncodeAll(ts[1..]));
      AllReadBack(ts[1..]);
      assert [ts[0]] + ts[1..] == ts;
    }
  }

  // ----- what does not read back -----

  /** Reading fails, or gives something else. */
  predicate Misread(s: seq<Byte>, t: Term) {
    Decode(s).Some? ==> Decode(s).value.0 != t
  }

  /** A name with a segment past four bytes is read as another. */
  lemma {:induction false} NameMisread(n: Name, rest: seq<Byte>)
    requires NameWritten(n) && !NameFits(n)
    ensures DecodeName(EncodeName(n) + rest).Some? ==> DecodeName(EncodeName(n) + rest).value.0 != n
  {
    hide DecodeName, EncodeName;
    if DecodeName(EncodeName(n) + rest).Some? {
      FourByteSegs(EncodeName(n) + rest);
    }
  }

  lemma {:induction false} StrMisread(text: seq<Byte>, rest: seq<Byte>)
    requires 0 in text
    ensures Misread([0x0D] + text + [0] + rest, Str(text))
  {
    hide DecodeName, DecodeNamed, DecodeAll, TakePkg, FirstNul, FromLe;
    var s := [0x0D] + text + [0] + rest;
    assert s[0] == 0x0D;
  }

  lemma {:induction false} RefMisread(target: Name, rest: seq<Byte>)
    requires NameWritten(target) && !(NameFits(target) && target != NULL)
    ensures Misread(EncodeName(target) + rest, Ref(target))
  {
    hide DecodeName, DecodeNamed, DecodeAll, TakePkg, FirstNul, FromLe, NameFits, NameWritten;
    if target == NULL {
      NullIsZero();
      assert (EncodeName(NULL) + rest)[0] == 0x00;
    } else {
      hide EncodeName;
      NameStart(target);
      NameMisread(target, rest);
      assert (EncodeName(target) + rest)[0] == EncodeName(target)[0];
    }
  }

  /** The null name as an operand is the byte of a zero. */
  lemma {:induction false} NullIsZero()
    ensures EncodeName(NULL) == [0x00] == EncodeInt(0)
  {
  }

  lemma {:induction false} NamedParts(s: seq<Byte>)
    requires s != [] && s[0] == 0x08 && Decode(s).Some?
    ensures var t := Decode(s).value.0;
            && t.Named? && DecodeName(s[1..]).Some? && t.name == DecodeName(s[1..]).value.0
            && Decode(DecodeName(s[1..]).value.1).Some? && t.obj == Decode(DecodeName(s[1..]).value.1).value.0
  {
    hide DecodeName, DecodeNamed, DecodeAll, TakePkg, FirstNul, FromLe;
  }

  lemma {:induction false} NamedMisread(name: Name, obj: Term, rest: seq<Byte>)
    requires NameWritten(name) && !(NameFits(name) && Fits(obj))
    requires NameFits(name) ==> Misread(Encode(obj) + rest, obj)
    ensures Misread(Encode(Named(name, obj)) + rest, Named(name, obj))
  {
    hide Decode, DecodeName, EncodeName, NameFits, Fits, NameWritten;
    var tail := Encode(obj) + rest;
    var s := Encode(Named(name, obj)) + rest;
    assert s == [0x08] + (EncodeName(name) + tail);
    assert s[1..] == EncodeName(name) + tail;
    if Decode(s).Some? {
      NamedParts(s);
      if NameFits(name) {
        NameReadBack(name, tail);
      } else {
        NameMisread(name, tail);
      }
    }
  }

  lemma {:induction false} PackageMisread(elements: seq<Term>, rest: seq<Byte>)
    requires |elements| < 256 && PkgFits(1 + |EncodeAll(elements)|)
    requires DecodeAll(EncodeAll(elements)) != Some(elements)
    ensures Misread(Encode(Package(elements)) + rest, Package(elements))
  {
    hide DecodeName, DecodeAll, EncodeAll, DecodeNamed, TakePkg, Pkg, FirstNul, FromLe;
    var body := [|elements| % 256] + EncodeAll(elements);
    TakePkgBack(body, rest);
    var s := Encode(Package(elements)) + rest;
    assert s[1..] == Pkg(body) + rest;
    assert body[1..] == EncodeAll(elements);
  }

  lemma {:induction false} BodyMisread(name: Name, terms: seq<Term>)
    requires NameWritten(name)
    requires NameFits(name) ==> DecodeAll(EncodeAll(terms)) != Some(terms)
    ensures var d := DecodeNamed(EncodeName(name) + EncodeAll(terms));
            d.Some? ==> d.value.0 != name || d.value.1 != terms
  {
    hide DecodeName, EncodeName, DecodeAll, EncodeAll, NameFits, NameWritten;
    if NameFits(name) {
      NameReadBack(name, EncodeAll(terms));
    } else {
      NameMisread(name, EncodeAll(terms));
    }
  }

  lemma {:induction false} BlockParts(s: seq<Byte>, body: seq<Byte>, rest: seq<Byte>)
    requires |s| >= 2 && Decode(s).Some?
    requires (s[0] == 0x10 && TakePkg(s[1..]) == Some((body, rest)))
             || (s[0] == 0x5B && s[1] == 0x82 && TakePkg(s[2..]) == Some((body, rest)))
    ensures var t := Decode(s).value.0;
            && (if s[0] == 0x10 then t.Scope? else t.Device?)
            && DecodeNamed(body).Some? && DecodeNamed(body).value.0 == t.name && DecodeNamed(body).value.1 == t.body
  {
    hide DecodeName, DecodeNamed, DecodeAll, TakePkg, FirstNul, FromLe;
  }

  lemma {:induction false} BlockMisread(t: Term, name: Name, body: seq<Term>, rest: seq<Byte>)
    requires t == Scope(name, body) || t == Device(name, body)
    requires NameWritten(name) && PkgFits(|EncodeName(name)| + |EncodeAll(body)|)
    requires NameFits(name) ==> DecodeAll(EncodeAll(body)) != Some(body)
    ensures Misread(Encode(t) + rest, t)
  {
    hide Decode, EncodeName, EncodeAll, DecodeNamed, TakePkg, Pkg, NameFits, NameWritten;
    var whole := EncodeName(name) + EncodeAll(body);
    BodyMisread(name, body);
    TakePkgBack(whole, rest);
    var s := Encode(t) + rest;
    assert t.Scope? ==> s[1..] == Pkg(whole) + rest;
    assert t.Device? ==> s[2..] == Pkg(whole) + rest;
    if Decode(s).Some? {
      BlockParts(s, whole, rest);
    }
  }

  lemma {:induction false} MethodParts(s: seq<Byte>, body: seq<Byte>, rest: seq<Byte>)
    requires s != [] && s[0] == 0x14 && TakePkg(s[1..]) == Some((body, rest)) && Decode(s).Some?
    ensures var t := Decode(s).value.0;
            && t.Method? && t.args < 8 && DecodeName(body).Some? && t.name == DecodeName(body).value.0
            && DecodeName(body).value.1 != [] && DecodeAll(DecodeName(body).value.1[1..]) == Some(t.body)
  {
    hide DecodeName, DecodeNamed, DecodeAll, TakePkg, FirstNul, FromLe;
  }

  lemma {:induction false} MethodMisread(name: Name, args: nat, serialized: bool, body: seq<Term>, rest: seq<Byte>)
    requires NameWritten(name) && PkgFits(|EncodeName(name)| + 1 + |EncodeAll(body)|)
    requires NameFits(name) && args < 8 ==> DecodeAll(EncodeAll(body)) != Some(body)
    ensures var t := Method(name, args, serialized, body); Misread(Encode(t) + rest, t)
  {
    hide Decode, DecodeName, EncodeName, DecodeAll, EncodeAll, TakePkg, Pkg, NameFits, NameWritten;
    var t := Method(name, args, serialized, body);
    var inner := [Flags(args, serialized)] + EncodeAll(body);
    var whole := EncodeName(name) + [Flags(args, serialized)] + EncodeAll(body);
    assert whole == EncodeName(name) + inner;
    TakePkgBack(whole, rest);
    var s := Encode(t) + rest;
    assert s[1..] == Pkg(whole) + rest;
    if Decode(s).Some? {
      MethodParts(s, whole, rest);
      if NameFits(name) {
        NameReadBack(name, inner);
        assert inner[1..] == EncodeAll(body);
      } else {
        NameMisread(name, inner);
      }
    }
  }

  lemma {:induction false} TermMisread(t: Term, rest: seq<Byte>)
    requires Written(t) && !Fits(t)
    ensures Misread(Encode(t) + rest, t)
    decreases t
  {
    hide Decode, EncodeName, DecodeAll, EncodeAll, Pkg, EncodeInt, NameFits, NameWritten, Misread;
    match t
    case Int(_) =>
    case Str(text) => StrMisread(text, rest);
    case Ref(target) => RefMisread(target, rest);
    case Named(name, obj) =>
      if NameFits(name) { TermMisread(obj, rest); }
      NamedMisread(name, obj, rest);
    case Package(elements) => AllMisread(elements); PackageMisread(elements, rest);
    case Scope(name, body) =>
      if !FitAll(body) { AllMisread(body); }
      BlockMisread(t, name, body, rest);
    case Device(name, body) =>
      if !FitAll(body) { AllMisread(body); }
      BlockMisread(t, name, body, rest);
    case Method(name, args, serialized, body) =>
      if !FitAll(body) { AllMisread(body); }
      MethodMisread(name, args, serialized, body, rest);
  }

  lemma {:induction false} AllMisread(ts: seq<Term>)
    requires AllWritten(ts) && !FitAll(ts)
    ensures DecodeAll(EncodeAll(ts)) != Some(ts)
    decreases ts
  {
    hide Decode, Encode, Fits, Written;
    var more := EncodeAll(ts[1..]);
    if Fits(ts[0]) {
      TermReadBack(ts[0], more);
      AllMisread(ts[1..]);
    } else {
      TermMisread(ts[0], more);
    }
  }

  /** Of everything the emitter writes, whatever its nesting: reading gives the same term and leaves what follows it, if
      and only if its strings hold no NUL, its methods take at most seven arguments, its names have four-byte segments
      and none of its operands is the null name. */
  lemma {:induction false} TermRoundTrip(t: Term, rest: seq<Byte>)
    requires Written(t)
    ensures Decode(Encode(t) + rest) == Some((t, rest)) <==> Fits(t)
  {
    hide Decode, Encode, Fits, Written;
    if Fits(t) {
      TermReadBack(t, rest);
    } else {
      TermMisread(t, rest);
    }
  }

  /** So of a list of terms: nesting and siblings are recovered. */
  lemma {:induction false} AllRoundTrip(ts: seq<Term>)
    requires AllWritten(ts)
    ensures DecodeAll(EncodeAll(ts)) == Some(ts) <==> FitAll(ts)
  {
    hide DecodeAll, EncodeAll, FitAll, AllWritten;
    if FitAll(ts) {
      AllReadBack(ts);
    } else {
      AllMisread(ts);
    }
  }

  /** 'ÉABC': a segment of four characters that takes five bytes, and its name is read as another. */
  lemma {:induction false} LongSegment(rest: seq<Byte>)
    ensures var n := Name(false, 0, [[0xC3, 0x89, 0x41, 0x42, 0x43]]);
            NameWritten(n) && DecodeName(EncodeName(n) + rest) != Some((n, rest))
  {
    hide DecodeName, EncodeName;
    var n := Name(false, 0, [[0xC3, 0x89, 0x41, 0x42, 0x43]]);
    assert |n.segs[0]| == 5;
    NameRoundTrip(n, rest);
  }
}
