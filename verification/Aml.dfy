/** AML package lengths and field lengths (section 20.2 of ACPI 6.5). */
module Aml {
  import opened Bytes

  // ----- lengths -----

  const LIMIT := 0x1000_0000

  /** How many bytes follow the lead byte for `n`. */
  function Extra(n: nat): (e: nat)
    ensures e <= 3
  {
    if n < 0x40 then 0 else if n < 0x1000 then 1 else if n < 0x10_0000 then 2 else 3
  }

  /** The encoding of a plain number: the lead byte holds the count of the others and four bits, or six bits alone. */
  function LengthBytes(n: nat): (s: seq<Byte>)
    ensures |s| == 1 + Extra(n)
  {
    match Extra(n)
    case 0 => [n % 64]
    case 1 => [64 + n % 16, n / 16 % 256]
    case 2 => [128 + n % 16, n / 16 % 256, n / 4096 % 256]
    case _ => [192 + n % 16, n / 16 % 256, n / 4096 % 256, n / 0x10_0000 % 256]
  }

  datatype Length = Length(value: nat, size: nat)

  /** The length at the front of `s`; reading past the end raises. */
  function DecodeLength(s: seq<Byte>): (r: Option<Length>)
    ensures r.Some? ==> 1 <= r.value.size <= 4 && r.value.size <= |s|
  {
    if s == [] || |s| < 1 + s[0] / 64 then None
    else
      var lead := s[0];
      match lead / 64
      case 0 => Some(Length(lead, 1))
      case 1 => Some(Length(lead % 16 + 16 * (s[1] as int), 2))
      case 2 => Some(Length(lead % 16 + 16 * (s[1] as int) + 4096 * (s[2] as int), 3))
      case _ => Some(Length(lead % 16 + 16 * (s[1] as int) + 4096 * (s[2] as int) + 0x10_0000 * (s[3] as int), 4))
  }

  lemma {:induction false} Bits(n: nat)
    requires n < LIMIT
    ensures n == n % 16 + 16 * (n / 16 % 256) + 4096 * (n / 4096 % 256) + 0x10_0000 * (n / 0x10_0000 % 256)
  {
    assert n / 4096 == n / 16 / 256 && n / 0x10_0000 == n / 4096 / 256;
  }

  lemma {:induction false} LengthRoundTrip(n: nat, rest: seq<Byte>)
    requires n < LIMIT
    ensures DecodeLength(LengthBytes(n) + rest) == Some(Length(n, 1 + Extra(n)))
  {
    Bits(n);
    var e, code := Extra(n), LengthBytes(n);
    var s := code + rest;
    assert forall i | 0 <= i < |code| :: s[i] == code[i];
    if e == 0 {
      assert s[0] == n;
    } else {
      assert s[0] == 64 * e + n % 16;
      assert s[0] / 64 == e && s[0] % 16 == n % 16;
      assert s[1] == n / 16 % 256;
      if e == 1 {
        assert n / 4096 == 0;
      } else if e == 2 {
        assert s[2] == n / 4096 % 256 && n / 0x10_0000 == 0;
      } else {
        assert s[2] == n / 4096 % 256 && s[3] == n / 0x10_0000 % 256;
      }
    }
  }

  /** `field_length`; `None` when the number has no encoding. */
  method FieldLength(bits: nat) returns (r: Option<seq<Byte>>)
    ensures r == if bits < LIMIT then Some(LengthBytes(bits)) else None
  {
    if bits < 0x40 { return Some([bits]); }
    var limit := 16;
    for extra := 1 to 4
      invariant limit == (if extra == 1 then 16 else if extra == 2 then 0x1000
                          else if extra == 3 then 0x10_0000 else LIMIT)
      invariant extra > 1 ==> bits >= limit
    {
      limit := limit * 256;
      if bits < limit {
        var out: seq<Byte> := [extra * 64 + bits % 16];
        var rest := bits / 16;
        for i := 0 to extra
          invariant rest == (if i == 0 then bits / 16 else if i == 1 then bits / 4096
                             else if i == 2 then bits / 0x10_0000
                             else bits / LIMIT)
          invariant out == (if i == 0 then [extra * 64 + bits % 16]
                            else if i == 1 then [extra * 64 + bits % 16, bits / 16 % 256]
                            else if i == 2 then [extra * 64 + bits % 16, bits / 16 % 256, bits / 4096 % 256]
                            else [extra * 64 + bits % 16, bits / 16 % 256, bits / 4096 % 256, bits / 0x10_0000 % 256])
        {
          out := out + [rest % 256];
          rest := rest / 256;
        }
        return Some(out);
      }
    }
    return None;
  }

  // ----- packages: a length that counts itself -----

  /** The fewest bytes after the lead byte that hold a body of `n` bytes and themselves. */
  function PkgExtra(n: nat): (e: nat)
    ensures e <= 3
  {
    if n + 1 < 0x40 then 0 else if n + 2 < 0x1000 then 1 else if n + 3 < 0x10_0000 then 2 else 3
  }

  function Pkg(body: seq<Byte>): (s: seq<Byte>)
    ensures |s| == 1 + PkgExtra(|body|) + |body|
  {
    PkgIsLength(|body|);
    LengthBytes(|body| + 1 + PkgExtra(|body|)) + body
  }

  lemma {:induction false} PkgIsLength(n: nat)
    ensures Extra(n + 1 + PkgExtra(n)) == PkgExtra(n)
  {
  }

  predicate PkgFits(n: nat) {
    n + 4 < LIMIT
  }

  /** The prefix decodes to its own size and the body's together, and the body is what it spans. */
  lemma {:induction false} PkgRoundTrip(body: seq<Byte>, rest: seq<Byte>)
    requires PkgFits(|body|)
    ensures var size := 1 + PkgExtra(|body|);
            && DecodeLength(Pkg(body) + rest) == Some(Length(size + |body|, size))
            && (Pkg(body) + rest)[size..size + |body|] == body
            && (Pkg(body) + rest)[size + |body|..] == rest
  {
    hide LengthBytes, DecodeLength;
    PkgIsLength(|body|);
    var n := |body| + 1 + PkgExtra(|body|);
    LengthRoundTrip(n, body + rest);
    assert Pkg(body) + rest == LengthBytes(n) + (body + rest);
  }

  /** No shorter prefix counts itself and a body of `n` bytes. */
  lemma {:induction false} PkgShortest(n: nat, prefix: seq<Byte>)
    requires DecodeLength(prefix) == Some(Length(n + |prefix|, |prefix|))
    ensures |prefix| >= 1 + PkgExtra(n)
  {
  }

  method PkgLength(body: seq<Byte>) returns (r: Option<seq<Byte>>)
    ensures r == if PkgFits(|body|) then Some(Pkg(body)) else None
  {
    var n := |body|;
    PkgIsLength(n);
    var limit := 16;
    for extra := 0 to 4
      invariant limit == (if extra <= 1 then 16 else if extra == 2 then 0x1000
                          else if extra == 3 then 0x10_0000 else LIMIT)
      invariant extra > 0 ==> PkgExtra(n) >= extra || !PkgFits(n)
    {
      var total := n + 1 + extra;
      if extra > 0 { limit := limit * 256; }
      if (extra == 0 && total < 0x40) || (extra > 0 && total < limit) {
        assert PkgExtra(n) == extra && PkgFits(n);
        var prefix := FieldLength(total);
        return Some(prefix.value + body);
      }
    }
    return None;
  }
}
