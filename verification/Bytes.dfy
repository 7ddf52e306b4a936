/** Byte strings: fixed-width words, Python-style slices, zero padding, NUL scanning and strict UTF-8. */
module Bytes {

  datatype Option<+T> = None | Some(value: T) {
    predicate IsFailure() {
      None?
    }

    function PropagateFailure<U>(): Option<U>
      requires None?
    {
      None
    }

    function Extract(): T
      requires Some?
    {
      value
    }
  }

  type Byte = b: int | 0 <= b < 256

  const WORD := 0x1_0000_0000

  /** The low 32 bits of `n`, most significant byte first. */
  function Be32(n: int): (s: seq<Byte>)
    ensures |s| == 4
  {
    [n / 256 / 256 / 256 % 256, n / 256 / 256 % 256, n / 256 % 256, n % 256]
  }

  /** The big-endian word at the front of `s`. */
  function Get32(s: seq<Byte>): (n: nat)
    requires |s| >= 4
    ensures n < WORD
  {
    (((s[0] as int) * 256 + s[1]) * 256 + s[2]) * 256 + s[3]
  }

  lemma {:induction false} Get32OfBe32(n: int, rest: seq<Byte>)
    requires 0 <= n < WORD
    ensures Get32(Be32(n) + rest) == n
  {
  }

  /** The low 16 bits of `n`, most significant byte first. */
  function Be16(n: int): (s: seq<Byte>)
    ensures |s| == 2
  {
    [n / 256 % 256, n % 256]
  }

  /** The big-endian 16-bit number at the front of `s`. */
  function Get16(s: seq<Byte>): (n: nat)
    requires |s| >= 2
    ensures n < 0x1_0000
  {
    (s[0] as int) * 256 + s[1]
  }

  lemma {:induction false} Get16OfBe16(n: int, rest: seq<Byte>)
    requires 0 <= n < 0x1_0000
    ensures Get16(Be16(n) + rest) == n
  {
  }

  /** The numbers as consecutive big-endian words. */
  function Words(ns: seq<int>): (s: seq<Byte>)
    ensures |s| == 4 * |ns|
  {
    if ns == [] then [] else Be32(ns[0]) + Words(ns[1..])
  }

  lemma {:induction false} WordAt(ns: seq<int>, i: nat, rest: seq<Byte>)
    requires i < |ns| && 0 <= ns[i] < WORD
    ensures Get32((Words(ns) + rest)[4 * i..]) == ns[i]
  {
    hide Get32, Be32;
    var whole, tail := Words(ns) + rest, Words(ns[1..]) + rest;
    assert whole == Be32(ns[0]) + tail;
    if i == 0 {
      Get32OfBe32(ns[0], tail);
      assert whole[0..] == whole;
    } else {
      WordAt(ns[1..], i - 1, rest);
      assert whole[4 * i..] == tail[4 * (i - 1)..];
    }
  }

  /** The bytes of a stream that arrives in chunks. */
  function Join(chunks: seq<seq<Byte>>): seq<Byte> {
    if chunks == [] then [] else chunks[0] + Join(chunks[1..])
  }

  lemma {:induction false} JoinSnoc(chunks: seq<seq<Byte>>, last: seq<Byte>)
    ensures Join(chunks + [last]) == Join(chunks) + last
  {
    if chunks == [] {
      assert [last][1..] == [] && last + [] == last && [] + last == last;
    } else {
      assert (chunks + [last])[1..] == chunks[1..] + [last];
      JoinSnoc(chunks[1..], last);
    }
  }

  /** `n` in `width` bytes, least significant first. */
  function Le(n: nat, width: nat): (s: seq<Byte>)
    ensures |s| == width
  {
    if width == 0 then [] else [n % 256] + Le(n / 256, width - 1)
  }

  function FromLe(s: seq<Byte>): nat {
    if s == [] then 0 else (s[0] as int) + 256 * FromLe(s[1..])
  }

  function Pow256(width: nat): nat {
    if width == 0 then 1 else 256 * Pow256(width - 1)
  }

  lemma {:induction false} LeRoundTrip(n: nat, width: nat)
    requires n < Pow256(width)
    ensures FromLe(Le(n, width)) == n
  {
    if width > 0 {
      LeRoundTrip(n / 256, width - 1);
      assert Le(n, width)[1..] == Le(n / 256, width - 1);
    }
  }

  lemma {:induction false} Powers()
    ensures Pow256(1) == 0x100 && Pow256(2) == 0x1_0000 && Pow256(4) == 0x1_0000_0000
    ensures Pow256(8) == 0x1_0000_0000_0000_0000
  {
  }

  /** `s[n:]` as Python reads it: nothing when `n` is past the end. */
  function Drop<T>(s: seq<T>, n: nat): seq<T> {
    if n <= |s| then s[n..] else []
  }

  /** `s[lo:hi]` as Python reads it: clamped at both ends. */
  function Slice<T>(s: seq<T>, lo: nat, hi: nat): seq<T> {
    var h := if hi <= |s| then hi else |s|;
    if lo <= h then s[lo..h] else []
  }

  function Align4(n: nat): (m: nat)
    ensures n <= m < n + 4 && m % 4 == 0
  {
    (n + 3) / 4 * 4
  }

  function Zeros(n: nat): (s: seq<Byte>)
    ensures |s| == n
    ensures forall i | 0 <= i < n :: s[i] == 0
  {
    seq(n, i => 0)
  }

  /** The bytes of an ASCII literal. */
  function Ascii(text: string): (s: seq<Byte>)
    ensures |s| == |text|
    ensures forall i | 0 <= i < |s| :: s[i] == text[i] as int % 256
  {
    seq(|text|, i requires 0 <= i < |text| => text[i] as int % 256)
  }

  /** The position of the first zero byte, if there is one. */
  function FirstNul(s: seq<Byte>): (r: Option<nat>)
    ensures r.Some? ==> r.value < |s| && s[r.value] == 0 && 0 !in s[..r.value]
    ensures r.None? ==> 0 !in s
  {
    if s == [] then None
    else if s[0] == 0 then Some(0)
    else match FirstNul(s[1..])
      case None => assert s == [s[0]] + s[1..]; None
      case Some(k) => assert s[..k + 1] == [s[0]] + s[1..][..k]; Some(k + 1)
  }

  lemma {:induction false} FirstNulOf(name: seq<Byte>, rest: seq<Byte>)
    requires 0 !in name
    ensures FirstNul(name + [0] + rest) == Some(|name|)
  {
    if name != [] {
      assert name[0] in name && forall b | b in name[1..] :: b in name;
      assert (name + [0] + rest)[1..] == name[1..] + [0] + rest;
      FirstNulOf(name[1..], rest);
    }
  }

  predicate Continuation(b: Byte) { 0x80 <= b <= 0xBF }

  /** How many bytes the well-formed UTF-8 sequence at the front of `s` takes; 0 when there is none. */
  function Utf8Lead(s: seq<Byte>): (n: nat)
    requires s != []
    ensures n <= |s|
  {
    if s[0] < 0x80 then 1
    else if 0xC2 <= s[0] <= 0xDF && |s| >= 2 && Continuation(s[1]) then 2
    else if 0xE0 <= s[0] <= 0xEF && |s| >= 3 && Continuation(s[1]) && Continuation(s[2])
            && (s[0] == 0xE0 ==> s[1] >= 0xA0) && (s[0] == 0xED ==> s[1] <= 0x9F) then 3
    else if 0xF0 <= s[0] <= 0xF4 && |s| >= 4 && Continuation(s[1]) && Continuation(s[2]) && Continuation(s[3])
            && (s[0] == 0xF0 ==> s[1] >= 0x90) && (s[0] == 0xF4 ==> s[1] <= 0x8F) then 4
    else 0
  }

  /** What the strict UTF-8 decoder accepts. */
  predicate Utf8(s: seq<Byte>)
    decreases |s|
  {
    s == [] || (Utf8Lead(s) > 0 && Utf8(s[Utf8Lead(s)..]))
  }
}
