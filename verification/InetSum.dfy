/** The internet checksum (RFC 1071) and its form over the IPv6 pseudo-header (section 8.1 of RFC 8200). */
module InetSum {
  import opened Bytes

  /** The sum of the big-endian 16-bit words, an odd last byte taken as a high byte. */
  function WordSum(data: seq<Byte>): nat {
    if data == [] then 0
    else if |data| == 1 then (data[0] as int) * 256
    else Get16(data) + WordSum(data[2..])
  }

  method AddWords(data: seq<Byte>, start: nat) returns (total: nat)
    ensures total == start + WordSum(data)
  {
    total := start;
    var index := 0;
    while index < |data| - 1
      invariant 0 <= index <= |data| && index % 2 == 0
      invariant total + WordSum(data[index..]) == start + WordSum(data)
    {
      assert data[index..][2..] == data[index + 2..];
      assert Get16(data[index..index + 2]) == Get16(data[index..]);
      total := total + Get16(data[index..index + 2]);
      index := index + 2;
    }
    if |data| % 2 == 1 {
      assert data[index..] == [data[|data| - 1]];
      total := total + (data[|data| - 1] as int) * 256;
    } else {
      assert data[index..] == [];
    }
  }

  /** End-around carry until sixteen bits are left. */
  function Fold(n: nat): (r: nat)
    ensures r < 0x1_0000
  {
    if n < 0x1_0000 then n else Fold(n % 0x1_0000 + n / 0x1_0000)
  }

  /** Folding is the remainder modulo 65535, with 65535 for 0 unless the number is 0 itself. */
  lemma {:induction false} FoldIs(n: nat)
    ensures Fold(n) == if n == 0 then 0 else (n - 1) % 0xFFFF + 1
  {
    if n >= 0x1_0000 {
      var high, low := n / 0x1_0000, n % 0x1_0000;
      FoldIs(low + high);
      assert n - 1 == (low + high - 1) + high * 0xFFFF;
      SameRemainder(low + high - 1, high);
    }
  }

  lemma {:induction false} SameRemainder(m: nat, k: nat)
    ensures (m + k * 0xFFFF) % 0xFFFF == m % 0xFFFF
  {
  }

  /** The complement of the folded sum, all ones where that is zero. */
  function Complement(total: nat): (r: nat)
    ensures 0 < r < 0x1_0000
  {
    if Fold(total) == 0xFFFF then 0xFFFF else 0xFFFF - Fold(total)
  }

  method FoldComplement(start: nat) returns (value: nat)
    ensures value == Complement(start)
  {
    var total := start;
    while total >= 0x1_0000
      invariant Fold(total) == Fold(start)
      decreases total
    {
      total := total % 0x1_0000 + total / 0x1_0000;
    }
    value := 0xFFFF - total;
    if value == 0 { value := 0xFFFF; }
  }

  method OnesComplement(data: seq<Byte>) returns (value: nat)
    ensures value == Complement(WordSum(data))
  {
    var total := AddWords(data, 0);
    value := FoldComplement(total);
  }

  /** Of the numbers that can stand in the field and are not zero, the complement is the one that makes the whole fold
      to all ones, which is what a receiver looks for. */
  lemma {:induction false} ComplementIsTheOne(total: nat, value: nat)
    requires 0 < value < 0x1_0000
    ensures Fold(total + value) == 0xFFFF <==> value == Complement(total)
  {
    hide Fold;
    FoldIs(total);
    FoldIs(total + value);
    if total > 0 {
      var f := Fold(total);
      assert total + value - 1 == (f - 1 + value) + (total - 1) / 0xFFFF * 0xFFFF;
      SameRemainder(f - 1 + value, (total - 1) / 0xFFFF);
      LastRemainder(f - 1 + value);
    }
  }

  lemma {:induction false} LastRemainder(n: nat)
    requires n < 2 * 0xFFFF
    ensures n % 0xFFFF == 0xFFFE <==> n == 0xFFFE || n == 0x1_FFFD
  {
  }

  // ----- the pseudo-header -----

  type Ip6 = a: seq<Byte> | |a| == 16 witness Zeros(16)

  function PseudoSum(source: Ip6, destination: Ip6, next: Byte, length: nat): nat {
    WordSum(source) + WordSum(destination) + length / 0x1_0000 + length % 0x1_0000 + next as int
  }

  method Checksum(source: Ip6, destination: Ip6, next: Byte, message: seq<Byte>) returns (value: nat)
    ensures value == Complement(PseudoSum(source, destination, next, |message|) + WordSum(message))
  {
    var total := AddWords(source, 0);
    total := AddWords(destination, total);
    total := total + |message| / 0x1_0000;
    total := total + |message| % 0x1_0000;
    total := total + next as int;
    total := AddWords(message, total);
    value := FoldComplement(total);
  }

  // ----- a checksum put in its place -----

  lemma {:induction false} WordSumJoin(a: seq<Byte>, b: seq<Byte>)
    requires |a| % 2 == 0
    ensures WordSum(a + b) == WordSum(a) + WordSum(b)
  {
    if a == [] {
      assert a + b == b;
    } else {
      assert (a + b)[2..] == a[2..] + b;
      assert Get16(a + b) == Get16(a);
      WordSumJoin(a[2..], b);
    }
  }

  /** `s[:at]`, the number in two bytes, `s[at + 2:]`. */
  function Patch(s: seq<Byte>, at: nat, value: nat): (r: seq<Byte>)
    requires at + 2 <= |s|
    ensures |r| == |s|
  {
    s[..at] + Be16(value) + s[at + 2..]
  }

  /** A number put over two zero bytes adds itself to the sum. */
  lemma {:induction false} PatchAdds(s: seq<Byte>, at: nat, value: nat)
    requires at + 2 <= |s| && at % 2 == 0 && s[at] == 0 && s[at + 1] == 0 && value < 0x1_0000
    ensures WordSum(Patch(s, at, value)) == WordSum(s) + value
  {
    hide Get16;
    var before, after := s[..at], s[at + 2..];
    assert Patch(s, at, value) == before + (Be16(value) + after);
    assert s == before + ([0, 0] + after);
    WordSumJoin(before, Be16(value) + after);
    WordSumJoin(Be16(value), after);
    WordSumJoin(before, [0, 0] + after);
    WordSumJoin([0, 0], after);
    OneWord(value);
    OneWord(0);
  }

  lemma {:induction false} OneWord(value: nat)
    requires value < 0x1_0000
    ensures WordSum(Be16(value)) == value && Be16(0) == [0, 0]
  {
  }

  /** With its complement over two zero bytes, and whatever else is summed, the whole folds to all ones. */
  lemma {:induction false} PatchedFolds(others: nat, s: seq<Byte>, at: nat)
    requires at + 2 <= |s| && at % 2 == 0 && s[at] == 0 && s[at + 1] == 0
    ensures Fold(others + WordSum(Patch(s, at, Complement(others + WordSum(s))))) == 0xFFFF
  {
    hide Fold, WordSum, Patch, Complement;
    var value := Complement(others + WordSum(s));
    PatchAdds(s, at, value);
    ComplementIsTheOne(others + WordSum(s), value);
  }
}
