/** The internet checksum of `checksum.rs`, and the same arithmetic in `gso.rs`. */
module Checksum {
  import opened Bytes

  /** The big-endian words of `data` added up; an odd last byte is the high half of a word. */
  function Words(data: seq<byte>): nat {
    if |data| == 0 then 0
    else if |data| == 1 then Word(data[0], 0)
    else Word(data[0], data[1]) + Words(data[2..])
  }

  /** The ones' complement value of a sum: what is left after taking 65535 from it while it is more. */
  function Ones(acc: nat): u16 {
    if acc <= 0xFFFF then acc else Ones(acc - 0xFFFF)
  }

  /** That is its residue mod 65535, where only zero itself is zero. */
  lemma {:induction false} OnesIs(acc: nat)
    ensures Ones(acc) == if acc == 0 then 0 else (acc - 1) % 0xFFFF + 1
  {
    if acc > 0xFFFF {
      OnesIs(acc - 0xFFFF);
      ResidueShift(acc - 0xFFFF - 1, 1);
    }
  }

  /** The largest sum `len` bytes can reach. */
  function Ceiling(len: nat): nat {
    0xFFFF * ((len + 1) / 2)
  }

  lemma CeilingFits(len: nat)
    requires len <= 0xFFFF
    ensures Ceiling(len) < 0x1_0000_0000
  {
  }

  // ---- The loops of the source ---------------------------------------------------------------

  /** `sum`: the accumulator is a `u64`, which the caller must leave room in. */
  method Sum(data: seq<byte>, initial: u64) returns (acc: u64)
    requires initial + Ceiling(|data|) < 0x1_0000_0000_0000_0000
    ensures acc == initial + Words(data)
  {
    acc := initial;
    var i := 0;
    WordsBound(data);
    while i + 1 < |data|
      invariant 0 <= i <= |data| && i % 2 == 0
      invariant acc == initial + Words(data[..i])
    {
      WordsStep(data, i);
      WordsPrefix(data, i + 2);
      acc := acc + Word(data[i], data[i + 1]);
      i := i + 2;
    }
    if i < |data| {
      WordsAppend(data[..i], data[i..]);
      assert data[..i] + data[i..] == data;
      acc := acc + Word(data[i], 0);
    } else {
      assert data[..i] == data;
    }
  }

  /** `fold` without the complement, as `gso.rs` has it. */
  method Fold(initial: u64) returns (folded: u16)
    ensures folded == Ones(initial)
  {
    var acc: nat := initial;
    while acc >= 0x1_0000
      invariant Ones(acc) == Ones(initial)
      decreases acc
    {
      FoldStep(acc);
      acc := acc % 0x1_0000 + acc / 0x1_0000;
    }
    folded := acc;
  }

  /** `checksum::fold`, which complements what it folded. */
  method FoldComplement(acc: u64) returns (checksum: u16)
    ensures checksum == Complement(acc)
  {
    var folded := Fold(acc);
    checksum := 0xFFFF - folded;
  }

  /** `pseudo_header_v4`. */
  method PseudoHeader(src: seq<byte>, dst: seq<byte>, protocol: byte, len: u16) returns (acc: u64)
    requires |src| == 4 && |dst| == 4
    ensures acc == Words(PseudoBytes(src, dst, protocol, len))
  {
    var s := Sum(src, 0);
    var d := Sum(dst, 0);
    WordsBound(src);
    WordsBound(dst);
    acc := s + d + protocol + len;
    PseudoWords(src, dst, protocol, len);
  }

  /** The twelve bytes a TCP or UDP checksum covers beside the segment. */
  function PseudoBytes(src: seq<byte>, dst: seq<byte>, protocol: byte, len: u16): (b: seq<byte>)
    requires |src| == 4 && |dst| == 4
    ensures |b| == 12
  {
    src + dst + [0, protocol] + Be16(len)
  }

  lemma PseudoWords(src: seq<byte>, dst: seq<byte>, protocol: byte, len: u16)
    requires |src| == 4 && |dst| == 4
    ensures Words(PseudoBytes(src, dst, protocol, len)) == Words(src) + Words(dst) + protocol + len
  {
    WordsAppend(src + dst + [0, protocol], Be16(len));
    WordsAppend(src + dst, [0, protocol]);
    WordsAppend(src, dst);
    WordsOfBe16(len);
    WordsOfPair(0, protocol);
  }

  // ---- Words ---------------------------------------------------------------------------------

  lemma {:induction false} WordsAppend(a: seq<byte>, b: seq<byte>)
    requires |a| % 2 == 0
    ensures Words(a + b) == Words(a) + Words(b)
  {
    if a == [] {
      assert a + b == b;
    } else {
      WordsAppend(a[2..], b);
      assert (a + b)[2..] == a[2..] + b;
    }
  }

  lemma WordsOfPair(hi: byte, lo: byte)
    ensures Words([hi, lo]) == Word(hi, lo)
  {
    assert [hi, lo][2..] == [];
  }

  lemma WordsOfBe16(v: u16)
    ensures Words(Be16(v)) == v
  {
    Be16Is(v);
    WordIs(v / 0x100, v % 0x100);
    WordsOfPair(v / 0x100, v % 0x100);
  }

  lemma WordsStep(data: seq<byte>, i: nat)
    requires i % 2 == 0 && i + 2 <= |data|
    ensures Words(data[..i + 2]) == Words(data[..i]) + Word(data[i], data[i + 1])
  {
    WordsAppend(data[..i], [data[i], data[i + 1]]);
    assert data[..i + 2] == data[..i] + [data[i], data[i + 1]];
    WordsOfPair(data[i], data[i + 1]);
  }

  lemma WordsPrefix(data: seq<byte>, i: nat)
    requires i % 2 == 0 && i <= |data|
    ensures Words(data[..i]) <= Words(data)
  {
    WordsAppend(data[..i], data[i..]);
    assert data == data[..i] + data[i..];
  }

  lemma {:induction false} WordsBound(data: seq<byte>)
    ensures Words(data) <= Ceiling(|data|)
  {
    if |data| >= 2 {
      WordsBound(data[2..]);
    }
  }

  /** Overwriting one aligned word moves the sum by the difference. */
  lemma WordsPatch(data: seq<byte>, at: nat, v: u16)
    requires at % 2 == 0 && at + 2 <= |data|
    ensures Words(Patch(data, at, Be16(v))) == Words(data) - Get16(data, at) + v
  {
    hide *;
    WordsReplaced(data, at, Be16(v));
    WordsOfBe16(v);
    WordsAt(data, at);
  }

  lemma WordsReplaced(data: seq<byte>, at: nat, b: seq<byte>)
    requires at % 2 == 0 && at + 2 <= |data| && |b| == 2
    ensures Words(Patch(data, at, b)) == Words(data) - Words(data[at..at + 2]) + Words(b)
  {
    assert data == data[..at] + data[at..at + 2] + data[at + 2..];
    WordsOfThree(data[..at], data[at..at + 2], data[at + 2..]);
    WordsOfThree(data[..at], b, data[at + 2..]);
  }

  lemma WordsAt(data: seq<byte>, at: nat)
    requires at + 2 <= |data|
    ensures Words(data[at..at + 2]) == Get16(data, at)
  {
    WordsOfPair(data[at], data[at + 1]);
    assert data[at..at + 2] == [data[at], data[at + 1]];
  }

  lemma WordsOfThree(a: seq<byte>, b: seq<byte>, c: seq<byte>)
    requires |a| % 2 == 0 && |b| % 2 == 0
    ensures Words(a + b + c) == Words(a) + Words(b) + Words(c)
  {
    WordsAppend(a + b, c);
    WordsAppend(a, b);
  }

  // ---- Ones' complement ----------------------------------------------------------------------

  function Complement(acc: nat): u16 {
    0xFFFF - Ones(acc)
  }

  lemma FoldStep(acc: nat)
    requires acc >= 0x1_0000
    ensures acc % 0x1_0000 + acc / 0x1_0000 < acc
    ensures Ones(acc % 0x1_0000 + acc / 0x1_0000) == Ones(acc)
  {
    var hi, lo := acc / 0x1_0000, acc % 0x1_0000;
    assert acc == lo + hi + 0xFFFF * hi;
    ResidueShift(lo + hi - 1, hi);
    OnesIs(acc);
    OnesIs(lo + hi);
  }

  lemma ResidueShift(n: nat, k: nat)
    ensures (n + 0xFFFF * k) % 0xFFFF == n % 0xFFFF
  {
  }

  lemma OnesCharacterised(acc: nat)
    ensures Ones(acc) % 0xFFFF == acc % 0xFFFF
    ensures Ones(acc) == 0 <==> acc == 0
  {
    OnesIs(acc);
    if acc > 0 {
      var q := (acc - 1) / 0xFFFF;
      assert acc == 0xFFFF * q + Ones(acc);
      ResidueShift(Ones(acc), q);
    }
  }

  /** Two sums with the same residue that are zero together fold alike. */
  lemma OnesUnique(a: nat, b: nat)
    requires a % 0xFFFF == b % 0xFFFF && (a == 0 <==> b == 0)
    ensures Ones(a) == Ones(b)
  {
    OnesCharacterised(a);
    OnesCharacterised(b);
  }

  /** Folding part of a sum first changes nothing. */
  lemma OnesAbsorbs(a: nat, b: nat)
    ensures Ones(a + Ones(b)) == Ones(a + b)
  {
    OnesCharacterised(b);
    OnesUnique(a + Ones(b), a + b);
  }

  /** Filling a zeroed, aligned field with the checksum of the rest makes the whole sum fold to
      all ones, so the check a receiver runs (fold and complement) gives zero. */
  lemma FilledChecksumVerifies(extra: nat, data: seq<byte>, at: nat)
    requires at % 2 == 0 && at + 2 <= |data|
    requires Get16(data, at) == 0
    ensures var filled := Patch(data, at, Be16(Complement(extra + Words(data))));
            Complement(extra + Words(filled)) == 0
  {
    hide Words, Ones;
    var s := extra + Words(data);
    WordsPatch(data, at, Complement(s));
    ComplementCompletes(s);
  }

  lemma ComplementCompletes(s: nat)
    ensures Complement(s + Complement(s)) == 0
  {
    OnesCharacterised(s);
    OnesIs(s);
    OnesIs(s + Complement(s));
    if s > 0 {
      var q := (s - 1) / 0xFFFF;
      assert s + Complement(s) == 0xFFFF + 0xFFFF * q;
      ResidueShift(0xFFFE, q);
    }
  }
}
