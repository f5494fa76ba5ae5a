/** Fixed-width integers, byte strings and the error-carrying results shared by every module.

    Widths are subset types of `int`, so every narrowing and every wrap in the model is explicit.
    Bit tests are written as arithmetic: `x >> 4` is `x / 16`, `x & 0x0F` is `x % 16`. */
module Bytes {
  type byte = b: int | 0 <= b < 0x100
  type u16 = n: int | 0 <= n < 0x1_0000
  type u32 = n: int | 0 <= n < 0x1_0000_0000
  type u64 = n: int | 0 <= n < 0x1_0000_0000_0000_0000

  /** Rust's `Option`, usable with `:-` the way the source uses `?`. */
  datatype Option<+T> = None | Some(value: T) {
    predicate IsFailure() { None? }
    function PropagateFailure<U>(): Option<U>
      requires None?
    {
      None
    }
    function Extract(): T
      requires Some?
    {
      value
    }
    function GetOr(default: T): T {
      if Some? then value else default
    }
  }

  /** The errors of the carrier crates and of the session crate. */
  datatype Error =
    | Short(need: nat, have: nat)
    | TooLong(len: nat)
    | Options(len: nat)
    | NotEstablished
    | Rejected
    | Replayed
    | Expired
    | Noise

  datatype Result<+T> = Ok(value: T) | Err(error: Error)

  /** Wrapping 32-bit arithmetic: the residue of an unbounded value. */
  function Wrap(n: int): u32 {
    n % 0x1_0000_0000
  }

  function Min(a: int, b: int): int {
    if a < b then a else b
  }

  function Max(a: int, b: int): int {
    if a < b then b else a
  }

  // Halfwords are put together and taken apart by counting rather than by `*`, `/` and `%`. To the
  // solver a halfword is then one symbol, and `WordIs` and `Be16Is` say what it is where a proof asks.

  function Times256(n: nat): nat { if n == 0 then 0 else 0x100 + Times256(n - 1) }

  function Over256(n: nat): nat { if n < 0x100 then 0 else 1 + Over256(n - 0x100) }

  function Rest256(n: nat): nat { if n < 0x100 then n else Rest256(n - 0x100) }

  lemma {:induction false} Times256Is(n: nat)
    ensures Times256(n) == 0x100 * n
  {
    if n > 0 { Times256Is(n - 1); }
  }

  lemma {:induction false} Over256Is(n: nat)
    ensures Over256(n) == n / 0x100 && Rest256(n) == n % 0x100
  {
    if n >= 0x100 { Over256Is(n - 0x100); }
  }

  function Word(hi: byte, lo: byte): u16 {
    Times256Is(hi);
    Times256(hi) + lo
  }

  function Be16(v: u16): (b: seq<byte>)
    ensures |b| == 2
  {
    Over256Is(v);
    [Over256(v), Rest256(v)]
  }

  lemma WordIs(hi: byte, lo: byte)
    ensures Word(hi, lo) == 0x100 * hi + lo
  {
    Times256Is(hi);
  }

  lemma Be16Is(v: u16)
    ensures Be16(v) == [v / 0x100, v % 0x100]
  {
    Over256Is(v);
  }

  function Be32(v: u32): (b: seq<byte>)
    ensures |b| == 4
  {
    Be16(v / 0x1_0000) + Be16(v % 0x1_0000)
  }

  function Le16(v: u16): (b: seq<byte>)
    ensures |b| == 2
  {
    [Be16(v)[1], Be16(v)[0]]
  }

  /** The big-endian halfword at `at`. */
  function Get16(s: seq<byte>, at: nat): u16
    requires at + 2 <= |s|
  {
    Word(s[at], s[at + 1])
  }

  function Get32(s: seq<byte>, at: nat): u32
    requires at + 4 <= |s|
  {
    Get16(s, at) * 0x1_0000 + Get16(s, at + 2)
  }

  function Be24(v: nat): (b: seq<byte>)
    requires v < 0x100_0000
    ensures |b| == 3
  {
    [v / 0x1_0000] + Be16(v % 0x1_0000)
  }

  function Get24(s: seq<byte>, at: nat): nat
    requires at + 3 <= |s|
  {
    (s[at] as int) * 0x1_0000 + Get16(s, at + 1)
  }

  /** `slice.get(i)`. */
  function At(s: seq<byte>, i: nat): Option<byte> {
    if i < |s| then Some(s[i]) else None
  }

  /** `u16::from_be_bytes([*s.get(i)?, *s.get(i + 1)?])`. */
  function At16(s: seq<byte>, i: nat): Option<u16> {
    if i + 2 <= |s| then Some(Get16(s, i)) else None
  }

  /** `s` with `b` copied over it at `at`. */
  function Patch(s: seq<byte>, at: nat, b: seq<byte>): (t: seq<byte>)
    requires at + |b| <= |s|
    ensures |t| == |s|
    ensures forall i {:trigger t[i]} :: 0 <= i < |s| ==> t[i] == if at <= i < at + |b| then b[i - at] else s[i]
  {
    s[..at] + b + s[at + |b|..]
  }

  lemma PatchInside(s: seq<byte>, at: nat, b: seq<byte>, n: nat)
    requires at + |b| <= n <= |s|
    ensures Patch(s, at, b)[..n] == Patch(s[..n], at, b)
  {
  }

  lemma PatchBeyond(s: seq<byte>, at: nat, b: seq<byte>, n: nat)
    requires n <= at && at + |b| <= |s|
    ensures Patch(s, at, b)[..n] == s[..n]
  {
  }

  function Zeros(n: nat): (s: seq<byte>)
    ensures |s| == n
    ensures forall i :: 0 <= i < n ==> s[i] == 0
  {
    seq(n, _ => 0)
  }

  lemma Be16RoundTrip(v: u16)
    ensures Get16(Be16(v), 0) == v
  {
    Be16Is(v);
    WordIs(v / 0x100, v % 0x100);
  }

  lemma Be32RoundTrip(v: u32)
    ensures Get32(Be32(v), 0) == v
  {
    var hi, lo := v / 0x1_0000, v % 0x1_0000;
    Be16RoundTrip(hi);
    Be16RoundTrip(lo);
    assert Be32(v)[..2] == Be16(hi) && Be32(v)[2..] == Be16(lo);
  }

  lemma Be16OfGet16(s: seq<byte>, at: nat)
    requires at + 2 <= |s|
    ensures Be16(Get16(s, at)) == s[at..at + 2]
  {
    WordIs(s[at], s[at + 1]);
    Be16Is(Get16(s, at));
  }

  lemma Be32OfGet32(s: seq<byte>, at: nat)
    requires at + 4 <= |s|
    ensures Be32(Get32(s, at)) == s[at..at + 4]
  {
    hide Be16, Get16;
    var hi, lo := Get16(s, at), Get16(s, at + 2);
    HalvesOf(hi, lo);
    Be16OfGet16(s, at);
    Be16OfGet16(s, at + 2);
    assert s[at..at + 4] == s[at..at + 2] + s[at + 2..at + 4];
  }

  lemma HalvesOf(hi: u16, lo: u16)
    ensures (hi * 0x1_0000 + lo) / 0x1_0000 == hi && (hi * 0x1_0000 + lo) % 0x1_0000 == lo
  {
  }

  /** `b` lies in `msg` at `pos`. */
  predicate Lies(msg: seq<byte>, pos: nat, b: seq<byte>) {
    pos + |b| <= |msg| && msg[pos..pos + |b|] == b
  }

  lemma LiesSplit(msg: seq<byte>, pos: nat, a: seq<byte>, b: seq<byte>)
    ensures Lies(msg, pos, a + b) <==> Lies(msg, pos, a) && Lies(msg, pos + |a|, b)
  {
    if pos + |a + b| <= |msg| {
      var s := msg[pos..pos + |a + b|];
      assert s[..|a|] == msg[pos..pos + |a|] && s[|a|..] == msg[pos + |a|..pos + |a| + |b|];
      assert s == s[..|a|] + s[|a|..];
      assert (a + b)[..|a|] == a && (a + b)[|a|..] == b;
    }
  }

  lemma LiesAt(msg: seq<byte>, pos: nat, b: seq<byte>, i: nat)
    requires Lies(msg, pos, b) && i < |b|
    ensures msg[pos + i] == b[i]
  {
    assert msg[pos..pos + |b|][i] == msg[pos + i];
  }

  lemma Halfword(msg: seq<byte>, at: nat, v: u16)
    requires Lies(msg, at, Be16(v))
    ensures Get16(msg, at) == v
  {
    LiesAt(msg, at, Be16(v), 0);
    LiesAt(msg, at, Be16(v), 1);
    Be16RoundTrip(v);
  }

  /** Bit `i` of a word: what `w & (1 << i) != 0` reads. */
  predicate BitOf(w: nat, i: nat) {
    if i == 0 then w % 2 == 1 else BitOf(w / 2, i - 1)
  }

  /** A word with bit `i` set: what `w | (1 << i)` writes. */
  function WithBit(w: nat, i: nat): nat {
    if i == 0 then w - w % 2 + 1 else 2 * WithBit(w / 2, i - 1) + w % 2
  }

  lemma {:induction false} BitOfWithBit(w: nat, i: nat, j: nat)
    ensures BitOf(WithBit(w, i), j) <==> i == j || BitOf(w, j)
  {
    if i > 0 && j > 0 {
      BitOfWithBit(w / 2, i - 1, j - 1);
    }
  }

  lemma {:induction false} BitOfZero(i: nat)
    ensures !BitOf(0, i)
  {
    if i > 0 {
      BitOfZero(i - 1);
    }
  }

  function Pow2(k: nat): (p: nat)
    ensures p >= 1
  {
    if k == 0 then 1 else 2 * Pow2(k - 1)
  }

  lemma {:induction false} Pow2Sum(a: nat, b: nat)
    ensures Pow2(a + b) == Pow2(a) * Pow2(b)
  {
    if a > 0 {
      Pow2Sum(a - 1, b);
    }
  }

  lemma Pow2OfWidths()
    ensures Pow2(8) == 0x100
    ensures Pow2(32) == 0x1_0000_0000
    ensures Pow2(64) == 0x1_0000_0000_0000_0000
  {
    assert Pow2(4) == 16;
    Pow2Sum(4, 4);
    assert Pow2(8) == 0x100;
    Pow2Sum(8, 8);
    assert Pow2(16) == 0x1_0000;
    Pow2Sum(16, 16);
    assert Pow2(32) == 0x1_0000_0000;
    Pow2Sum(32, 32);
  }

  /** Setting a bit inside a word keeps the word in range. */
  lemma {:induction false} WithBitFits(w: nat, i: nat, k: nat)
    requires w < Pow2(k) && i < k
    ensures WithBit(w, i) < Pow2(k)
  {
    var half := w / 2;
    assert half < Pow2(k - 1);
    if i > 0 {
      WithBitFits(half, i - 1, k - 1);
    }
  }

  /** Exclusive or of the low `k` bits. */
  function Xor(a: nat, b: nat, k: nat): (r: nat)
    ensures r < Pow2(k)
  {
    if k == 0 then 0 else Odd(a + b) + 2 * Xor(a / 2, b / 2, k - 1)
  }

  function Odd(n: nat): nat { n % 2 }

  lemma {:induction false} XorUndoes(a: nat, b: nat, k: nat)
    requires a < Pow2(k)
    ensures Xor(Xor(a, b, k), b, k) == a
  {
    if k > 0 {
      hide Xor, Odd;
      var x, y, rest := a / 2, b / 2, Xor(a / 2, b / 2, k - 1);
      XorStep(a, b, k);
      XorUndoes(x, y, k - 1);
      LowBit(Odd(a + b), rest);
      XorStep(Odd(a + b) + 2 * rest, b, k);
      OddTwice(a, b, rest);
    }
  }

  lemma XorStep(a: nat, b: nat, k: nat)
    requires k > 0
    ensures Xor(a, b, k) == Odd(a + b) + 2 * Xor(a / 2, b / 2, k - 1)
  {
  }

  lemma OddTwice(a: nat, b: nat, rest: nat)
    ensures Odd(Odd(a + b) + 2 * rest + b) == Odd(a)
  {
  }

  lemma LowBit(low: nat, rest: nat)
    requires low < 2
    ensures (low + 2 * rest) / 2 == rest && (low + 2 * rest) % 2 == low
  {
  }

  /** Bit by bit, exclusive or is where the two differ. */
  lemma {:induction false} XorBits(a: nat, b: nat, k: nat, i: nat)
    requires i < k
    ensures BitOf(Xor(a, b, k), i) <==> BitOf(a, i) != BitOf(b, i)
  {
    hide Xor;
    XorStep(a, b, k);
    var low, rest := Odd(a + b), Xor(a / 2, b / 2, k - 1);
    LowBit(low, rest);
    if i == 0 {
      OddSum(a, b);
    } else {
      XorBits(a / 2, b / 2, k - 1, i - 1);
    }
  }

  lemma OddSum(a: nat, b: nat)
    ensures (a + b) % 2 == 1 <==> (a % 2 == 1) != (b % 2 == 1)
  {
  }
}
