/** The decoy handshake `cover.rs` builds: nested lengths around shuffled extensions. */
module Decoys {
  import opened Bytes
  import opened Records
  import opened Recognisers
  import opened Emission

  const MAX_NAME: nat := 253
  const X25519_MLKEM768: u16 := 0x11EC
  const MLKEM_COEFFS: nat := 768
  const MLKEM_EK: nat := MLKEM_COEFFS * 3 / 2 + 32
  const MLKEM_SEED: nat := MLKEM_COEFFS * 2 + 32
  const PQ_CLIENT_SHARE: nat := MLKEM_EK + 32
  const PQ_SERVER_SHARE: nat := 1120
  const TICKET_LEN: nat := 224
  const FINISHED_LEN: nat := 58
  /** The ML-KEM modulus. */
  const Q: nat := 3329

  type Bytes32 = s: seq<byte> | |s| == 32 witness Zeros(32)
  type Seed = s: seq<byte> | |s| == MLKEM_SEED witness Zeros(MLKEM_SEED)
  type ServerShare = s: seq<byte> | |s| == PQ_SERVER_SHARE witness Zeros(PQ_SERVER_SHARE)
  type Ticket = s: seq<byte> | |s| == TICKET_LEN witness Zeros(TICKET_LEN)
  type Finished = s: seq<byte> | |s| == FINISHED_LEN witness Zeros(FINISHED_LEN)

  datatype Secrets = Secrets(
    random: Bytes32, sessionId: Bytes32, keyShare: Bytes32, hybridX25519: Bytes32, mlkem: Seed,
    serverShare: ServerShare, ticket: Ticket, binder: Bytes32, finished: Finished, grease: byte)

  /** A GREASE value: both bytes `0x?a`. */
  function Grease(seed: byte): u16 {
    var b := seed % 0x10 * 0x10 + 0x0A;
    Word(b, b)
  }

  // ---- Extensions ----------------------------------------------------------------------------

  /** An entry with a type and a body that fits its length. */
  datatype Entry = Entry(ty: u16, body: Body)
  type Body = s: seq<byte> | |s| <= 0xFFFF witness []

  function EntryBytes(e: Entry): (b: seq<byte>)
    ensures |b| == 4 + |e.body|
  {
    Be16(e.ty) + Be16(|e.body|) + e.body
  }

  /** `extension`: a body too long to describe would be given length zero. */
  function Extension(ty: u16, body: seq<byte>): seq<byte> {
    Be16(ty) + Be16(if |body| <= 0xFFFF then |body| else 0) + body
  }

  function Encoded(es: seq<Entry>): (parts: seq<seq<byte>>)
    ensures |parts| == |es|
  {
    seq(|es|, i requires 0 <= i < |es| => EntryBytes(es[i]))
  }

  /** Reading entries off until nothing is left. */
  function Walk(block: seq<byte>): Option<seq<Entry>> {
    if block == [] then Some([])
    else if |block| < 4 || 4 + Get16(block, 2) > |block| then None
    else
      var len := Get16(block, 2);
      var rest := Walk(block[4 + len..]);
      if rest.None? then None else Some([Entry(Get16(block, 0), block[4..4 + len])] + rest.value)
  }

  lemma WalkOne(e: Entry, rest: seq<byte>)
    ensures var more := Walk(rest);
            Walk(EntryBytes(e) + rest) == if more.Some? then Some([e] + more.value) else None
  {
    hide Be16, Get16;
    var block := EntryBytes(e) + rest;
    LiesSplit(block, 0, EntryBytes(e), rest);
    LiesSplit(block, 0, Be16(e.ty) + Be16(|e.body|), e.body);
    LiesSplit(block, 0, Be16(e.ty), Be16(|e.body|));
    Halfword(block, 0, e.ty);
    Halfword(block, 2, |e.body|);
    assert block[4 + |e.body|..] == rest;
  }

  lemma {:induction false} JoinedFirst(parts: seq<seq<byte>>)
    requires parts != []
    ensures Joined(parts) == parts[0] + Joined(parts[1..])
  {
    if |parts| == 1 {
      assert parts[..0] == [] && parts[1..] == [];
    } else {
      var front, last, tail := parts[..|parts| - 1], parts[|parts| - 1], parts[1..];
      JoinedFirst(front);
      assert front[1..] == tail[..|tail| - 1] && tail[|tail| - 1] == last;
      assert Joined(tail) == Joined(front[1..]) + last;
      assert Joined(parts) == Joined(front) + last == parts[0] + (Joined(front[1..]) + last);
    }
  }

  /** Any list of entries is read back whole. */
  lemma {:induction false} WalkAll(es: seq<Entry>)
    ensures Walk(Joined(Encoded(es))) == Some(es)
  {
    if es != [] {
      hide EntryBytes, Walk, Joined;
      assert Encoded(es)[1..] == Encoded(es[1..]);
      JoinedFirst(Encoded(es));
      WalkAll(es[1..]);
      WalkOne(es[0], Joined(Encoded(es[1..])));
      assert es == [es[0]] + es[1..];
    }
  }

  // ---- The shuffle ---------------------------------------------------------------------------

  function Swapped<T>(s: seq<T>, i: nat, j: nat): (t: seq<T>)
    requires i < |s| && j < |s|
    ensures |t| == |s|
  {
    s[i := s[j]][j := s[i]]
  }

  /** The swaps from position `i` down to the second. */
  function Shuffled<T>(s: seq<T>, seed: Bytes32, i: nat): (t: seq<T>)
    requires i < |s| || s == []
    ensures |t| == |s|
    decreases i
  {
    if i == 0 || s == [] then s else Shuffled(Swapped(s, i, seed[i % 32] % (i + 1)), seed, i - 1)
  }

  /** `shuffle`, in place. */
  method Shuffle<T>(items: array<T>, seed: Bytes32)
    modifies items
    ensures items[..] == Shuffled(old(items[..]), seed, if items.Length == 0 then 0 else items.Length - 1)
    ensures multiset(items[..]) == multiset(old(items[..]))
  {
    if items.Length < 2 {
      return;
    }
    var i := items.Length - 1;
    while i > 0
      invariant 0 <= i < items.Length
      invariant Shuffled(items[..], seed, i) == Shuffled(old(items[..]), seed, items.Length - 1)
    {
      var j := seed[i % 32] % (i + 1);
      ghost var before := items[..];
      items[i], items[j] := items[j], items[i];
      assert items[..] == Swapped(before, i, j);
      i := i - 1;
    }
    ShuffledPermutes(old(items[..]), seed, items.Length - 1);
  }

  lemma SwappedPermutes<T>(s: seq<T>, i: nat, j: nat)
    requires i < |s| && j < |s|
    ensures multiset(Swapped(s, i, j)) == multiset(s)
  {
  }

  lemma {:induction false} ShuffledPermutes<T>(s: seq<T>, seed: Bytes32, i: nat)
    requires i < |s|
    ensures multiset(Shuffled(s, seed, i)) == multiset(s)
    decreases i
  {
    if i > 0 {
      hide Swapped;
      var j := seed[i % 32] % (i + 1);
      SwappedPermutes(s, i, j);
      ShuffledPermutes(Swapped(s, i, j), seed, i - 1);
    }
  }

  lemma SwappedEncodes(es: seq<Entry>, i: nat, j: nat)
    requires i < |es| && j < |es|
    ensures Swapped(Encoded(es), i, j) == Encoded(Swapped(es, i, j))
  {
    hide EntryBytes;
  }

  /** Shuffling the bytes of entries is shuffling the entries. */
  lemma {:induction false} ShuffledEncodes(es: seq<Entry>, seed: Bytes32, i: nat)
    requires i < |es|
    ensures Shuffled(Encoded(es), seed, i) == Encoded(Shuffled(es, seed, i))
    decreases i
  {
    if i > 0 {
      hide Swapped, Encoded;
      var j := seed[i % 32] % (i + 1);
      SwappedEncodes(es, i, j);
      ShuffledEncodes(Swapped(es, i, j), seed, i - 1);
    }
  }

  /** The bytes a list of entries takes. */
  function Size(es: seq<Entry>): nat {
    if es == [] then 0 else Size(es[..|es| - 1]) + 4 + |es[|es| - 1].body|
  }

  lemma {:induction false} JoinedSize(es: seq<Entry>)
    ensures |Joined(Encoded(es))| == Size(es)
  {
    if es != [] {
      hide EntryBytes;
      assert Encoded(es)[..|es| - 1] == Encoded(es[..|es| - 1]);
      JoinedSize(es[..|es| - 1]);
    }
  }

  lemma {:induction false} SizeReplaced(es: seq<Entry>, i: nat, e: Entry)
    requires i < |es|
    ensures Size(es[i := e]) == Size(es) - |es[i].body| + |e.body|
  {
    var n := |es| - 1;
    if i == n {
      assert es[i := e][..n] == es[..n];
    } else {
      assert es[i := e][..n] == es[..n][i := e];
      SizeReplaced(es[..n], i, e);
    }
  }

  lemma SwappedSize(es: seq<Entry>, i: nat, j: nat)
    requires i < |es| && j < |es|
    ensures Size(Swapped(es, i, j)) == Size(es)
  {
    hide Size;
    SizeReplaced(es, i, es[j]);
    SizeReplaced(es[i := es[j]], j, es[i]);
  }

  lemma {:induction false} ShuffledSize(es: seq<Entry>, seed: Bytes32, i: nat)
    requires i < |es|
    ensures Size(Shuffled(es, seed, i)) == Size(es)
    decreases i
  {
    if i > 0 {
      hide Size, Swapped;
      var j := seed[i % 32] % (i + 1);
      SwappedSize(es, i, j);
      ShuffledSize(Swapped(es, i, j), seed, i - 1);
    }
  }

  // ---- The encapsulation key -----------------------------------------------------------------

  /** The coefficient drawn for position `i`. */
  function Draw(seed: Seed, i: nat): (c: nat)
    requires i < MLKEM_COEFFS
    ensures c < Q
  {
    Word(seed[2 * i + 1], seed[2 * i]) % Q
  }

  /** The coefficient a reader unpacks at position `i`: twelve bits, two to every three bytes. */
  function Coefficient(key: seq<byte>, i: nat): nat
    requires i / 2 * 3 + 3 <= |key|
  {
    var at := i / 2 * 3;
    if i % 2 == 0 then key[at] + 0x100 * (key[at + 1] % 0x10) else key[at + 1] / 0x10 + 0x10 * (key[at + 2] as int)
  }

  /** `encapsulation_key`: every coefficient reads back as its draw, so in range, and the seed's own
      tail ends the key. */
  method EncapsulationKey(seed: Seed) returns (key: seq<byte>)
    ensures |key| == MLKEM_EK && key == KeyBytes(seed)
    ensures forall i :: 0 <= i < MLKEM_COEFFS ==> Coefficient(key, i) == Draw(seed, i) == Word(seed[2 * i + 1], seed[2 * i]) % 3329
    ensures key[MLKEM_COEFFS * 3 / 2..] == seed[MLKEM_COEFFS * 2..]
  {
    hide Draw, Coefficient;
    key := [];
    for pair := 0 to MLKEM_COEFFS / 2
      invariant key == Pairs(seed, pair)
    {
      var a, b := Draw(seed, 2 * pair), Draw(seed, 2 * pair + 1);
      key := key + [a % 0x100];
      key := key + [a / 0x100 % 0x10 + b % 0x10 * 0x10];
      key := key + [b / 0x10];
    }
    key := key + seed[MLKEM_COEFFS * 2..];
    forall i | 0 <= i < MLKEM_COEFFS
      ensures Coefficient(key, i) == Draw(seed, i) == Word(seed[2 * i + 1], seed[2 * i]) % 3329
    {
      KeyRead(seed, key, i / 2);
      DrawIs(seed, i);
    }
  }

  lemma DrawIs(seed: Seed, i: nat)
    requires i < MLKEM_COEFFS
    ensures Draw(seed, i) == Word(seed[2 * i + 1], seed[2 * i]) % 3329
  {
  }

  lemma KeyRead(seed: Seed, key: seq<byte>, pair: nat)
    requires pair < MLKEM_COEFFS / 2 && key == KeyBytes(seed)
    ensures Coefficient(key, 2 * pair) == Draw(seed, 2 * pair)
    ensures Coefficient(key, 2 * pair + 1) == Draw(seed, 2 * pair + 1)
  {
    hide Draw, Pairs, Coefficient, Packed;
    var a, b := Draw(seed, 2 * pair), Draw(seed, 2 * pair + 1);
    PairIn(seed, MLKEM_COEFFS / 2, pair);
    assert key[3 * pair..3 * pair + 3] == Pairs(seed, MLKEM_COEFFS / 2)[3 * pair..3 * pair + 3];
    PackedPair(a, b);
    CoefficientIn(key, pair);
  }

  lemma {:induction false} PairIn(seed: Seed, n: nat, pair: nat)
    requires 2 * n <= MLKEM_COEFFS && pair < n
    ensures Pairs(seed, n)[3 * pair..3 * pair + 3] == Packed(Draw(seed, 2 * pair), Draw(seed, 2 * pair + 1))
  {
    hide Draw, Packed;
    if pair < n - 1 {
      PairIn(seed, n - 1, pair);
    }
  }

  lemma CoefficientIn(key: seq<byte>, pair: nat)
    requires 3 * pair + 3 <= |key|
    ensures Coefficient(key, 2 * pair) == Coefficient(key[3 * pair..3 * pair + 3], 0)
    ensures Coefficient(key, 2 * pair + 1) == Coefficient(key[3 * pair..3 * pair + 3], 1)
  {
  }

  function Packed(a: nat, b: nat): (p: seq<byte>)
    requires a < Q && b < Q
    ensures |p| == 3
  {
    [a % 0x100, a / 0x100 % 0x10 + b % 0x10 * 0x10, b / 0x10]
  }

  function Pairs(seed: Seed, n: nat): (p: seq<byte>)
    requires 2 * n <= MLKEM_COEFFS
    ensures |p| == 3 * n
  {
    if n == 0 then [] else Pairs(seed, n - 1) + Packed(Draw(seed, 2 * n - 2), Draw(seed, 2 * n - 1))
  }

  function KeyBytes(seed: Seed): (k: seq<byte>)
    ensures |k| == MLKEM_EK
  {
    Pairs(seed, MLKEM_COEFFS / 2) + seed[MLKEM_COEFFS * 2..]
  }

  lemma PackedPair(a: nat, b: nat)
    requires a < Q && b < Q
    ensures Coefficient(Packed(a, b), 0) == a && Coefficient(Packed(a, b), 1) == b
  {
  }
}
