/** The anti-replay window of `replay.rs`: a 32-word ring bitmap that stands for a set of counters. */
module Replay {
  import opened Bytes

  const WORDS: nat := 32
  const BITS_PER_WORD: nat := 64
  /** Bits in the whole ring. */
  const WINDOW_BITS: nat := WORDS * BITS_PER_WORD
  /** How far behind the highest counter a packet may be. */
  const WINDOW_SIZE: nat := WINDOW_BITS - BITS_PER_WORD

  function WordIndex(word: nat): (i: nat)
    ensures i < WORDS
  {
    word % WORDS
  }

  /** Whether the ring holds a word for `c` when `highest` is the newest counter. */
  predicate InRing(highest: u64, c: u64) {
    c / BITS_PER_WORD <= highest / BITS_PER_WORD < c / BITS_PER_WORD + WORDS
  }

  /** The counter inside the ring whose bit `c` shares. */
  function Alias(highest: u64, c: u64): (d: u64)
    requires c <= highest
    ensures InRing(highest, d)
    ensures WordIndex(d / BITS_PER_WORD) == WordIndex(c / BITS_PER_WORD) && d % BITS_PER_WORD == c % BITS_PER_WORD
    ensures InRing(highest, c) ==> d == c
  {
    var word := AliasWord(highest / BITS_PER_WORD, c / BITS_PER_WORD);
    InWord(word, c % BITS_PER_WORD, highest);
    BITS_PER_WORD * word + c % BITS_PER_WORD
  }

  /** The newest word of the ring that shares a slot with `word`. */
  function AliasWord(newest: nat, word: nat): (w: nat)
    requires word <= newest
    ensures w <= newest < w + WORDS && WordIndex(w) == WordIndex(word)
    ensures newest < word + WORDS ==> w == word
  {
    var w := word + WORDS * ((newest - word) / WORDS);
    TurnsKeepSlot(word, (newest - word) / WORDS);
    w
  }

  lemma TurnsKeepSlot(word: nat, turns: nat)
    ensures WordIndex(word + WORDS * turns) == WordIndex(word)
  {
  }

  lemma InWord(word: nat, bit: nat, highest: u64)
    requires bit < BITS_PER_WORD && word <= highest / BITS_PER_WORD
    ensures (BITS_PER_WORD * word + bit) / BITS_PER_WORD == word && (BITS_PER_WORD * word + bit) % BITS_PER_WORD == bit
    ensures BITS_PER_WORD * word + bit < 0x1_0000_0000_0000_0000
  {
  }

  /** The abstract window: the newest counter and the counters whose bits are set. */
  datatype Window = Window(started: bool, highest: u64, marks: set<u64>) {
    predicate Admits(c: u64) {
      || !started
      || c > highest
      || (highest - c <= WINDOW_SIZE && c !in marks)
    }

    /** `commit`, also for a counter `check` would refuse: a stale one marks its alias. */
    function Commit(c: u64): Window {
      if !started || c > highest then
        Window(true, c, marks + {c})
      else
        Window(true, highest, marks + {Alias(highest, c)})
    }
  }

  const EMPTY := Window(false, 0, {})

  class ReplayWindow {
    var bitmap: array<u64>
    var highest: u64
    var started: bool
    /** Every counter whose bit has been set. */
    ghost var marks: set<u64>

    ghost function View(): Window
      reads this
    {
      Window(started, highest, marks)
    }

    ghost predicate Valid()
      reads this, bitmap
    {
      && bitmap.Length == WORDS
      && (started ==> highest in marks)
      && (forall m :: m in marks ==> started && m / BITS_PER_WORD <= highest / BITS_PER_WORD)
      && (!started ==> highest == 0 && forall i :: 0 <= i < WORDS ==> bitmap[i] == 0)
      && (started ==> forall c: u64 :: InRing(highest, c) ==> (IsSet(c) <==> c in marks))
    }

    constructor ()
      ensures Valid() && View() == EMPTY && fresh(bitmap)
    {
      bitmap := new u64[WORDS](_ => 0);
      highest := 0;
      started := false;
      marks := {};
    }

    predicate IsSet(c: u64)
      requires bitmap.Length == WORDS
      reads this, bitmap
    {
      BitOf(bitmap[WordIndex(c / BITS_PER_WORD)], c % BITS_PER_WORD)
    }

    method Check(c: u64) returns (ok: bool)
      requires Valid()
      ensures ok == View().Admits(c)
    {
      if !started || c > highest {
        return true;
      }
      if highest - c > WINDOW_SIZE {
        return false;
      }
      assert InRing(highest, c);
      return !IsSet(c);
    }

    method Commit(c: u64)
      requires Valid()
      modifies this, bitmap
      ensures Valid() && bitmap == old(bitmap)
      ensures View() == old(View()).Commit(c)
    {
      if !started {
        started := true;
        highest := c;
        forall x: u64 ensures !IsSet(x) {
          BitOfZero(x % BITS_PER_WORD);
        }
        Set(c);
        return;
      }
      if c > highest {
        ClearSkipped(c);
        highest := c;
      }
      Set(c);
    }

    /** Clears the words between the old newest counter's and the new one's, at most once round. */
    method ClearSkipped(c: u64)
      requires Valid() && started && c > highest
      modifies bitmap
      ensures forall x: u64 :: InRing(c, x) ==> (IsSet(x) <==> x in marks)
    {
      var oldWord := highest / BITS_PER_WORD;
      var newWord := c / BITS_PER_WORD;
      var skipped := if newWord - oldWord < WORDS then newWord - oldWord else WORDS;
      ghost var before := bitmap[..];
      for i := 0 to skipped
        invariant forall w :: 0 <= w < WORDS ==>
                    bitmap[w] == if Ahead(oldWord, w) < i then 0 else before[w]
      {
        var slot := WordIndex(oldWord + 1 + i);
        SlotAhead(oldWord, i);
        bitmap[slot] := 0;
      }
      forall x: u64 | InRing(c, x) ensures IsSet(x) <==> x in marks {
        var word := x / BITS_PER_WORD;
        if word <= oldWord {
          WordBehind(oldWord, word);
          assert old(IsSet(x)) <==> x in marks;
        } else {
          WordAhead(oldWord, word);
          BitOfZero(x % BITS_PER_WORD);
        }
      }
    }

    method Set(c: u64)
      requires bitmap.Length == WORDS && started && c <= highest
      requires forall x: u64 :: InRing(highest, x) ==> (IsSet(x) <==> x in marks)
      modifies this`marks, bitmap
      ensures marks == old(marks) + {Alias(highest, c)}
      ensures forall x: u64 :: InRing(highest, x) ==> (IsSet(x) <==> x in marks)
    {
      var idx := WordIndex(c / BITS_PER_WORD);
      var w := bitmap[idx];
      assert Pow2(64) == 0x1_0000_0000_0000_0000 by { Pow2OfWidths(); }
      WithBitFits(w, c % BITS_PER_WORD, 64);
      bitmap[idx] := WithBit(w, c % BITS_PER_WORD);
      ghost var d := Alias(highest, c);
      marks := marks + {d};
      forall x: u64 | InRing(highest, x) ensures IsSet(x) <==> x in marks {
        assert old(IsSet(x)) <==> x in old(marks);
        SameBit(highest, c, x);
        BitOfWithBit(w, c % BITS_PER_WORD, x % BITS_PER_WORD);
      }
    }
  }

  /** How many slots past the one after `word` a ring slot is. */
  function Ahead(word: nat, slot: nat): (d: nat)
    ensures d < WORDS
  {
    (slot - word - 1) % WORDS
  }

  lemma SlotAhead(word: nat, i: nat)
    requires i < WORDS
    ensures forall w :: 0 <= w < WORDS ==> (Ahead(word, w) == i <==> w == WordIndex(word + 1 + i))
  {
  }

  lemma WordBehind(newest: nat, word: nat)
    requires newest - WORDS < word <= newest
    ensures Ahead(newest, WordIndex(word)) == WORDS - 1 - (newest - word)
  {
  }

  lemma WordAhead(newest: nat, word: nat)
    requires newest < word
    ensures Ahead(newest, WordIndex(word)) <= word - newest - 1
  {
  }

  /** Inside the ring, two counters share a bit only if they are the same counter. */
  lemma SameBit(highest: u64, c: u64, x: u64)
    requires c <= highest && InRing(highest, x)
    ensures WordIndex(c / BITS_PER_WORD) == WordIndex(x / BITS_PER_WORD) && c % BITS_PER_WORD == x % BITS_PER_WORD
            <==> x == Alias(highest, c)
  {
    hide Alias, WordIndex;
    var d, newest := Alias(highest, c), highest / BITS_PER_WORD;
    WordBehind(newest, d / BITS_PER_WORD);
    WordBehind(newest, x / BITS_PER_WORD);
  }

  // ---- The ring stands for a set -------------------------------------------------------------

  /** What a window over a plain set of seen counters would answer: newer than everything, or
      unseen and not more than the window of 1984 behind anything. */
  ghost predicate Accepts(seen: set<u64>, c: u64) {
    || (forall s :: s in seen ==> s < c)
    || (c !in seen && forall s :: s in seen ==> s - c <= 1984)
  }

  /** What a plain set holding `seen` holds after being offered `cs` one by one. */
  ghost function FeedSet(seen: set<u64>, cs: seq<u64>): set<u64> {
    if cs == [] then seen
    else
      var s := FeedSet(seen, cs[..|cs| - 1]);
      var c := cs[|cs| - 1];
      if Accepts(s, c) then s + {c} else s
  }

  /** The ring `w` after check-then-commit over `cs`. */
  function Feed(w: Window, cs: seq<u64>): Window {
    if cs == [] then w
    else
      var v := Feed(w, cs[..|cs| - 1]);
      var c := cs[|cs| - 1];
      if v.Admits(c) then v.Commit(c) else v
  }

  ghost function Committed(cs: seq<u64>): set<u64> {
    FeedSet({}, cs)
  }

  function AfterHistory(cs: seq<u64>): Window {
    Feed(EMPTY, cs)
  }

  /** The window holds exactly `seen`. */
  ghost predicate Represents(w: Window, seen: set<u64>) {
    && w.marks == seen
    && (w.started <==> seen != {})
    && (w.started ==> w.highest in seen && forall s :: s in seen ==> s <= w.highest)
  }

  lemma RepresentsAnswers(w: Window, seen: set<u64>, c: u64)
    requires Represents(w, seen)
    ensures w.Admits(c) <==> Accepts(seen, c)
  {
    if !w.Admits(c) {
      assert w.highest in seen;
    }
  }

  lemma CommitRepresents(w: Window, seen: set<u64>, c: u64)
    requires Represents(w, seen) && w.Admits(c)
    ensures Represents(w.Commit(c), seen + {c})
  {
    if w.started && c <= w.highest {
      assert InRing(w.highest, c);
    }
  }

  /** After any history, whatever the jumps, the ring answers every counter as the set would. */
  lemma {:induction false} RingRefinesSet(cs: seq<u64>)
    ensures Represents(AfterHistory(cs), Committed(cs))
    ensures forall c: u64 :: AfterHistory(cs).Admits(c) <==> Accepts(Committed(cs), c)
  {
    if cs != [] {
      var front, c := cs[..|cs| - 1], cs[|cs| - 1];
      RingRefinesSet(front);
      if AfterHistory(front).Admits(c) {
        CommitRepresents(AfterHistory(front), Committed(front), c);
      }
    }
    forall c: u64 ensures AfterHistory(cs).Admits(c) <==> Accepts(Committed(cs), c) {
      RepresentsAnswers(AfterHistory(cs), Committed(cs), c);
    }
  }

  /** Once committed, a counter is refused by every later window of the history. */
  lemma {:induction false} NeverTwice(cs: seq<u64>, later: seq<u64>, c: u64)
    requires c in Committed(cs)
    ensures c in Committed(cs + later) && !AfterHistory(cs + later).Admits(c)
    decreases |later|
  {
    var all := cs + later;
    if later == [] {
      assert all == cs;
    } else {
      NeverTwice(cs, later[..|later| - 1], c);
      assert all[..|all| - 1] == cs + later[..|later| - 1];
    }
    RingRefinesSet(all);
  }

  // ---- Committing what was not checked -------------------------------------------------------

  /** The ring agrees with `seen` wherever it can still be asked. */
  ghost predicate Agrees(w: Window, seen: set<u64>) {
    && w.started
    && w.highest in seen && w.highest in w.marks
    && (forall s :: s in seen ==> s <= w.highest)
    && (forall m :: m in w.marks ==> m / BITS_PER_WORD <= w.highest / BITS_PER_WORD)
    && (forall c: u64 :: Askable(w.highest, c) ==> (c in w.marks <==> c in seen))
  }

  /** Counters whose bit can decide some later answer. */
  predicate Askable(highest: u64, c: u64) {
    && highest - c <= WINDOW_SIZE
    && c / BITS_PER_WORD <= highest / BITS_PER_WORD
    && c < 0xFFFF_FFFF_FFFF_FFFF
  }

  lemma AgreesAnswers(w: Window, seen: set<u64>, c: u64)
    requires Agrees(w, seen)
    ensures w.Admits(c) <==> Accepts(seen, c)
    ensures w.Admits(c) ==> Agrees(w.Commit(c), seen + {c})
  {
    assert w.highest in seen;
    if c <= w.highest && w.highest - c <= WINDOW_SIZE {
      assert InRing(w.highest, c);
    }
  }

  lemma {:induction false} AgreesForever(w: Window, seen: set<u64>, later: seq<u64>)
    requires Agrees(w, seen)
    ensures Agrees(Feed(w, later), FeedSet(seen, later))
  {
    if later != [] {
      var front := later[..|later| - 1];
      AgreesForever(w, seen, front);
      AgreesAnswers(Feed(w, front), FeedSet(seen, front), later[|later| - 1]);
    }
  }

  /** No run of later packets can tell the ring from the set. */
  ghost predicate Faithful(w: Window, seen: set<u64>) {
    forall later: seq<u64>, x: u64 :: Feed(w, later).Admits(x) <==> Accepts(FeedSet(seen, later), x)
  }

  lemma AgreesIsFaithful(w: Window, seen: set<u64>)
    requires Agrees(w, seen)
    ensures Faithful(w, seen)
  {
    forall later: seq<u64>, x: u64 ensures Feed(w, later).Admits(x) <==> Accepts(FeedSet(seen, later), x) {
      AgreesForever(w, seen, later);
      AgreesAnswers(Feed(w, later), FeedSet(seen, later), x);
    }
  }

  /** Committing a counter `check` refused is harmless exactly when the ring still has its word, or
      the live counter it aliases was seen already or can never be asked about again. */
  lemma UncheckedCommit(w: Window, seen: set<u64>, c: u64)
    requires Represents(w, seen) && w.started && !w.Admits(c)
    ensures Faithful(w.Commit(c), seen + {c})
            <==> (var d := Alias(w.highest, c); InRing(w.highest, c) || d in seen || !Askable(w.highest, d))
  {
    var d := Alias(w.highest, c);
    var v := w.Commit(c);
    if InRing(w.highest, c) || d in seen || !Askable(w.highest, d) {
      assert Agrees(v, seen + {c});
      AgreesIsFaithful(v, seen + {c});
    } else if d <= w.highest {
      var later: seq<u64> := [];
      assert Feed(v, later) == v && FeedSet(seen + {c}, later) == seen + {c};
      assert !v.Admits(d) && Accepts(seen + {c}, d);
    } else {
      var later: seq<u64> := [d + 1];
      assert later[..0] == [];
      assert Feed(v, later) == v.Commit(d + 1);
      assert FeedSet(seen + {c}, later) == seen + {c} + {d + 1};
      assert !Feed(v, later).Admits(d) && Accepts(FeedSet(seen + {c}, later), d);
    }
  }

  /** The documentation calls a stale commit harmless. After 5000 alone, committing 900 makes the
      window refuse 4996, which nothing ever sent. */
  lemma StaleCommitRefusesFreshCounter()
    ensures var w := AfterHistory([5000]);
            && !w.Admits(900)
            && w.Admits(4996)
            && Accepts(Committed([5000]), 4996)
            && !w.Commit(900).Admits(4996)
  {
    var cs := [5000];
    assert cs[..0] == [];
    assert AfterHistory(cs) == EMPTY.Commit(5000);
    RingRefinesSet(cs);
    assert Alias(5000, 900) == 4996;
  }
}
