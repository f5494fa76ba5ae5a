/** Two endpoints and the channel between them: each may do anything in any order, and the channel may
    deliver any segment either has written, at any time, any number of times, or never. */
module Channels {
  import opened Bytes
  import opened Segments
  import opened Endpoints
  import opened Conversations
  import opened Acknowledging
  import opened Writing

  /** What stood behind the acknowledgement of a segment as it was written: the caller's word, nothing
      heard yet, or everything heard up to an unbounded position. */
  datatype Behind = Dictated | Unheard | Upto(furthest: int)

  /** One end. `at` is the unbounded position of its next byte and `places` those of its segments; `guess`
      is what it was told of the peer's numbering, and `heard` the ends it has taken from the peer, in the
      peer's own unbounded positions. */
  datatype End = End(run: Run, at: int, places: seq<int>, behind: seq<Behind>, guess: Option<u32>, heard: seq<int>)

  datatype Net = Net(left: End, right: End)

  datatype Move =
    | Does(byLeft: bool, e: Event)
    | Arrives(atLeft: bool, i: nat)

  /** The furthest of the ends heard. */
  function Furthest(heard: seq<int>): Option<int> {
    if heard == [] then None
    else
      var before, last := Furthest(heard[..|heard| - 1]), heard[|heard| - 1];
      Some(if before.Some? then Max(before.value, last) else last)
  }

  lemma {:induction false} FurthestIsGreatest(heard: seq<int>)
    requires heard != []
    ensures Furthest(heard).Some? && Furthest(heard).value in heard
    ensures forall k :: 0 <= k < |heard| ==> heard[k] <= Furthest(heard).value
  {
    if |heard| > 1 {
      FurthestIsGreatest(heard[..|heard| - 1]);
    } else {
      assert heard[..0] == [];
    }
  }

  function Backing(heard: seq<int>): Behind {
    match Furthest(heard)
    case None => Unheard
    case Some(f) => Upto(f)
  }

  /** Where segment `i` of an end's trace ends. */
  function EndOf(me: End, i: nat): int
    requires i < |me.run.trace| && i < |me.places|
  {
    me.places[i] + Length(me.run.trace[i])
  }

  /** Any operation but an arrival. A segment written is placed where its number stands to the next. */
  function Do(me: End, e: Event): End
    requires !e.Arrival?
  {
    var s, o := me.run.state, Act(me.run.state, e);
    var moved := me.(run := Step(me.run, e), at := me.at + Wrap(NextSeq(o.state) - NextSeq(s)));
    var read := if o.wrote.Ok? then ParseIpv4(o.wrote.value) else None;
    if read.None? then moved
    else moved.(places := me.places + [me.at - Wrap(NextSeq(s) - read.value.seqno)],
                behind := me.behind + [if e.Answer? then Dictated else Backing(me.heard)])
  }

  /** An arrival of a segment that ends at `end`. */
  function Hear(me: End, seg: Segment, end: int): End {
    var s, t := me.run.state, Receive(me.run.state, seg);
    me.(run := Run(t, me.run.trace), at := me.at + Wrap(NextSeq(t) - NextSeq(s)),
        heard := if Counts(s, seg) then me.heard + [end] else me.heard)
  }

  /** The arrivals the acknowledgement can follow: within half the space of the furthest end, and no
      further behind than `AdvanceExact` shows the code to tolerate. A first arrival may be anywhere. */
  predicate Timely(me: End, seg: Segment, end: int) {
    Counts(me.run.state, seg) && Furthest(me.heard).Some? ==>
      var f := Furthest(me.heard).value;
      f - Tolerance(me.run.state) <= end < f + 0x8000_0000
  }

  function Moved(net: Net, m: Move): Net {
    match m
    case Does(true, e) => if e.Arrival? then net else net.(left := Do(net.left, e))
    case Does(false, e) => if e.Arrival? then net else net.(right := Do(net.right, e))
    case Arrives(true, i) =>
      if HasSent(net.right, i) then net.(left := Hear(net.left, net.right.run.trace[i], EndOf(net.right, i))) else net
    case Arrives(false, i) =>
      if HasSent(net.left, i) then net.(right := Hear(net.right, net.left.run.trace[i], EndOf(net.left, i))) else net
  }

  predicate HasSent(from: End, i: nat) {
    i < |from.run.trace| && i < |from.places|
  }

  function AfterMoves(net: Net, ms: seq<Move>): Net {
    if ms == [] then net else Moved(AfterMoves(net, ms[..|ms| - 1]), ms[|ms| - 1])
  }

  /** What arrives, arrives in time; nothing else is asked of either end or of the channel. */
  predicate InTime(net: Net, m: Move) {
    match m
    case Does(_, _) => true
    case Arrives(true, i) => HasSent(net.right, i) ==> Timely(net.left, net.right.run.trace[i], EndOf(net.right, i))
    case Arrives(false, i) => HasSent(net.left, i) ==> Timely(net.right, net.left.run.trace[i], EndOf(net.left, i))
  }

  predicate AllInTime(net: Net, ms: seq<Move>) {
    ms == [] || (AllInTime(net, ms[..|ms| - 1]) && InTime(AfterMoves(net, ms[..|ms| - 1]), ms[|ms| - 1]))
  }

  /** What an endpoint is created from. */
  datatype Setup = Setup(cfg: Config, remote: Addr, isn: u32, peerIsn: u32, tsBase: u32, mss: Option<u16>)

  function Fresh(p: Setup): End {
    var s := New(p.cfg, p.remote, p.isn, p.peerIsn, p.tsBase, p.mss);
    End(Run(s, []), p.isn, [], [], s.peerNext, [])
  }

  // ---- What an end has sent ------------------------------------------------------------------

  /** How far an end's stream reaches: its next byte, and a SYN's own while that is still to be counted. */
  function Reach(me: End): int {
    me.at + if me.run.state.synCounted then 0 else 1
  }

  predicate PlacedAt(me: End, i: nat)
    requires i < |me.run.trace| && i < |me.places|
  {
    && Ordinary(me.run.trace[i])
    && Wrap(me.places[i]) == me.run.trace[i].seqno
    && EndOf(me, i) <= Reach(me)
  }

  /** Every segment has an unbounded place its number is the residue of, and none reaches past the stream. */
  ghost predicate Placed(me: End) {
    && Orderly(me.run.state)
    && Wrap(me.at) == NextSeq(me.run.state)
    && |me.places| == |me.behind| == |me.run.trace|
    && forall i :: 0 <= i < |me.places| ==> PlacedAt(me, i)
  }

  // ---- What an end has heard -----------------------------------------------------------------

  /** What the acknowledgement of segment `i` says: nothing but the guess before anything was heard, and
      then the furthest end heard by that time. */
  predicate SaysAt(me: End, i: nat)
    requires i < |me.run.trace| && i < |me.behind|
  {
    me.run.trace[i].Has(ACK) ==>
      match me.behind[i]
      case Dictated => true
      case Unheard => me.run.trace[i].ack == me.guess.GetOr(0)
      case Upto(f) => me.run.trace[i].ack == Wrap(f)
  }

  /** `b` claims no more than `c` does. */
  predicate NoFurther(b: Behind, c: Behind) {
    match b
    case Upto(f) => c.Upto? && f <= c.furthest
    case _ => true
  }

  /** Acknowledgements never move back along the trace, and none is ahead of what is heard now. */
  predicate OrderedAt(me: End, i: nat)
    requires i < |me.behind|
  {
    && NoFurther(me.behind[i], Backing(me.heard))
    && forall j :: i <= j < |me.behind| && !me.behind[j].Dictated? ==> NoFurther(me.behind[i], me.behind[j])
  }

  /** `end` is where some segment the peer wrote ends. */
  ghost predicate Sent(from: End, end: int) {
    exists i :: 0 <= i < |from.places| && i < |from.run.trace| && EndOf(from, i) == end
  }

  /** Where the acknowledgement stands. */
  predicate Stands(me: End) {
    match Furthest(me.heard)
    case None => me.run.state.peerNext == me.guess && me.run.state.relearn
    case Some(f) => me.run.state.peerNext == Some(Wrap(f))
  }

  ghost predicate Hears(from: End, to: End) {
    && |to.behind| == |to.run.trace|
    && Stands(to)
    && (forall i :: 0 <= i < |to.behind| ==> SaysAt(to, i))
    && (forall i :: 0 <= i < |to.behind| ==> OrderedAt(to, i))
    && (forall k :: 0 <= k < |to.heard| ==> Sent(from, to.heard[k]))
  }

  // ---- Steps ---------------------------------------------------------------------------------

  /** Moving a position by the wrapped difference of its residues lands on the new residue. */
  lemma MovesTo(at: int, from: u32, to: u32)
    requires Wrap(at) == from
    ensures Wrap(at + Wrap(to - from)) == to
  {
  }

  lemma PlaceOf(at: int, next: u32, seqno: u32)
    requires Wrap(at) == next
    ensures Wrap(at - Wrap(next - seqno)) == seqno
  {
  }

  lemma DoPlaces(me: End, e: Event)
    requires Placed(me) && !e.Arrival?
    ensures Placed(Do(me, e))
  {
    hide Act, ParseIpv4, Written, NextSeq, Orderly, Length, Ordinary, Wrap;
    var s, o, you := me.run.state, Act(me.run.state, e), Do(me, e);
    MovesTo(me.at, NextSeq(s), NextSeq(o.state));
    if o.wrote.Ok? {
      ActWrites(s, e);
      var seg := ParseIpv4(o.wrote.value).value;
      WrittenPlaced(s, e, seg, o.state, me.at);
      PlaceOf(me.at, NextSeq(s), seg.seqno);
      forall i | 0 <= i < |you.places| ensures PlacedAt(you, i) {
        if i < |me.places| {
          assert PlacedAt(me, i);
        }
      }
    } else {
      ActQuiet(s, e);
      NotBack(NextSeq(o.state) - NextSeq(s));
      forall i | 0 <= i < |you.places| ensures PlacedAt(you, i) {
        assert PlacedAt(me, i);
      }
    }
  }

  lemma NotBack(n: int)
    ensures Wrap(n) >= 0
  {
  }

  /** What is written fits the stream as it then stands, and the stream does not shrink. */
  lemma WrittenPlaced(s: State, e: Event, seg: Segment, t: State, at: int)
    requires Written(s, e, seg, t)
    ensures Orderly(t) && Ordinary(seg) && t.synCounted == s.synCounted
    ensures var place, moved := at - Wrap(NextSeq(s) - seg.seqno), at + Wrap(NextSeq(t) - NextSeq(s));
            moved >= at && place + Length(seg) <= moved + if s.synCounted then 0 else 1
  {
    hide NextSeq, Orderly, Segment.Has, NextAck, IsReady;
    if seg.Has(SYN) {
      OneBelow(NextSeq(s));
    } else {
      Ahead(NextSeq(s), Length(seg));
    }
  }

  lemma OneBelow(n: u32)
    ensures Wrap(n - Wrap(n - 1)) == 1 && Wrap(n - n) == 0
  {
  }

  lemma Ahead(n: u32, len: nat)
    requires len <= 0x1_0001
    ensures Wrap(Wrap(n + len) - n) == len && Wrap(n - n) == 0
  {
    SerialDistance(n + len, n);
  }

  lemma HearPlaces(me: End, seg: Segment, end: int)
    requires Placed(me)
    ensures Placed(Hear(me, seg, end))
  {
    hide Receive, NextSeq, Orderly, Length, Ordinary, Counts, Wrap;
    var s, t, you := me.run.state, Receive(me.run.state, seg), Hear(me, seg, end);
    MovesTo(me.at, NextSeq(s), NextSeq(t));
    ReceiveOrderly(s, seg);
    SmallMoves(NextSeq(s));
    forall i | 0 <= i < |you.places| ensures PlacedAt(you, i) {
      assert PlacedAt(me, i);
    }
  }

  lemma SmallMoves(n: u32)
    ensures Wrap(n - n) == 0 && Wrap(Wrap(n + 1) - n) == 1
  {
    SerialDistance(n + 1, n);
  }

  /** An operation says what is heard, and hears nothing. */
  lemma DoHears(from: End, to: End, e: Event)
    requires Hears(from, to) && Placed(to) && !e.Arrival?
    ensures Hears(from, Do(to, e))
  {
    hide Act, ParseIpv4, Written, NextSeq, Orderly, Sent, Wrap, Furthest, PlacedAt, OrderedAt, SaysAt, Segment.Has;
    var s, o, you := to.run.state, Act(to.run.state, e), Do(to, e);
    if o.wrote.Ok? {
      ActWrites(s, e);
      var seg := ParseIpv4(o.wrote.value).value;
      WrittenSays(s, e, seg, o.state);
      NextAckIs(s);
      SaysMore(to, you, seg);
      OrderedMore(to, you);
    } else {
      ActQuiet(s, e);
      SaysStill(to, you);
      OrderedStill(to, you);
    }
  }

  lemma WrittenSays(s: State, e: Event, seg: Segment, t: State)
    requires Written(s, e, seg, t)
    ensures seg.Has(ACK) && !e.Answer? ==> seg.ack == NextAck(s).GetOr(0)
    ensures t.peerNext == s.peerNext && t.relearn == s.relearn
  {
    hide NextSeq, NextAck, Orderly, Segment.Has, Ordinary, Length;
  }

  lemma NextAckIs(s: State)
    requires Orderly(s)
    ensures NextAck(s) == s.peerNext
  {
  }

  lemma SaysStill(me: End, you: End)
    requires you.run.trace == me.run.trace && you.behind == me.behind && you.guess == me.guess && |me.behind| == |me.run.trace|
    requires forall i :: 0 <= i < |me.behind| ==> SaysAt(me, i)
    ensures forall i :: 0 <= i < |you.behind| ==> SaysAt(you, i)
  {
    hide Segment.Has, Wrap;
    forall i | 0 <= i < |you.behind| ensures SaysAt(you, i) {
      assert SaysAt(me, i);
    }
  }

  lemma SaysMore(me: End, you: End, seg: Segment)
    requires |me.behind| == |me.run.trace| && you.run.trace == me.run.trace + [seg] && you.guess == me.guess && Stands(me)
    requires |you.behind| == |me.behind| + 1 && you.behind[..|me.behind|] == me.behind
    requires you.behind[|me.behind|] == Dictated
             || (you.behind[|me.behind|] == Backing(me.heard) && (seg.Has(ACK) ==> seg.ack == me.run.state.peerNext.GetOr(0)))
    requires forall i :: 0 <= i < |me.behind| ==> SaysAt(me, i)
    ensures forall i :: 0 <= i < |you.behind| ==> SaysAt(you, i)
  {
    hide Segment.Has, Wrap, Furthest;
    forall i | 0 <= i < |you.behind| ensures SaysAt(you, i) {
      if i < |me.behind| {
        assert SaysAt(me, i);
        assert you.behind[i] == you.behind[..|me.behind|][i];
      }
    }
  }

  lemma OrderedStill(me: End, you: End)
    requires you.behind == me.behind && you.heard == me.heard
    requires forall i :: 0 <= i < |me.behind| ==> OrderedAt(me, i)
    ensures forall i :: 0 <= i < |you.behind| ==> OrderedAt(you, i)
  {
    hide NoFurther, Furthest;
    forall i | 0 <= i < |you.behind| ensures OrderedAt(you, i) {
      assert OrderedAt(me, i);
    }
  }

  lemma OrderedMore(me: End, you: End)
    requires you.heard == me.heard && |you.behind| == |me.behind| + 1 && you.behind[..|me.behind|] == me.behind
    requires you.behind[|me.behind|] == Dictated || you.behind[|me.behind|] == Backing(me.heard)
    requires forall i :: 0 <= i < |me.behind| ==> OrderedAt(me, i)
    ensures forall i :: 0 <= i < |you.behind| ==> OrderedAt(you, i)
  {
    hide Furthest;
    var n := |me.behind|;
    forall i | 0 <= i < |you.behind| ensures OrderedAt(you, i) {
      assert forall j :: 0 <= j < n ==> you.behind[j] == you.behind[..n][j];
      if i < n {
        assert OrderedAt(me, i);
      }
    }
  }

  /** An arrival moves the acknowledgement to the furthest end heard, and none of what was said before is
      then ahead of it. */
  lemma HearHears(from: End, to: End, i: nat)
    requires Hears(from, to) && i < |from.run.trace| && i < |from.places| && PlacedAt(from, i)
    requires Timely(to, from.run.trace[i], EndOf(from, i))
    ensures Hears(from, Hear(to, from.run.trace[i], EndOf(from, i)))
  {
    hide Receive, NextSeq, Orderly, Sent, Wrap, Furthest, OrderedAt, SaysAt, Counts, Length, Ordinary;
    var seg, end := from.run.trace[i], EndOf(from, i);
    var you := Hear(to, seg, end);
    HearStands(to, seg, from.places[i]);
    SaysStill(to, you);
    HeardOrdered(to, you, seg, end);
    forall k | 0 <= k < |you.heard| ensures Sent(from, you.heard[k]) {
      if k < |to.heard| {
        assert Sent(from, to.heard[k]);
      } else {
        SentAt(from, i);
      }
    }
  }

  lemma SentAt(from: End, i: nat)
    requires i < |from.run.trace| && i < |from.places|
    ensures Sent(from, EndOf(from, i))
  {
  }

  lemma HeardOrdered(me: End, you: End, seg: Segment, end: int)
    requires you.behind == me.behind && you.heard == if Counts(me.run.state, seg) then me.heard + [end] else me.heard
    requires forall i :: 0 <= i < |me.behind| ==> OrderedAt(me, i)
    ensures forall i :: 0 <= i < |you.behind| ==> OrderedAt(you, i)
  {
    hide Counts, Furthest;
    FurthestGrows(me.heard, end);
    forall i | 0 <= i < |you.behind| ensures OrderedAt(you, i) {
      assert OrderedAt(me, i);
    }
  }

  lemma FurthestGrows(heard: seq<int>, end: int)
    ensures var f := Furthest(heard);
            Furthest(heard + [end]) == Some(if f.Some? then Max(f.value, end) else end)
  {
    assert (heard + [end])[..|heard|] == heard;
  }

  /** The heart of it: one arrival against the unbounded positions. */
  lemma HearStands(me: End, seg: Segment, start: int)
    requires Stands(me) && Ordinary(seg) && seg.seqno == Wrap(start)
    requires Timely(me, seg, start + Length(seg))
    ensures Stands(Hear(me, seg, start + Length(seg)))
  {
    hide Receive, NextSeq, Wrap, Furthest, Counts, Length, Ordinary, Advance;
    var s, end := me.run.state, start + Length(seg);
    ReceiveMoves(s, seg, start);
    FurthestGrows(me.heard, end);
    if Counts(s, seg) && s.peerNext.Some? {
      match Furthest(me.heard)
      case None => AdvanceRelearns(s, end);
      case Some(f) => AdvanceExact(s, f, end);
    }
  }

  /** What the peer writes or hears later does not unsay what it sent. */
  lemma PeerMoves(from: End, from': End, to: End)
    requires Hears(from, to)
    requires |from'.places| >= |from.places| && from'.places[..|from.places|] == from.places
    requires |from'.run.trace| >= |from.run.trace| && from'.run.trace[..|from.run.trace|] == from.run.trace
    ensures Hears(from', to)
  {
    hide SaysAt, OrderedAt, Furthest, Length, Stands;
    forall k | 0 <= k < |to.heard| ensures Sent(from', to.heard[k]) {
      assert Sent(from, to.heard[k]);
      var i :| 0 <= i < |from.places| && i < |from.run.trace| && EndOf(from, i) == to.heard[k];
      assert from'.places[i] == from'.places[..|from.places|][i];
      assert from'.run.trace[i] == from'.run.trace[..|from.run.trace|][i];
      assert EndOf(from', i) == to.heard[k];
    }
  }

  lemma DoGrows(me: End, e: Event)
    requires !e.Arrival?
    ensures var you := Do(me, e);
            && |you.places| >= |me.places| && you.places[..|me.places|] == me.places
            && |you.run.trace| >= |me.run.trace| && you.run.trace[..|me.run.trace|] == me.run.trace
  {
    hide Act, ParseIpv4, NextSeq, Wrap;
  }

  lemma HearGrows(me: End, seg: Segment, end: int)
    ensures var you := Hear(me, seg, end); you.places == me.places && you.run.trace == me.run.trace
  {
    hide Receive, Counts, NextSeq, Wrap;
  }

  /** What holds of two ends at every moment. */
  ghost predicate InTouch(net: Net) {
    Placed(net.left) && Placed(net.right) && Hears(net.left, net.right) && Hears(net.right, net.left)
  }

  lemma OneDoes(me: End, peer: End, e: Event)
    requires Placed(me) && Hears(peer, me) && Hears(me, peer) && !e.Arrival?
    ensures Placed(Do(me, e)) && Hears(peer, Do(me, e)) && Hears(Do(me, e), peer)
  {
    hide Placed, Hears, Do;
    DoPlaces(me, e);
    DoHears(peer, me, e);
    DoGrows(me, e);
    PeerMoves(me, Do(me, e), peer);
  }

  lemma PlacedIs(me: End, i: nat)
    requires Placed(me) && i < |me.places|
    ensures |me.run.trace| == |me.places| && PlacedAt(me, i)
  {
    hide PlacedAt, Orderly;
  }

  lemma OneHears(me: End, peer: End, i: nat)
    requires Placed(me) && Placed(peer) && Hears(peer, me) && Hears(me, peer)
    requires i < |peer.run.trace| && i < |peer.places| && Timely(me, peer.run.trace[i], EndOf(peer, i))
    ensures var you := Hear(me, peer.run.trace[i], EndOf(peer, i));
            Placed(you) && Hears(peer, you) && Hears(you, peer)
  {
    hide Placed, Hears, Hear, PlacedAt;
    PlacedIs(peer, i);
    HearPlaces(me, peer.run.trace[i], EndOf(peer, i));
    HearHears(peer, me, i);
    HearGrows(me, peer.run.trace[i], EndOf(peer, i));
    assert me.places[..|me.places|] == me.places && me.run.trace[..|me.run.trace|] == me.run.trace;
    PeerMoves(me, Hear(me, peer.run.trace[i], EndOf(peer, i)), peer);
  }

  lemma MoveKeeps(net: Net, m: Move)
    requires InTouch(net) && InTime(net, m)
    ensures InTouch(Moved(net, m))
  {
    hide Placed, Hears, Do, Hear, Timely, EndOf;
    match m
    case Does(true, e) => if !e.Arrival? { OneDoes(net.left, net.right, e); }
    case Does(false, e) => if !e.Arrival? { OneDoes(net.right, net.left, e); }
    case Arrives(true, i) => if HasSent(net.right, i) { OneHears(net.left, net.right, i); }
    case Arrives(false, i) => if HasSent(net.left, i) { OneHears(net.right, net.left, i); }
  }

  lemma FreshInTouch(l: Setup, r: Setup)
    requires l.cfg.sequencing.Stream? && r.cfg.sequencing.Stream?
    ensures InTouch(Net(Fresh(l), Fresh(r)))
  {
  }

  /** From any such moment on, over every run of the two ends and the channel. */
  lemma {:induction false} EveryExchangeFrom(start: Net, ms: seq<Move>)
    requires InTouch(start) && AllInTime(start, ms)
    ensures InTouch(AfterMoves(start, ms))
  {
    if ms != [] {
      hide InTouch, InTime, Moved;
      EveryExchangeFrom(start, ms[..|ms| - 1]);
      MoveKeeps(AfterMoves(start, ms[..|ms| - 1]), ms[|ms| - 1]);
    }
  }

  /** From any two endpoints, SYNs, SYN+ACKs, pure ACKs, closes and moves included: the invariants above, at
      both ends. */
  lemma EveryExchange(l: Setup, r: Setup, ms: seq<Move>)
    requires l.cfg.sequencing.Stream? && r.cfg.sequencing.Stream?
    requires AllInTime(Net(Fresh(l), Fresh(r)), ms)
    ensures InTouch(AfterMoves(Net(Fresh(l), Fresh(r)), ms))
  {
    hide InTouch, AllInTime, Fresh;
    FreshInTouch(l, r);
    EveryExchangeFrom(Net(Fresh(l), Fresh(r)), ms);
  }

  /** The positions are those of the stream: but for a renumbering before the SYN, an operation moves an end
      on by what it wrote, and an arrival by at most the byte of its own SYN, once. */
  lemma PositionsCount(me: End, e: Event)
    requires Placed(me) && !e.Arrival? && !e.Number?
    ensures var you, n := Do(me, e), |me.places|;
            if |you.places| == n then you.at == me.at
            else |you.places| == n + 1 && |you.run.trace| == n + 1
                 && var seg := you.run.trace[n];
                    if seg.Has(SYN) then you.at == me.at && (you.places[n] == me.at - 1 || you.places[n] == me.at)
                    else you.at == me.at + Length(seg) && you.places[n] == me.at
  {
    hide Act, ParseIpv4, Written, NextSeq, Orderly, Length, Ordinary, Wrap, Segment.Has, PlacedAt;
    var s, o := me.run.state, Act(me.run.state, e);
    if o.wrote.Ok? {
      ActWrites(s, e);
      WrittenCounts(s, e, ParseIpv4(o.wrote.value).value, o.state, me.at);
    } else {
      ActQuiet(s, e);
      SmallMoves(NextSeq(s));
    }
  }

  lemma WrittenCounts(s: State, e: Event, seg: Segment, t: State, at: int)
    requires Written(s, e, seg, t)
    ensures var place, moved := at - Wrap(NextSeq(s) - seg.seqno), at + Wrap(NextSeq(t) - NextSeq(s));
            if seg.Has(SYN) then moved == at && (place == at - 1 || place == at)
            else moved == at + Length(seg) && place == at
  {
    hide NextSeq, Orderly, Segment.Has, NextAck, IsReady;
    if seg.Has(SYN) {
      OneBelow(NextSeq(s));
    } else {
      Ahead(NextSeq(s), Length(seg));
    }
  }

  // ---- A responder that answered without remembering ------------------------------------------

  /** The answering end as the client knows it before anything is taken up: one SYN+ACK, composed from a SYN
      and forgotten. */
  function Stub(s: State, answer: Segment): End {
    End(Run(s, [answer]), answer.seqno + 1, [answer.seqno], [Dictated], None, [])
  }

  /** All the client has heard is that SYN+ACK. */
  predicate OnlyAnswered(me: End, isn: u32) {
    && (forall k :: 0 <= k < |me.heard| ==> me.heard[k] == isn + 1)
    && (forall i :: 0 <= i < |me.behind| && me.behind[i].Upto? ==> me.behind[i].furthest == isn + 1)
  }

  predicate ByClient(m: Move) {
    if m.Does? then m.byLeft else m.atLeft
  }

  lemma StubPlaced(s: State, answer: Segment)
    requires Ordinary(answer) && answer.Has(SYN)
    ensures PlacedAt(Stub(s, answer), 0) && EndOf(Stub(s, answer), 0) == answer.seqno + 1
  {
  }

  lemma FurthestOfSame(heard: seq<int>, end: int)
    requires heard != [] && forall k :: 0 <= k < |heard| ==> heard[k] == end
    ensures Furthest(heard) == Some(end)
  {
    FurthestIsGreatest(heard);
  }

  lemma DoOnly(me: End, e: Event, isn: u32)
    requires OnlyAnswered(me, isn) && !e.Arrival?
    ensures OnlyAnswered(Do(me, e), isn)
  {
    hide Act, ParseIpv4, NextSeq, Wrap, Furthest;
    if me.heard != [] {
      FurthestOfSame(me.heard, isn + 1);
    } else {
      NothingFurthest();
    }
  }

  lemma NothingFurthest()
    ensures Furthest([]) == None
  {
  }

  /** A client opening against it, in any order of sending, losing and hearing it again. */
  lemma {:induction false} OpeningKeeps(me: End, s: State, answer: Segment, ms: seq<Move>)
    requires Placed(me) && Hears(Stub(s, answer), me) && OnlyAnswered(me, answer.seqno)
    requires Ordinary(answer) && answer.Has(SYN)
    requires AllInTime(Net(me, Stub(s, answer)), ms) && forall k :: 0 <= k < |ms| ==> ByClient(ms[k])
    ensures var net := AfterMoves(Net(me, Stub(s, answer)), ms);
            && net.right == Stub(s, answer)
            && Placed(net.left) && Hears(Stub(s, answer), net.left) && OnlyAnswered(net.left, answer.seqno)
  {
    if ms != [] {
      hide Placed, Hears, OnlyAnswered, Do, Hear, Stub, PlacedAt, EndOf, Ordinary, Segment.Has, Timely;
      OpeningKeeps(me, s, answer, ms[..|ms| - 1]);
      OpeningStep(AfterMoves(Net(me, Stub(s, answer)), ms[..|ms| - 1]), s, answer, ms[|ms| - 1]);
    }
  }

  lemma OpeningStep(net: Net, s: State, answer: Segment, m: Move)
    requires net.right == Stub(s, answer) && Placed(net.left) && Hears(Stub(s, answer), net.left)
    requires OnlyAnswered(net.left, answer.seqno) && Ordinary(answer) && answer.Has(SYN)
    requires InTime(net, m) && ByClient(m)
    ensures var you := Moved(net, m);
            && you.right == Stub(s, answer)
            && Placed(you.left) && Hears(Stub(s, answer), you.left) && OnlyAnswered(you.left, answer.seqno)
  {
    hide Placed, Hears, OnlyAnswered, Do, Hear, PlacedAt, Ordinary, Segment.Has, Timely, Length;
    match m
    case Does(_, e) =>
      if !e.Arrival? {
        DoPlaces(net.left, e);
        DoHears(Stub(s, answer), net.left, e);
        DoOnly(net.left, e, answer.seqno);
      }
    case Arrives(_, i) =>
      if HasSent(net.right, i) {
        StubPlaced(s, answer);
        HearPlaces(net.left, answer, EndOf(net.right, 0));
        HearHears(net.right, net.left, 0);
        HearOnly(net.left, answer, answer.seqno);
      }
  }

  lemma HearOnly(me: End, answer: Segment, isn: u32)
    requires OnlyAnswered(me, isn)
    ensures OnlyAnswered(Hear(me, answer, isn + 1), isn)
  {
    hide Receive, Counts, NextSeq, Wrap;
  }

  /** The end that takes the connection up from segment `i` of the client's, out of any state it was in. */
  function TakenUp(client: End, i: nat, s: State, answer: Segment, clock: u32): End
    requires HasSent(client, i)
  {
    End(Run(Rejoin(s, client.run.trace[i], clock), [answer]), answer.seqno + 1, [answer.seqno], [Dictated], None, [EndOf(client, i)])
  }

  /** Taken up from any segment the client acknowledged the SYN+ACK in, however many before it were lost, the
      connection is as if the responder had remembered. */
  lemma TakenUpInTouch(client: End, i: nat, s: State, answer: Segment, clock: u32)
    requires Placed(client) && Hears(Stub(s, answer), client) && OnlyAnswered(client, answer.seqno)
    requires Ordinary(answer) && answer.Has(SYN) && s.cfg.sequencing.Stream?
    requires HasSent(client, i) && i < |client.behind| && client.behind[i].Upto?
    requires client.run.trace[i].Has(ACK) && !client.run.trace[i].Has(SYN)
    ensures InTouch(Net(client, TakenUp(client, i, s, answer, clock)))
  {
    hide Placed, Hears, TakenUp, OnlyAnswered, Segment.Has, Ordinary;
    TakenUpPlaced(client, i, s, answer, clock);
    TakenUpHears(client, i, s, answer, clock);
    TakenUpHeard(client, i, s, answer, clock);
  }

  lemma TakenUpPlaced(client: End, i: nat, s: State, answer: Segment, clock: u32)
    requires Placed(client) && Hears(Stub(s, answer), client) && OnlyAnswered(client, answer.seqno)
    requires Ordinary(answer) && answer.Has(SYN) && s.cfg.sequencing.Stream?
    requires HasSent(client, i) && i < |client.behind| && client.behind[i].Upto?
    requires client.run.trace[i].Has(ACK) && !client.run.trace[i].Has(SYN)
    ensures Placed(TakenUp(client, i, s, answer, clock))
  {
    hide Segment.Has, NextSeq, Occupied, Ordinary, Wrap, Rejoin, Length;
    assert SaysAt(client, i) && PlacedAt(client, i);
    RejoinStands(s, client.run.trace[i], clock, client.places[i]);
    StubPlaced(s, answer);
    RejoinCounts(s, client.run.trace[i], clock);
    AnswerLength(answer);
    assert PlacedAt(TakenUp(client, i, s, answer, clock), 0);
  }

  lemma RejoinCounts(s: State, seg: Segment, clock: u32)
    ensures Rejoin(s, seg, clock).synCounted
  {
  }

  lemma TakenUpHears(client: End, i: nat, s: State, answer: Segment, clock: u32)
    requires Placed(client) && HasSent(client, i) && s.cfg.sequencing.Stream? && !client.run.trace[i].Has(SYN)
    ensures Hears(client, TakenUp(client, i, s, answer, clock))
  {
    hide Segment.Has, NextSeq, Occupied, Ordinary, Wrap, Rejoin, Length, Orderly;
    assert PlacedAt(client, i);
    RejoinStands(s, client.run.trace[i], clock, client.places[i]);
    FurthestOfSame([EndOf(client, i)], EndOf(client, i));
    SentAt(client, i);
  }

  lemma TakenUpHeard(client: End, i: nat, s: State, answer: Segment, clock: u32)
    requires HasSent(client, i) && Hears(Stub(s, answer), client)
    ensures Hears(TakenUp(client, i, s, answer, clock), client)
  {
    hide Rejoin, Hears;
    var stub, you := Stub(s, answer), TakenUp(client, i, s, answer, clock);
    assert stub.places[..1] == stub.places && stub.run.trace[..1] == stub.run.trace;
    PeerMoves(stub, you, client);
  }

  lemma RejoinStands(s: State, seg: Segment, clock: u32, start: int)
    requires s.cfg.sequencing.Stream? && Ordinary(seg) && !seg.Has(SYN) && seg.seqno == Wrap(start)
    ensures var t := Rejoin(s, seg, clock);
            Orderly(t) && NextSeq(t) == seg.ack && t.peerNext == Some(Wrap(start + Length(seg)))
  {
    OccupiedIs(seg);
    EndWraps(start, Length(seg));
    WrapMore(seg.ack - s.sent, s.sent);
  }

  /** The whole of it: a client opens against a SYN+ACK nothing remembers, a responder takes the connection up
      from whichever of its segments arrives, and from then on over every run each acknowledges the furthest
      it has heard of the other and no more than the other has sent. */
  lemma StatelessExchange(l: Setup, s: State, answer: Segment, before: seq<Move>, i: nat, clock: u32, after: seq<Move>)
    requires l.cfg.sequencing.Stream? && s.cfg.sequencing.Stream? && Ordinary(answer) && answer.Has(SYN)
    requires AllInTime(Net(Fresh(l), Stub(s, answer)), before) && forall k :: 0 <= k < |before| ==> ByClient(before[k])
    requires var client := AfterMoves(Net(Fresh(l), Stub(s, answer)), before).left;
             && HasSent(client, i) && i < |client.behind| && client.behind[i].Upto?
             && client.run.trace[i].Has(ACK) && !client.run.trace[i].Has(SYN)
             && AllInTime(Net(client, TakenUp(client, i, s, answer, clock)), after)
    ensures var client := AfterMoves(Net(Fresh(l), Stub(s, answer)), before).left;
            && client.run.trace[i].ack == Wrap(answer.seqno + 1)
            && InTouch(AfterMoves(Net(client, TakenUp(client, i, s, answer, clock)), after))
  {
    hide InTouch, AllInTime, AfterMoves, TakenUp, Segment.Has, Ordinary, NextSeq, Orderly;
    FreshAnswered(l, s, answer);
    OpeningKeeps(Fresh(l), s, answer, before);
    var client := AfterMoves(Net(Fresh(l), Stub(s, answer)), before).left;
    assert SaysAt(client, i);
    TakenUpInTouch(client, i, s, answer, clock);
    EveryExchangeFrom(Net(client, TakenUp(client, i, s, answer, clock)), after);
  }

  lemma FreshAnswered(l: Setup, s: State, answer: Segment)
    requires l.cfg.sequencing.Stream?
    ensures Placed(Fresh(l)) && Hears(Stub(s, answer), Fresh(l)) && OnlyAnswered(Fresh(l), answer.seqno)
  {
  }

  function Ours(net: Net, atLeft: bool): End { if atLeft then net.left else net.right }

  /** What that says of the wire, at either end and at every moment of every run. Of any two segments that
      acknowledge, the later claims no less than the earlier; each claims the furthest end heard when it was
      written, mod 2^32; and what is heard is where some segment the peer wrote ends, and no further than
      the peer's stream then reaches. */
  lemma AcknowledgementsOnTheWire(l: Setup, r: Setup, ms: seq<Move>, atLeft: bool, i: nat, j: nat)
    requires l.cfg.sequencing.Stream? && r.cfg.sequencing.Stream?
    requires AllInTime(Net(Fresh(l), Fresh(r)), ms)
    requires var me := Ours(AfterMoves(Net(Fresh(l), Fresh(r)), ms), atLeft);
             && i <= j < |me.run.trace| && j < |me.behind|
             && me.run.trace[i].Has(ACK) && me.behind[i].Upto?
             && me.run.trace[j].Has(ACK) && !me.behind[j].Dictated?
    ensures var net := AfterMoves(Net(Fresh(l), Fresh(r)), ms);
            var me, peer := Ours(net, atLeft), Ours(net, !atLeft);
            && me.behind[j].Upto? && Furthest(me.heard).Some?
            && me.run.trace[i].ack == Wrap(me.behind[i].furthest) && me.run.trace[j].ack == Wrap(me.behind[j].furthest)
            && me.behind[i].furthest <= me.behind[j].furthest <= Furthest(me.heard).value
            && Sent(peer, Furthest(me.heard).value) && Furthest(me.heard).value <= Reach(peer)
  {
    hide Moved, Fresh, AllInTime, AfterMoves, Segment.Has, Furthest, PlacedAt, Orderly, NextSeq, Stands;
    EveryExchange(l, r, ms);
    var net := AfterMoves(Net(Fresh(l), Fresh(r)), ms);
    var me, peer := Ours(net, atLeft), Ours(net, !atLeft);
    assert SaysAt(me, i) && SaysAt(me, j) && OrderedAt(me, i) && OrderedAt(me, j);
    NeverPasses(peer, me);
  }

  /** The next segment an end writes, whatever the run before it: its acknowledgement is the furthest end
      heard so far, which the peer's stream had reached, or, with nothing heard, the guess. */
  lemma NextAcknowledgement(l: Setup, r: Setup, ms: seq<Move>, atLeft: bool, e: Event)
    requires l.cfg.sequencing.Stream? && r.cfg.sequencing.Stream?
    requires AllInTime(Net(Fresh(l), Fresh(r)), ms) && !e.Arrival? && !e.Answer?
    requires Act(Ours(AfterMoves(Net(Fresh(l), Fresh(r)), ms), atLeft).run.state, e).wrote.Ok?
    ensures var net := AfterMoves(Net(Fresh(l), Fresh(r)), ms);
            var me, peer := Ours(net, atLeft), Ours(net, !atLeft);
            var read := ParseIpv4(Act(me.run.state, e).wrote.value);
            && read.Some?
            && (read.value.Has(ACK) ==>
                  match Furthest(me.heard)
                  case None => read.value.ack == me.guess.GetOr(0)
                  case Some(f) => read.value.ack == Wrap(f) && Sent(peer, f) && f <= Reach(peer))
  {
    hide Moved, Fresh, AllInTime, AfterMoves, Segment.Has, Furthest, PlacedAt, Orderly, NextSeq, Written, Act, ParseIpv4, Wrap;
    EveryExchange(l, r, ms);
    var net := AfterMoves(Net(Fresh(l), Fresh(r)), ms);
    var me, peer := Ours(net, atLeft), Ours(net, !atLeft);
    var s := me.run.state;
    ActWrites(s, e);
    WrittenSays(s, e, ParseIpv4(Act(s, e).wrote.value).value, Act(s, e).state);
    NextAckIs(s);
    if Furthest(me.heard).Some? {
      NeverPasses(peer, me);
    }
  }

  /** A SYN+ACK for show, acknowledging the first byte of a segment heard, as the responder of a fake handshake
      sends it: no further than what is heard. */
  lemma AnswerStaysBehind(peer: End, me: End, i: nat, room: nat, now: u64)
    requires Placed(peer) && Placed(me) && Hears(peer, me) && HasSent(peer, i) && EndOf(peer, i) in me.heard
    requires Act(me.run.state, Answer(peer.run.trace[i].seqno, room, now)).wrote.Ok?
    ensures var read := ParseIpv4(Act(me.run.state, Answer(peer.run.trace[i].seqno, room, now)).wrote.value);
            && read.Some? && read.value.ack == Wrap(peer.places[i])
            && Furthest(me.heard).Some? && peer.places[i] <= Furthest(me.heard).value <= Reach(peer)
  {
    hide ParseIpv4, Emitted, NextSeq, NextAck, Timestamp, Wrap, Ordinary, Length, Orderly, Furthest, Stands, SaysAt, OrderedAt, Sent;
    var s, ack := me.run.state, peer.run.trace[i].seqno;
    var f := FieldsOf(s, SynAck, now, false).(seqno := Wrap(NextSeq(s) - 1), ack := ack);
    ReadBack(SynAck, s.cfg.profile, f, [], room);
    assert PlacedAt(peer, i);
    FurthestIsGreatest(me.heard);
    var k :| 0 <= k < |me.heard| && me.heard[k] == EndOf(peer, i);
    NeverPasses(peer, me);
  }

  /** An arrival out of time is exactly one the acknowledgement does not follow. */
  lemma TimelyExact(me: End, seg: Segment, start: int)
    requires Stands(me) && Ordinary(seg) && seg.seqno == Wrap(start) && Counts(me.run.state, seg)
    requires var end, f := start + Length(seg), Furthest(me.heard);
             f.Some? && -0x8000_0000 <= end - f.value < 0x8000_0000
    ensures Stands(Hear(me, seg, start + Length(seg))) <==> Timely(me, seg, start + Length(seg))
  {
    hide Receive, NextSeq, Wrap, Furthest, Counts, Length, Ordinary, Advance;
    var s, end, f := me.run.state, start + Length(seg), Furthest(me.heard).value;
    ReceiveMoves(s, seg, start);
    FurthestGrows(me.heard, end);
    AdvanceExact(s, f, end);
  }

  lemma NeverPasses(peer: End, me: End)
    requires Placed(peer) && Hears(peer, me) && Furthest(me.heard).Some?
    ensures Sent(peer, Furthest(me.heard).value) && Furthest(me.heard).value <= Reach(peer)
  {
    hide Orderly, Ordinary, NextSeq, SaysAt, OrderedAt, Stands, Length;
    var f := Furthest(me.heard).value;
    FurthestIsGreatest(me.heard);
    var k :| 0 <= k < |me.heard| && me.heard[k] == f;
    assert Sent(peer, me.heard[k]);
    var i :| 0 <= i < |peer.places| && i < |peer.run.trace| && EndOf(peer, i) == f;
    assert PlacedAt(peer, i);
  }
}
