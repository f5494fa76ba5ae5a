/** Whole runs of one endpoint: any order of openings, sends, closes and arrivals, and the segments an
    observer reads off the wire. */
module Conversations {
  import opened Bytes
  import opened Segments
  import opened Records
  import opened Endpoints

  datatype Event =
    | Open(room: nat, now: u64)
    | Number(now: u64, isnFor: u32 -> u32)
    | Answer(ack: u32, room: nat, now: u64)
    | PureAck(room: nat, now: u64)
    | SendData(payload: seq<byte>, room: nat, now: u64, push: bool, record: Option<nat>)
    | SendBare(payload: seq<byte>, room: nat, now: u64, push: bool)
    | Shut(room: nat, now: u64)
    | Arrival(seg: Segment)
    | Roam(remote: Addr)

  function Act(s: State, e: Event): Outcome {
    match e
    case Open(room, now) => HandshakeStep(s, room, now).GetOr(Outcome(s, Err(NotEstablished)))
    case Number(now, isnFor) => Outcome(NumberSyn(s, now, isnFor), Err(NotEstablished))
    case Answer(ack, room, now) => AnswerStep(s, ack, room, now)
    case PureAck(room, now) => AckStep(s, room, now)
    case SendData(payload, room, now, push, record) => DataStep(s, payload, room, now, push, record)
    case SendBare(payload, room, now, push) => BareStep(s, payload, room, now, push)
    case Shut(room, now) => CloseStep(s, room, now)
    case Arrival(seg) => Outcome(Receive(s, seg), Err(NotEstablished))
    case Roam(remote) => Outcome(SetRemote(s, remote), Err(NotEstablished))
  }

  /** A connection so far: the endpoint, and every packet it wrote, as any reader parses it. */
  datatype Run = Run(state: State, trace: seq<Segment>)

  function Step(r: Run, e: Event): Run {
    var o := Act(r.state, e);
    var read := if o.wrote.Ok? then ParseIpv4(o.wrote.value) else None;
    Run(o.state, if read.Some? then r.trace + [read.value] else r.trace)
  }

  function After(s: State, es: seq<Event>): Run {
    if es == [] then Run(s, []) else Step(After(s, es[..|es| - 1]), es[|es| - 1])
  }

  /** The one rule of the callers: a SYN is numbered only by an end that is about to send one. */
  predicate Disciplined(s: State, e: Event) {
    e.Number? ==> s.cfg.role.Initiator? && s.cfg.carrier.Opens()
  }

  // ---- What the wire shows -------------------------------------------------------------------

  predicate Opening(seg: Segment) {
    seg.Has(SYN) && !seg.Has(ACK)
  }

  /** The sequence space a stretch of the trace takes up. */
  function Span(trace: seq<Segment>): nat {
    if trace == [] then 0 else Span(trace[..|trace| - 1]) + Occupied(trace[|trace| - 1])
  }

  /** How one more segment must stand to the trace before it: past the first data byte, everything but
      a SYN starts where the sequence space taken up ended; a repeated SYN is the same SYN; its one byte
      comes before the data; and an end that opens, opens first. */
  ghost predicate Fits(opens: bool, trace: seq<Segment>, seg: Segment) {
    && !seg.Has(RST) && |seg.payload| <= 0xFFFF
    && (seg.payload != [] ==> !seg.Has(SYN))
    && (!seg.Has(SYN) ==>
          forall i :: 0 <= i < |trace| && trace[i].payload != [] ==> seg.seqno == Wrap(trace[i].seqno + Span(trace[i..])))
    && (Opening(seg) ==>
          forall i :: 0 <= i < |trace| && Opening(trace[i]) ==> seg.seqno == trace[i].seqno && seg.tsVal == trace[i].tsVal)
    && (seg.payload != [] ==>
          forall i :: 0 <= i < |trace| && Opening(trace[i]) ==> seg.seqno == Wrap(trace[i].seqno + 1 + Span(trace[i..])))
    && (seg.payload != [] && opens ==> exists i :: 0 <= i < |trace| && Opening(trace[i]))
  }

  ghost predicate Tiles(opens: bool, trace: seq<Segment>) {
    trace == [] || (Tiles(opens, trace[..|trace| - 1]) && Fits(opens, trace[..|trace| - 1], trace[|trace| - 1]))
  }

  /** The same, between any two segments of the trace. */
  lemma {:induction false} TilesPairwise(opens: bool, trace: seq<Segment>, i: nat, j: nat)
    requires Tiles(opens, trace) && i < j < |trace|
    ensures !trace[j].Has(RST) && |trace[j].payload| <= 0xFFFF && (trace[j].payload != [] ==> !trace[j].Has(SYN))
    ensures trace[i].payload != [] && !trace[j].Has(SYN) ==>
              trace[j].seqno == Wrap(trace[i].seqno + Span(trace[i..j]))
    ensures Opening(trace[i]) && Opening(trace[j]) ==>
              trace[i].seqno == trace[j].seqno && trace[i].tsVal == trace[j].tsVal
    ensures Opening(trace[i]) && trace[j].payload != [] ==>
              trace[j].seqno == Wrap(trace[i].seqno + 1 + Span(trace[i..j]))
  {
    hide Span, Opening;
    var front := trace[..|trace| - 1];
    if j < |trace| - 1 {
      TilesPairwise(opens, front, i, j);
      assert front[i..j] == trace[i..j];
    } else {
      assert front[i..] == trace[i..j] && front[i] == trace[i];
    }
  }

  // ---- The invariant -------------------------------------------------------------------------

  predicate Opens(s: State) {
    s.cfg.role.Initiator? && s.cfg.carrier.Opens()
  }

  /** The numbering can no longer move under the data: the SYN's byte is in, and its number fixed. */
  predicate Settled(s: State) {
    s.synCounted && (Opens(s) ==> s.synSeq.Some?)
  }

  /** What every operation keeps of the state alone. */
  predicate Sane(s: State) {
    && s.cfg.sequencing.Stream?
    && (!s.cfg.carrier.Handshake? ==> s.synCounted)
    && (s.cfg.carrier.Handshake? && s.phase.Established? ==> Settled(s))
    && (s.cfg.role.Initiator? ==> !s.phase.SynReceived?)
    && (s.phase.SynSent? ==> s.cfg.carrier.Handshake? && s.cfg.role.Initiator?)
    && (s.synSeq.Some? ==> Opens(s) && s.synTs.Some?)
    && (s.cfg.carrier.Handshake? && s.cfg.role.Initiator? ==>
          && (s.phase.Idle? ==> s.synSeq.None? && !s.synCounted && s.sent == 0)
          && (s.phase.SynSent? ==> s.synSeq == Some(s.localIsn) && !s.synCounted && s.sent == 0)
          && (s.synCounted ==> s.synSeq.Some?))
  }

  /** An initiator that wants to open has a segment to open with, unless its handshake was closed under it:
      then it goes on wanting and writes nothing. */
  lemma WantsOpeningExact(s: State, room: nat, now: u64)
    requires s.cfg.role.Initiator? && !s.phase.SynReceived?
    ensures HandshakeStep(s, room, now).Some? <==> WantsOpening(s) && !(s.cfg.carrier.Handshake? && s.phase.Closed?)
  {
    hide SynStep, Emit;
  }

  /** No run takes an initiator to where only a responder waits. */
  lemma {:induction false} InitiatorNeverAnswers(s: State, es: seq<Event>)
    requires s.cfg.role.Initiator? && !s.phase.SynReceived?
    ensures var t := After(s, es).state; t.cfg == s.cfg && !t.phase.SynReceived?
  {
    if es != [] {
      hide Act, ParseIpv4;
      var r, e := After(s, es[..|es| - 1]), es[|es| - 1];
      InitiatorNeverAnswers(s, es[..|es| - 1]);
      InitiatorStep(r.state, e);
    }
  }

  lemma InitiatorStep(s: State, e: Event)
    requires s.cfg.role.Initiator? && !s.phase.SynReceived?
    ensures Act(s, e).state.cfg == s.cfg && !Act(s, e).state.phase.SynReceived?
  {
    hide Emitted, NextSeq, NextAck, Timestamp, Wrap, FieldsOf, SynFields, RecordHeader, Receive;
    if e.Arrival? {
      ReceiveSteps(s, e.seg);
    }
  }

  /** A client reset before it ever opened: it wants to, and has nothing to open with. */
  lemma ResetStillWants(cfg: Config, remote: Addr, isn: u32, peerIsn: u32, tsBase: u32, mss: Option<u16>, reset: Segment,
                        room: nat, now: u64)
    requires cfg.carrier.Handshake? && cfg.role.Initiator? && reset.Has(RST)
    ensures var t := After(New(cfg, remote, isn, peerIsn, tsBase, mss), [Arrival(reset)]).state;
            WantsOpening(t) && HandshakeStep(t, room, now).None?
  {
    hide Segment.Has;
    var es := [Arrival(reset)];
    assert es[..0] == [];
  }

  lemma ReadyIsSettled(s: State)
    requires Sane(s) && IsReady(s)
    ensures Settled(s)
  {
  }

  /** The timestamp every SYN of this end shows. */
  function ShownTs(s: State): Option<u32> {
    if s.synTs.Some? && Findable(s.cfg.profile.synOptions) then s.synTs else None
  }

  /** What ties the state to a data segment of the trace, and to a SYN of it. */
  predicate DataAt(s: State, trace: seq<Segment>, i: nat)
    requires i < |trace|
  {
    trace[i].payload != [] ==> Settled(s) && NextSeq(s) == Wrap(trace[i].seqno + Span(trace[i..]))
  }

  predicate OpeningAt(s: State, trace: seq<Segment>, i: nat)
    requires i < |trace|
  {
    Opening(trace[i]) ==>
      && s.synSeq == Some(trace[i].seqno) && trace[i].tsVal == ShownTs(s)
      && (s.synCounted ==> NextSeq(s) == Wrap(trace[i].seqno + 1 + Span(trace[i..])))
      && (s.phase.SynSent? ==> Span(trace[i..]) == 0)
  }

  ghost predicate Accounts(s: State, trace: seq<Segment>) {
    && (forall i :: 0 <= i < |trace| ==> DataAt(s, trace, i))
    && (forall i :: 0 <= i < |trace| ==> OpeningAt(s, trace, i))
    && (s.synSeq.Some? ==> exists i :: 0 <= i < |trace| && Opening(trace[i]))
  }

  lemma SpanGrows(trace: seq<Segment>, i: nat, seg: Segment)
    requires i <= |trace|
    ensures Span((trace + [seg])[i..]) == Span(trace[i..]) + Occupied(seg)
  {
    var t := (trace + [seg])[i..];
    assert t[..|t| - 1] == trace[i..];
  }

  lemma WrapMore(a: int, b: int)
    ensures Wrap(Wrap(a) + b) == Wrap(a + b)
  {
  }

  /** A state that numbers alike keeps accounting for the same trace. */
  lemma AccountsStill(s: State, t: State, trace: seq<Segment>)
    requires Accounts(s, trace)
    requires NextSeq(t) == NextSeq(s) && t.synSeq == s.synSeq && t.synCounted == s.synCounted
    requires t.cfg == s.cfg && ShownTs(t) == ShownTs(s)
    requires t.phase.SynSent? ==> s.phase.SynSent?
    ensures Accounts(t, trace)
  {
    forall i | 0 <= i < |trace| ensures DataAt(t, trace, i) && OpeningAt(t, trace, i) {
      assert DataAt(s, trace, i) && OpeningAt(s, trace, i);
    }
  }

  /** Appending a segment numbered at the next number, and taking up what it occupies. */
  lemma AppendNumbered(s: State, t: State, trace: seq<Segment>, seg: Segment)
    requires Accounts(s, trace) && Tiles(Opens(s), trace)
    requires !Opening(seg) && (!seg.Has(SYN) ==> seg.seqno == NextSeq(s))
    requires !seg.Has(RST) && |seg.payload| <= 0xFFFF && (seg.payload != [] ==> !seg.Has(SYN) && Settled(s))
    requires NextSeq(t) == Wrap(NextSeq(s) + Occupied(seg))
    requires t.synSeq == s.synSeq && t.synCounted == s.synCounted && t.cfg == s.cfg && ShownTs(t) == ShownTs(s)
    requires t.phase.SynSent? ==> s.phase.SynSent? && Occupied(seg) == 0
    ensures Accounts(t, trace + [seg]) && Tiles(Opens(s), trace + [seg])
  {
    hide NextSeq, ShownTs, Tiles, Occupied;
    var all, n := trace + [seg], |trace|;
    forall i | 0 <= i < |all| ensures DataAt(t, all, i) && OpeningAt(t, all, i) {
      SpanGrows(trace, i, seg);
      if i < n {
        assert DataAt(s, trace, i) && OpeningAt(s, trace, i) && all[i] == trace[i];
        WrapMore(trace[i].seqno + Span(trace[i..]), Occupied(seg));
        WrapMore(trace[i].seqno + 1 + Span(trace[i..]), Occupied(seg));
      } else {
        assert trace[n..] == [];
      }
    }
    if t.synSeq.Some? {
      var i :| 0 <= i < |trace| && Opening(trace[i]);
      assert Opening(all[i]);
    }
    TilesAppend(s, trace, seg);
  }

  /** Appending a SYN at the number this end's SYN has, or is given now. */
  lemma AppendOpening(s: State, t: State, trace: seq<Segment>, seg: Segment)
    requires Accounts(s, trace) && Tiles(Opens(s), trace)
    requires Opening(seg) && Occupied(seg) == 0 && seg.payload == [] && !seg.Has(RST)
    requires t.synSeq == Some(seg.seqno) && seg.tsVal == ShownTs(t)
    requires t.cfg == s.cfg && t.synCounted == s.synCounted && NextSeq(t) == NextSeq(s)
    requires s.synSeq.Some? ==> s.synSeq == t.synSeq && ShownTs(s) == ShownTs(t)
    requires s.synCounted ==> NextSeq(s) == Wrap(seg.seqno + 1)
    requires s.phase.SynSent? <== t.phase.SynSent? && s.synSeq.Some?
    ensures Accounts(t, trace + [seg]) && Tiles(Opens(s), trace + [seg])
  {
    hide NextSeq, ShownTs, Tiles, Occupied;
    var all, n := trace + [seg], |trace|;
    forall i | 0 <= i < |all| ensures DataAt(t, all, i) && OpeningAt(t, all, i) {
      SpanGrows(trace, i, seg);
      if i < n {
        assert DataAt(s, trace, i) && OpeningAt(s, trace, i) && all[i] == trace[i];
      } else {
        assert trace[n..] == [];
      }
    }
    assert Opening(all[n]);
    TilesAppend(s, trace, seg);
  }

  lemma TilesAppend(s: State, trace: seq<Segment>, seg: Segment)
    requires Accounts(s, trace) && Tiles(Opens(s), trace)
    requires Opening(seg) ==> seg.payload == []
    requires Opening(seg) && s.synSeq.Some? ==> s.synSeq.value == seg.seqno && seg.tsVal == ShownTs(s)
    requires !Opening(seg) && !seg.Has(SYN) ==> seg.seqno == NextSeq(s)
    requires !seg.Has(RST) && |seg.payload| <= 0xFFFF && (seg.payload != [] ==> !seg.Has(SYN) && Settled(s))
    ensures Tiles(Opens(s), trace + [seg])
  {
    hide Fits, Accounts;
    FitsNext(s, trace, seg);
    assert (trace + [seg])[..|trace|] == trace;
  }

  lemma OpeningHasSyn(seg: Segment)
    ensures Opening(seg) ==> seg.Has(SYN)
  {
  }

  lemma FitsNext(s: State, trace: seq<Segment>, seg: Segment)
    requires Accounts(s, trace)
    requires Opening(seg) ==> seg.payload == []
    requires Opening(seg) && s.synSeq.Some? ==> s.synSeq.value == seg.seqno && seg.tsVal == ShownTs(s)
    requires !Opening(seg) && !seg.Has(SYN) ==> seg.seqno == NextSeq(s)
    requires !seg.Has(RST) && |seg.payload| <= 0xFFFF && (seg.payload != [] ==> !seg.Has(SYN) && Settled(s))
    ensures Fits(Opens(s), trace, seg)
  {
    hide NextSeq, ShownTs, Span, Opening;
    if !seg.Has(SYN) {
      OpeningHasSyn(seg);
      forall i | 0 <= i < |trace|
        ensures trace[i].payload != [] ==> seg.seqno == Wrap(trace[i].seqno + Span(trace[i..]))
        ensures seg.payload != [] && Opening(trace[i]) ==> seg.seqno == Wrap(trace[i].seqno + 1 + Span(trace[i..]))
      {
        assert DataAt(s, trace, i) && OpeningAt(s, trace, i);
      }
    }
    if Opening(seg) {
      forall i | 0 <= i < |trace| && Opening(trace[i])
        ensures seg.seqno == trace[i].seqno && seg.tsVal == trace[i].tsVal
      {
        assert OpeningAt(s, trace, i);
      }
    }
  }

  // ---- Every operation keeps it --------------------------------------------------------------

  ghost predicate Inv(r: Run) {
    Sane(r.state) && Accounts(r.state, r.trace) && Tiles(Opens(r.state), r.trace)
  }

  /** What a reader sees of each kind of segment. */
  lemma KindShows(kind: Kind, p: Profile, f: Fields, payload: seq<byte>)
    requires |payload| <= 0xFFFF
    ensures var seg := AsRead(kind, p, f, payload);
            && (Opening(seg) <==> kind.Syn?)
            && Occupied(seg) == |payload| + (if kind.Fin? then 1 else 0)
            && (seg.Has(SYN) <==> kind.IsSyn()) && (seg.Has(RST) <==> kind.Rst?) && (seg.Has(FIN) <==> kind.Fin?)
            && (seg.Has(ACK) <==> !kind.Syn? && !kind.Rst?)
  {
  }

  lemma EmittedReads(kind: Kind, p: Profile, f: Fields, payload: seq<byte>, room: nat)
    requires Emitted(kind, p, f, payload, room).Ok?
    ensures |payload| <= 0xFFFF
    ensures ParseIpv4(Emitted(kind, p, f, payload, room).value) == Some(AsRead(kind, p, f, payload))
  {
    hide AsRead, ParseIpv4;
    RoundTrip(kind, p, f, payload, []);
    assert Packet(kind, p, f, payload) + [] == Packet(kind, p, f, payload);
  }

  /** Writing a segment at the next number, then counting what it occupies. */
  lemma EmitKeeps(r: Run, before: State, kind: Kind, payload: seq<byte>, room: nat, now: u64, push: bool, t: State)
    requires Inv(r) && !kind.Syn? && !kind.Rst?
    requires before == r.state.(recordLeft := before.recordLeft)
    requires payload != [] ==> kind.Data? && IsReady(r.state)
    requires var o := Emit(before, kind, payload, room, now, push);
             o.wrote.Ok? && t == o.state.(sent := t.sent, phase := t.phase)
    requires t.sent == Wrap(r.state.sent + |payload| + if kind.Fin? then 1 else 0)
    requires kind.Fin? ==> t.phase == Closed
    requires !kind.Fin? ==> t.phase == r.state.phase
    ensures var read := ParseIpv4(Emit(before, kind, payload, room, now, push).wrote.value);
            read.Some? && Inv(Run(t, r.trace + [read.value]))
  {
    hide Accounts, Tiles, ParseIpv4, AsRead, Emitted, Opening, Occupied, ShownTs, Sane, Segment.Has;
    var s := r.state;
    var f := FieldsOf(before, kind, now, push);
    var seg := AsRead(kind, s.cfg.profile, f, payload);
    EmittedReads(kind, s.cfg.profile, f, payload, room);
    KindShows(kind, s.cfg.profile, f, payload);
    SegFields(kind, s.cfg.profile, f, payload);
    StateCounts(s, t, Occupied(seg), kind);
    if payload != [] {
      ReadyIsSettled(s);
    }
    AppendNumbered(s, t, r.trace, seg);
  }

  /** Counting what a segment occupied keeps the state sane and moves the next number by as much. */
  lemma CountMoves(isn: u32, sent: u32, n: u32)
    ensures Wrap(isn + Wrap(sent + n)) == Wrap(Wrap(isn + sent) + n)
  {
    WrapMore(sent + n, isn);
    WrapMore(isn + sent, n);
  }

  lemma StateCounts(s: State, t: State, n: u32, kind: Kind)
    requires Sane(s)
    requires t == s.(recordLeft := t.recordLeft, counter := t.counter, unacked := t.unacked, sent := Wrap(s.sent + n),
                     phase := if kind.Fin? then Closed else s.phase)
    requires n > 0 ==> kind.Fin? || IsReady(s)
    ensures Sane(t) && NextSeq(t) == Wrap(NextSeq(s) + n) && ShownTs(t) == ShownTs(s) && Opens(t) == Opens(s)
    ensures t.phase.SynSent? ==> s.phase.SynSent? && n == 0
  {
    hide Wrap;
    CountMoves(s.localIsn, s.sent, n);
    NothingCounted(s.sent);
  }

  lemma NothingCounted(sent: u32)
    ensures Wrap(sent + 0) == sent
  {
  }

  lemma SegFields(kind: Kind, p: Profile, f: Fields, payload: seq<byte>)
    ensures var seg := AsRead(kind, p, f, payload);
            && seg.seqno == f.seqno && seg.payload == payload && seg.ack == f.ack && seg.tsVal == ExpectedTimestamp(kind, p, f)
            && seg.src == f.src && seg.dst == f.dst && seg.window == f.window
  {
  }

  /** An event that writes nothing and numbers alike. */
  lemma QuietKeeps(r: Run, t: State)
    requires Inv(r) && Sane(t)
    requires NextSeq(t) == NextSeq(r.state) && t.synSeq == r.state.synSeq && t.synCounted == r.state.synCounted
    requires t.cfg == r.state.cfg && ShownTs(t) == ShownTs(r.state)
    requires t.phase.SynSent? ==> r.state.phase.SynSent?
    ensures Inv(Run(t, r.trace))
  {
    AccountsStill(r.state, t, r.trace);
  }

  /** Counting the SYN's byte, once, where the peer's answer says to. */
  lemma EstablishKeeps(r: Run)
    requires Inv(r) && (r.state.phase.SynSent? || r.state.phase.SynReceived?)
    ensures Inv(Run(Establish(r.state), r.trace))
  {
    hide Tiles, Span;
    var s, t := r.state, Establish(r.state);
    forall i | 0 <= i < |r.trace| ensures DataAt(t, r.trace, i) && OpeningAt(t, r.trace, i) {
      assert DataAt(s, r.trace, i) && OpeningAt(s, r.trace, i);
    }
  }

  /** Receiving anything, once the establishing is set apart: it only moves what is acknowledged. */
  lemma ReceiveSteps(s: State, seg: Segment)
    ensures var t := Receive(s, seg);
            var e := if s.phase.SynSent? || s.phase.SynReceived? then Establish(s) else s;
            && (t.localIsn == s.localIsn && t.cfg == s.cfg && t.synSeq == s.synSeq && t.synTs == s.synTs)
            && ((t.sent == s.sent && t.synCounted == s.synCounted && (t.phase == s.phase || t.phase.Closed? || t.phase.SynReceived?))
                || (e != s && t.sent == e.sent && t.synCounted && (t.phase.Established? || t.phase.Closed?)))
            && (t.phase.SynReceived? && !s.phase.SynReceived? ==> s.cfg.role.Responder?)
  {
    hide Wrap, Segment.Has, Occupied, HearSyn, HearData;
    var n := Noted(s, seg);
    SynSteps(n, seg);
    DataSteps(n, seg);
  }

  /** What a SYN of either kind, and what anything else, may change of the numbering. */
  lemma SynSteps(s: State, seg: Segment)
    ensures var t := HearSyn(s, seg);
            && (t.localIsn == s.localIsn && t.cfg == s.cfg && t.synSeq == s.synSeq && t.synTs == s.synTs)
            && ((t.sent == s.sent && t.synCounted == s.synCounted && (t.phase == s.phase || (t.phase.SynReceived? && s.cfg.role.Responder?)))
                || (s.phase.SynSent? && t.sent == Establish(s).sent && t.synCounted && t.phase.Established?))
  {
    hide Wrap, Segment.Has;
  }

  lemma DataSteps(s: State, seg: Segment)
    ensures var t := HearData(s, seg);
            && (t.localIsn == s.localIsn && t.cfg == s.cfg && t.synSeq == s.synSeq && t.synTs == s.synTs)
            && ((t.sent == s.sent && t.synCounted == s.synCounted && (t.phase == s.phase || t.phase.Closed?))
                || (s.phase.SynReceived? && t.sent == Establish(s).sent && t.synCounted && (t.phase.Established? || t.phase.Closed?)))
  {
    hide Wrap, Segment.Has, Occupied;
  }

  lemma ReceiveKeeps(r: Run, seg: Segment)
    requires Inv(r)
    ensures Inv(Run(Receive(r.state, seg), r.trace))
  {
    hide Accounts, Tiles, Receive;
    var s, t := r.state, Receive(r.state, seg);
    ReceiveSteps(s, seg);
    if t.sent == s.sent && t.synCounted == s.synCounted
       && (t.phase == s.phase || t.phase.Closed? || t.phase.SynReceived?) {
      QuietKeeps(r, t);
    } else {
      EstablishKeeps(r);
      QuietKeeps(Run(Establish(s), r.trace), t);
    }
  }

  lemma NumberKeeps(r: Run, now: u64, isnFor: u32 -> u32)
    requires Inv(r) && Opens(r.state)
    ensures Inv(Run(NumberSyn(r.state, now, isnFor), r.trace))
  {
    hide Tiles, Span;
    var s, t := r.state, NumberSyn(r.state, now, isnFor);
    forall i | 0 <= i < |r.trace| ensures DataAt(t, r.trace, i) && OpeningAt(t, r.trace, i) {
      assert DataAt(s, r.trace, i) && OpeningAt(s, r.trace, i);
    }
  }

  /** Sending a SYN at `seqno`, for an end whose SYN has that number or none yet. */
  lemma SynKeeps(r: Run, seqno: u32, room: nat, now: u64, t: State)
    requires Inv(r) && Opens(r.state)
    requires r.state.synSeq.Some? ==> r.state.synSeq.value == seqno && r.state.phase.SynSent?
    requires r.state.synCounted ==> NextSeq(r.state) == Wrap(seqno + 1)
    requires SynStep(r.state, seqno, room, now).wrote.Ok?
    requires t == SynStep(r.state, seqno, room, now).state.(phase := t.phase)
    requires if r.state.cfg.carrier.Handshake? then t.phase.SynSent? && seqno == r.state.localIsn && (r.state.phase.Idle? || r.state.phase.SynSent?)
             else t.phase == r.state.phase
    ensures var read := ParseIpv4(SynStep(r.state, seqno, room, now).wrote.value);
            read.Some? && Inv(Run(t, r.trace + [read.value]))
  {
    hide Accounts, Tiles, ParseIpv4, AsRead, Emitted, Opening, Occupied, Segment.Has;
    var s := r.state;
    var ts := s.synTs.GetOr(Timestamp(s.tsBase, now, s.cfg.profile.tsHz));
    var f := SynFields(s, seqno, ts, now);
    EmittedReads(Syn, s.cfg.profile, f, [], room);
    KindShows(Syn, s.cfg.profile, f, []);
    SegFields(Syn, s.cfg.profile, f, []);
    AppendOpening(s, t, r.trace, AsRead(Syn, s.cfg.profile, f, []));
  }

  lemma AnswerKeeps(r: Run, ack: u32, room: nat, now: u64)
    requires Inv(r) && AnswerStep(r.state, ack, room, now).wrote.Ok?
    ensures var o := AnswerStep(r.state, ack, room, now);
            var read := ParseIpv4(o.wrote.value);
            read.Some? && Inv(Run(o.state, r.trace + [read.value]))
  {
    hide Accounts, Tiles, ParseIpv4, AsRead, Emitted, Opening, Occupied, Segment.Has, NextAck, Timestamp;
    var s := r.state;
    var f := FieldsOf(s, SynAck, now, false).(seqno := Wrap(NextSeq(s) - 1), ack := ack);
    EmittedReads(SynAck, s.cfg.profile, f, [], room);
    KindShows(SynAck, s.cfg.profile, f, []);
    SegFields(SynAck, s.cfg.profile, f, []);
    AppendNumbered(s, AnswerStep(s, ack, room, now).state, r.trace, AsRead(SynAck, s.cfg.profile, f, []));
  }

  lemma OpenKeeps(r: Run, room: nat, now: u64)
    requires Inv(r)
    ensures Inv(Step(r, Open(room, now)))
  {
    hide Accounts, Tiles, ParseIpv4, Emitted, Sane, Opens;
    var s := r.state;
    OpenCases(s, room, now);
    match (s.cfg.carrier, s.cfg.role)
    case (FakeHandshake, Initiator) =>
      if s.synSeq.None? {
        SynOrQuiet(r, Wrap(NextSeq(s) - 1), room, now, s.phase);
      }
    case (Handshake, Initiator) =>
      if s.phase.Idle? || s.phase.SynSent? {
        SynOrQuiet(r, s.localIsn, room, now, SynSent);
      }
    case (Handshake, Responder) =>
      if s.phase.SynReceived? {
        EmitOrQuiet(r, s, SynAck, [], room, now, false, s.sent, s.phase);
      }
    case _ =>
  }

  /** What the invariant says of an end about to send its SYN. */
  lemma OpenCases(s: State, room: nat, now: u64)
    requires Sane(s)
    ensures s.cfg.carrier.FakeHandshake? && s.cfg.role.Initiator? ==> Opens(s) && s.synCounted
    ensures s.cfg.carrier.Handshake? && s.cfg.role.Initiator? && (s.phase.Idle? || s.phase.SynSent?) ==>
              && Opens(s) && !s.synCounted
              && (s.synSeq.Some? ==> s.synSeq.value == s.localIsn && s.phase.SynSent?)
    ensures Wrap(Wrap(NextSeq(s) - 1) + 1) == NextSeq(s)
  {
  }

  lemma SynOrQuiet(r: Run, seqno: u32, room: nat, now: u64, phase: Phase)
    requires Inv(r) && Opens(r.state)
    requires r.state.synSeq.Some? ==> r.state.synSeq.value == seqno && r.state.phase.SynSent?
    requires r.state.synCounted ==> NextSeq(r.state) == Wrap(seqno + 1)
    requires if r.state.cfg.carrier.Handshake? then phase.SynSent? && seqno == r.state.localIsn && (r.state.phase.Idle? || r.state.phase.SynSent?)
             else phase == r.state.phase
    ensures var o := SynStep(r.state, seqno, room, now);
            && (o.wrote.Ok? ==> ParseIpv4(o.wrote.value).Some?
                                && Inv(Run(o.state.(phase := phase), r.trace + [ParseIpv4(o.wrote.value).value])))
            && (o.wrote.Err? ==> Inv(Run(o.state, r.trace)))
  {
    hide Tiles, ParseIpv4, Emitted;
    var o := SynStep(r.state, seqno, room, now);
    if o.wrote.Ok? {
      SynKeeps(r, seqno, room, now, o.state.(phase := phase));
    } else {
      forall i | 0 <= i < |r.trace| ensures DataAt(o.state, r.trace, i) && OpeningAt(o.state, r.trace, i) {
        assert DataAt(r.state, r.trace, i) && OpeningAt(r.state, r.trace, i);
      }
    }
  }

  /** A segment written at the next number, or nothing at all. */
  lemma EmitOrQuiet(r: Run, before: State, kind: Kind, payload: seq<byte>, room: nat, now: u64, push: bool,
                    sent: u32, phase: Phase)
    requires Inv(r) && !kind.Syn? && !kind.Rst?
    requires before == r.state.(recordLeft := before.recordLeft)
    requires payload != [] ==> kind.Data? && IsReady(r.state)
    requires sent == Wrap(r.state.sent + |payload| + if kind.Fin? then 1 else 0)
    requires phase == if kind.Fin? then Closed else r.state.phase
    ensures var o := Emit(before, kind, payload, room, now, push);
            && (o.wrote.Ok? ==> ParseIpv4(o.wrote.value).Some?
                                && Inv(Run(o.state.(sent := sent, phase := phase), r.trace + [ParseIpv4(o.wrote.value).value])))
            && (o.wrote.Err? ==> Inv(Run(o.state, r.trace)))
  {
    hide Accounts, Tiles, ParseIpv4, Emitted;
    var o := Emit(before, kind, payload, room, now, push);
    if o.wrote.Ok? {
      EmitKeeps(r, before, kind, payload, room, now, push, o.state.(sent := sent, phase := phase));
    } else {
      QuietKeeps(r, before);
    }
  }

  lemma StepKeeps(r: Run, e: Event)
    requires Inv(r) && Disciplined(r.state, e)
    ensures Inv(Step(r, e))
  {
    hide Accounts, Tiles, ParseIpv4, Emitted, Sane, Receive, NextSeq;
    var s := r.state;
    match e
    case Open(room, now) => OpenKeeps(r, room, now);
    case Number(now, isnFor) => NumberKeeps(r, now, isnFor);
    case Answer(ack, room, now) =>
      if AnswerStep(s, ack, room, now).wrote.Ok? { AnswerKeeps(r, ack, room, now); }
    case PureAck(room, now) => EmitOrQuiet(r, s, Ack, [], room, now, false, s.sent, s.phase);
    case SendData(payload, room, now, push, record) => DataKeeps(r, payload, room, now, push, record);
    case SendBare(payload, room, now, push) =>
      if IsReady(s) { SendKeeps(r, s, payload, room, now, push); }
    case Shut(room, now) => EmitOrQuiet(r, s, Fin, [], room, now, true, Wrap(s.sent + 1), Closed);
    case Arrival(seg) => ReceiveKeeps(r, seg);
    case Roam(remote) => RoamKeeps(r, remote);
  }

  lemma RoamKeeps(r: Run, remote: Addr)
    requires Inv(r)
    ensures Inv(Run(SetRemote(r.state, remote), r.trace))
  {
    hide Accounts, Tiles;
    QuietKeeps(r, SetRemote(r.state, remote));
  }

  lemma SendKeeps(r: Run, before: State, payload: seq<byte>, room: nat, now: u64, push: bool)
    requires Inv(r) && IsReady(r.state)
    requires before == r.state.(recordLeft := before.recordLeft)
    ensures var o := Sending(before, payload, room, now, push);
            && (o.wrote.Ok? ==> ParseIpv4(o.wrote.value).Some?
                                && Inv(Run(o.state, r.trace + [ParseIpv4(o.wrote.value).value])))
            && (o.wrote.Err? ==> Inv(Run(o.state, r.trace)))
  {
    hide Accounts, Tiles, ParseIpv4, Emitted, Sane;
    var s := r.state;
    EmitOrQuiet(r, before, Data, payload, room, now, push, Wrap(s.sent + |payload|), s.phase);
  }

  lemma DataKeeps(r: Run, payload: seq<byte>, room: nat, now: u64, push: bool, record: Option<nat>)
    requires Inv(r)
    ensures Inv(Step(r, SendData(payload, room, now, push, record)))
  {
    hide Accounts, Tiles, ParseIpv4, Emitted, Sane, Sending;
    var s := r.state;
    if IsReady(s) {
      if !s.cfg.records {
        SendKeeps(r, s, payload, room, now, push);
      } else {
        var total := RecordTotal(s, payload, record);
        var header := if s.recordLeft == 0 then RecordHeader(total) else Some([]);
        if header.Some? {
          SendKeeps(r, s.(recordLeft := Max(total - |payload|, 0)), header.value + payload, room, now, push);
        }
      }
    }
  }

  lemma FreshInv(cfg: Config, remote: Addr, isn: u32, peerIsn: u32, tsBase: u32, mss: Option<u16>)
    requires cfg.sequencing.Stream?
    ensures Inv(Run(New(cfg, remote, isn, peerIsn, tsBase, mss), []))
  {
  }

  /** Under stream numbering, every run of every endpoint tiles the sequence space: whatever is
      retransmitted, answered twice, acknowledged, refused for want of room, or received. */
  lemma {:induction false} EveryRunTiles(cfg: Config, remote: Addr, isn: u32, peerIsn: u32, tsBase: u32,
                                         mss: Option<u16>, es: seq<Event>)
    requires cfg.sequencing.Stream?
    requires forall i :: 0 <= i < |es| && es[i].Number? ==> cfg.role.Initiator? && cfg.carrier.Opens()
    ensures var r := After(New(cfg, remote, isn, peerIsn, tsBase, mss), es);
            Inv(r) && r.state.cfg.role == cfg.role && r.state.cfg.carrier == cfg.carrier
    ensures Tiles(cfg.role.Initiator? && cfg.carrier.Opens(), After(New(cfg, remote, isn, peerIsn, tsBase, mss), es).trace)
  {
    var s := New(cfg, remote, isn, peerIsn, tsBase, mss);
    if es == [] {
      FreshInv(cfg, remote, isn, peerIsn, tsBase, mss);
    } else {
      hide Accounts, Tiles, Sane, Step, New;
      var front, e := es[..|es| - 1], es[|es| - 1];
      EveryRunTiles(cfg, remote, isn, peerIsn, tsBase, mss, front);
      StepKeeps(After(s, front), e);
      StepKeepsConfig(After(s, front), e);
    }
  }

  lemma StepKeepsConfig(r: Run, e: Event)
    ensures Step(r, e).state.cfg == r.state.cfg
  {
    hide Emitted, ParseIpv4, NextSeq;
  }
}
