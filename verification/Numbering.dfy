/** Runs of an endpoint that is past its handshake, however it came there: created without one, or taking
    up a connection the peer opened. */
module Numbering {
  import opened Bytes
  import opened Segments
  import opened Records
  import opened Endpoints
  import opened Conversations
  import opened Acknowledging
  import opened Writing

  /** Past any handshake: what is still to come changes the numbering only by what is sent. */
  predicate Underway(s: State) {
    && s.cfg.sequencing.Stream? && s.synCounted && s.peerNext.Some?
    && (s.phase.Established? || s.phase.Closed?)
  }

  /** Segment `j` starts where everything before it ends, counting from `first`; a SYN or SYN+ACK for show
      sits one below. */
  predicate NumberedAt(first: u32, trace: seq<Segment>, j: nat)
    requires j < |trace|
  {
    && Ordinary(trace[j])
    && trace[j].seqno == Wrap(first + Span(trace[..j]) - if trace[j].Has(SYN) then 1 else 0)
  }

  ghost predicate NumberedFrom(first: u32, r: Run) {
    && Underway(r.state)
    && NextSeq(r.state) == Wrap(first + Span(r.trace))
    && forall j :: 0 <= j < |r.trace| ==> NumberedAt(first, r.trace, j)
  }

  lemma UnderwayIsOrderly(s: State)
    requires Underway(s)
    ensures Orderly(s)
  {
  }

  lemma ActUnderway(s: State, e: Event)
    requires Underway(s) && !e.Arrival?
    ensures Act(s, e).state.phase.Established? || Act(s, e).state.phase.Closed?
  {
    hide Emitted, NextSeq, NextAck, Timestamp, Wrap, FieldsOf, SynFields, RecordHeader, Receive;
  }

  lemma ReceiveUnderway(s: State, seg: Segment)
    requires Underway(s)
    ensures Underway(Receive(s, seg)) && NextSeq(Receive(s, seg)) == NextSeq(s) && Receive(s, seg).cfg == s.cfg
  {
    hide Segment.Has, Occupied, Wrap, Advance, NextSeq;
    var n := Noted(s, seg);
    AdvanceLeaves(n, Wrap(seg.seqno + 1));
    AdvanceLeaves(n, Wrap(seg.seqno + Occupied(seg)));
    SameNumber(s, Receive(s, seg));
  }

  /** The next segment takes the next number, and the number after it is past what it takes up. */
  lemma StepNumbers(first: u32, r: Run, e: Event)
    requires NumberedFrom(first, r) && !e.Number?
    ensures NumberedFrom(first, Step(r, e)) && Step(r, e).state.cfg == r.state.cfg
  {
    hide Act, ParseIpv4, Written, NextSeq, Wrap, Span, Ordinary, Length, Segment.Has, Receive;
    var s := r.state;
    UnderwayIsOrderly(s);
    if e.Arrival? {
      ArrivalActs(s, e.seg);
      ReceiveUnderway(s, e.seg);
    } else if Act(s, e).wrote.Ok? {
      ActWrites(s, e);
      ActUnderway(s, e);
      AppendNumber(first, r, e, ParseIpv4(Act(s, e).wrote.value).value, Act(s, e).state);
    } else {
      ActQuiet(s, e);
      ActUnderway(s, e);
    }
  }

  lemma AppendNumber(first: u32, r: Run, e: Event, seg: Segment, t: State)
    requires NumberedFrom(first, r) && Written(r.state, e, seg, t) && (t.phase.Established? || t.phase.Closed?)
    ensures NumberedFrom(first, Run(t, r.trace + [seg])) && t.cfg == r.state.cfg
  {
    hide NextSeq, NextAck, Ordinary, Segment.Has, Wrap, Span, Length, IsReady;
    var all, n := r.trace + [seg], |r.trace|;
    assert all[..n] == r.trace;
    SpanAppends(r.trace, seg);
    if seg.Has(SYN) {
      AnswerLength(seg);
    }
    WrapMore(first + Span(r.trace), Length(seg));
    WrapMore(first + Span(r.trace), -1);
    forall j | 0 <= j < |all| ensures NumberedAt(first, all, j) {
      if j < n {
        assert NumberedAt(first, r.trace, j);
        assert all[..j] == r.trace[..j];
      }
    }
  }

  lemma SpanAppends(trace: seq<Segment>, seg: Segment)
    requires Ordinary(seg)
    ensures Span(trace + [seg]) == Span(trace) + Length(seg) - if seg.Has(SYN) then 1 else 0
  {
    assert (trace + [seg])[..|trace|] == trace;
  }

  /** Every run from such a state: each segment takes up where the one before it ended, from the state's own
      next number on. */
  lemma {:induction false} EveryRunNumbers(s: State, es: seq<Event>)
    requires Underway(s) && forall i :: 0 <= i < |es| ==> !es[i].Number?
    ensures NumberedFrom(NextSeq(s), After(s, es)) && After(s, es).state.cfg == s.cfg
  {
    if es == [] {
      StartsAt(s);
    } else {
      hide NumberedFrom, Step, Underway;
      EveryRunNumbers(s, es[..|es| - 1]);
      StepNumbers(NextSeq(s), After(s, es[..|es| - 1]), es[|es| - 1]);
    }
  }

  lemma StartsAt(s: State)
    requires Underway(s)
    ensures NumberedFrom(NextSeq(s), Run(s, []))
  {
  }

  lemma {:induction false} SpanSplits(trace: seq<Segment>, j: nat)
    requires j <= |trace|
    ensures Span(trace) == Span(trace[..j]) + Span(trace[j..])
  {
    if j == |trace| {
      assert trace[..j] == trace && trace[j..] == [];
    } else {
      var front := trace[..|trace| - 1];
      SpanSplits(front, j);
      assert front[..j] == trace[..j];
      assert trace[j..][..|trace| - 1 - j] == front[j..];
      assert trace[j..][|trace| - 1 - j] == trace[|trace| - 1];
    }
  }

  /** What follows a SYN or a SYN+ACK sent for show starts one past it, and past whatever was sent between:
      the start of the connection, to anyone who reads it as one. */
  lemma ShownOpeningPrecedes(first: u32, r: Run, j: nat, k: nat)
    requires NumberedFrom(first, r) && j < k < |r.trace| && r.trace[j].Has(SYN) && !r.trace[k].Has(SYN)
    ensures r.trace[k].seqno == Wrap(r.trace[j].seqno + 1 + Span(r.trace[j..k]))
  {
    hide Underway, NextSeq, Segment.Has, Ordinary, Span;
    assert NumberedAt(first, r.trace, j) && NumberedAt(first, r.trace, k);
    SpanSplits(r.trace[..k], j);
    assert r.trace[..k][..j] == r.trace[..j] && r.trace[..k][j..] == r.trace[j..k];
    WrapMore(first + Span(r.trace[..j]) - 1, 1 + Span(r.trace[j..k]));
  }

  /** An endpoint that waits for no handshake is such from the start: its first byte is its initial number. */
  lemma EveryUnwaitingRunNumbers(cfg: Config, remote: Addr, isn: u32, peerIsn: u32, tsBase: u32, mss: Option<u16>, es: seq<Event>)
    requires cfg.sequencing.Stream? && !cfg.carrier.Handshake? && forall i :: 0 <= i < |es| ==> !es[i].Number?
    ensures NumberedFrom(isn, After(New(cfg, remote, isn, peerIsn, tsBase, mss), es))
  {
    hide After;
    var s := New(cfg, remote, isn, peerIsn, tsBase, mss);
    FirstIs(isn);
    EveryRunNumbers(s, es);
  }

  // ---- Taking up a connection ----------------------------------------------------------------

  lemma RejoinUnderway(s: State, seg: Segment, clock: u32)
    requires s.cfg.sequencing.Stream?
    ensures Underway(Rejoin(s, seg, clock)) && NextSeq(Rejoin(s, seg, clock)) == seg.ack
  {
    WrapMore(seg.ack - s.sent, s.sent);
  }

  /** Every run of a connection taken up by `rejoin`, from any state: its bytes are numbered from what the
      peer's segment acknowledged, with no gap and no overlap. */
  lemma EveryRejoinedRunNumbers(s: State, seg: Segment, clock: u32, es: seq<Event>)
    requires s.cfg.sequencing.Stream? && forall i :: 0 <= i < |es| ==> !es[i].Number?
    ensures NumberedFrom(seg.ack, After(Rejoin(s, seg, clock), es))
  {
    RejoinUnderway(s, seg, clock);
    EveryRunNumbers(Rejoin(s, seg, clock), es);
  }

  /** Its first byte: whatever was shown or acknowledged before it, at the number acknowledged. */
  lemma RejoinedFirstByte(s: State, seg: Segment, clock: u32, es: seq<Event>, j: nat)
    requires s.cfg.sequencing.Stream? && forall i :: 0 <= i < |es| ==> !es[i].Number?
    requires var trace := After(Rejoin(s, seg, clock), es).trace;
             j < |trace| && trace[j].payload != [] && Span(trace[..j]) == 0
    ensures After(Rejoin(s, seg, clock), es).trace[j].seqno == seg.ack
  {
    hide Rejoin, After, NumberedFrom, Span;
    EveryRejoinedRunNumbers(s, seg, clock, es);
    FirstByte(seg.ack, After(Rejoin(s, seg, clock), es), j);
  }

  lemma FirstByte(first: u32, r: Run, j: nat)
    requires NumberedFrom(first, r) && j < |r.trace| && r.trace[j].payload != [] && Span(r.trace[..j]) == 0
    ensures r.trace[j].seqno == first
  {
    hide Underway, Segment.Has, Span, NextSeq;
    assert NumberedAt(first, r.trace, j);
    FirstIs(first);
  }

  lemma FirstIs(n: u32)
    ensures Wrap(n) == n
  {
  }

  /** And such a run tiles as every other does. */
  lemma {:induction false} EveryRejoinedRunTiles(s: State, seg: Segment, clock: u32, es: seq<Event>)
    requires s.cfg.sequencing.Stream? && s.cfg.role.Responder? && s.synSeq.None?
    requires forall i :: 0 <= i < |es| ==> !es[i].Number?
    ensures Inv(After(Rejoin(s, seg, clock), es)) && After(Rejoin(s, seg, clock), es).state.cfg == s.cfg
    ensures Tiles(false, After(Rejoin(s, seg, clock), es).trace)
  {
    if es == [] {
      RejoinInv(s, seg, clock);
    } else {
      hide Accounts, Tiles, Sane, Step, Rejoin;
      var front := es[..|es| - 1];
      EveryRejoinedRunTiles(s, seg, clock, front);
      StepKeeps(After(Rejoin(s, seg, clock), front), es[|es| - 1]);
      StepKeepsConfig(After(Rejoin(s, seg, clock), front), es[|es| - 1]);
    }
  }

  lemma RejoinInv(s: State, seg: Segment, clock: u32)
    requires s.cfg.sequencing.Stream? && s.cfg.role.Responder? && s.synSeq.None?
    ensures Inv(Run(Rejoin(s, seg, clock), [])) && Rejoin(s, seg, clock).cfg == s.cfg
  {
  }
}
