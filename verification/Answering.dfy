/** The responder's side of a real handshake: what its SYN+ACKs show over every run. */
module Answering {
  import opened Bytes
  import opened Segments
  import opened Records
  import opened Endpoints
  import opened Conversations
  import opened Writing

  predicate Answers(seg: Segment) {
    seg.Has(SYN) && seg.Has(ACK)
  }

  /** How one more segment stands to the SYN+ACKs before it: a repeat has the same number, and data
      starts one past it and whatever has been taken up since. */
  ghost predicate FitsAnswers(trace: seq<Segment>, seg: Segment) {
    && (Answers(seg) ==> forall i :: 0 <= i < |trace| && Answers(trace[i]) ==> seg.seqno == trace[i].seqno)
    && (seg.payload != [] ==>
          && (forall i :: 0 <= i < |trace| && Answers(trace[i]) ==>
                seg.seqno == Wrap(trace[i].seqno + 1 + Span(trace[i..])))
          && !Answers(seg))
  }

  ghost predicate AnswersTile(trace: seq<Segment>) {
    trace == [] || (AnswersTile(trace[..|trace| - 1]) && FitsAnswers(trace[..|trace| - 1], trace[|trace| - 1]))
  }

  /** What ties the state to a SYN+ACK of the trace. */
  predicate AnswerAt(s: State, trace: seq<Segment>, i: nat)
    requires i < |trace|
  {
    Answers(trace[i]) ==>
      && s.peerNext.Some?
      && (s.phase.SynReceived? ==> Span(trace[i..]) == 0 && NextSeq(s) == trace[i].seqno)
      && (s.phase.Established? ==> NextSeq(s) == Wrap(trace[i].seqno + 1 + Span(trace[i..])))
  }

  /** What every operation keeps of the state alone. */
  predicate Replies(s: State) {
    && s.cfg.carrier.Handshake? && s.cfg.role.Responder? && s.cfg.sequencing.Stream?
    && !s.phase.SynSent?
    && (s.phase.SynReceived? ==> s.peerNext.Some? && !s.synCounted)
    && (s.phase.Established? ==> s.peerNext.Some? && s.synCounted)
    && (s.peerNext.None? ==> !s.synCounted)
  }

  ghost predicate Replying(r: Run) {
    && Replies(r.state)
    && AnswersTile(r.trace)
    && forall i :: 0 <= i < |r.trace| ==> AnswerAt(r.state, r.trace, i)
  }

  /** A step that writes nothing and leaves the numbering alone, but may close or begin. */
  lemma QuietReplying(r: Run, t: State)
    requires Replying(r) && Replies(t) && NextSeq(t) == NextSeq(r.state)
    requires r.state.peerNext.Some? ==> t.peerNext.Some?
    requires t.phase == r.state.phase || t.phase.Closed? || r.state.peerNext.None?
    requires t.phase.Established? ==> r.state.phase.Established?
    ensures Replying(Run(t, r.trace))
  {
    hide Span, NextSeq, Answers;
    forall i | 0 <= i < |r.trace| ensures AnswerAt(t, r.trace, i) {
      assert AnswerAt(r.state, r.trace, i);
    }
  }

  /** Completing the handshake counts the SYN+ACK's byte. */
  lemma EstablishReplying(r: Run)
    requires Replying(r) && r.state.phase.SynReceived?
    ensures Replying(Run(Establish(r.state), r.trace))
  {
    hide Span, Answers, AnswersTile, NextSeq, Wrap;
    var t := Establish(r.state);
    Counted(r.state, t, 1);
    forall i | 0 <= i < |r.trace| ensures AnswerAt(t, r.trace, i) {
      assert AnswerAt(r.state, r.trace, i);
      OneMore(r.trace[i].seqno, Span(r.trace[i..]));
    }
  }

  lemma OneMore(seqno: u32, span: nat)
    ensures span == 0 ==> Wrap(seqno + 1) == Wrap(seqno + 1 + span)
  {
  }

  lemma ReceiveReplying(r: Run, seg: Segment)
    requires Replying(r)
    ensures Replying(Run(Receive(r.state, seg), r.trace))
  {
    hide Span, Answers, AnswersTile, AnswerAt, Occupied, Segment.Has, NextSeq, Replying;
    var s, t := r.state, Receive(r.state, seg);
    assert Replies(s) by { RepliesOf(r); }
    if s.phase.SynReceived? && t.synCounted {
      EstablishReplying(r);
      ReceiveShape(s, seg);
      QuietReplying(Run(Establish(s), r.trace), t);
    } else {
      ReceiveShape(s, seg);
      QuietReplying(r, t);
    }
  }

  lemma RepliesOf(r: Run)
    requires Replying(r)
    ensures Replies(r.state)
  {
  }

  lemma ReceiveShape(s: State, seg: Segment)
    requires Replies(s)
    ensures var t := Receive(s, seg);
            && Replies(t) && (s.peerNext.Some? ==> t.peerNext.Some?)
            && (if s.phase.SynReceived? && t.synCounted
                then NextSeq(t) == NextSeq(Establish(s)) && (t.phase.Established? || t.phase.Closed?)
                else NextSeq(t) == NextSeq(s) && (t.phase == s.phase || t.phase.Closed? || s.peerNext.None?)
                     && (t.phase.Established? ==> s.phase.Established?))
  {
    hide Segment.Has, Occupied, Wrap;
  }

  /** A segment written at the next number, counting what it takes up. */
  lemma AppendReplying(r: Run, t: State, seg: Segment)
    requires Replying(r) && Replies(t)
    requires seg.seqno == NextSeq(r.state) && NextSeq(t) == Wrap(NextSeq(r.state) + Occupied(seg))
    requires t.peerNext == r.state.peerNext && (t.phase == r.state.phase || t.phase.Closed?)
    requires Answers(seg) ==> r.state.phase.SynReceived? && seg.payload == []
    requires seg.payload != [] ==> r.state.phase.Established?
    requires t.phase.SynReceived? ==> Occupied(seg) == 0
    ensures Replying(Run(t, r.trace + [seg]))
  {
    hide Span, Answers, Occupied;
    var trace := r.trace;
    var all := trace + [seg];
    assert all[..|trace|] == trace;
    forall i | 0 <= i < |trace| ensures AnswerAt(r.state, trace, i) && AnswerAt(t, all, i) {
      assert AnswerAt(r.state, trace, i);
      SpanGrows(trace, i, seg);
      WrapMore(trace[i].seqno + 1 + Span(trace[i..]), Occupied(seg));
      assert all[i] == trace[i];
    }
    NextFits(r, seg);
    LastAnswer(r.state, t, trace, seg);
  }

  lemma NextFits(r: Run, seg: Segment)
    requires Replying(r) && seg.seqno == NextSeq(r.state)
    requires Answers(seg) ==> r.state.phase.SynReceived? && seg.payload == []
    requires seg.payload != [] ==> r.state.phase.Established?
    ensures FitsAnswers(r.trace, seg)
  {
    hide Span, Answers, NextSeq, AnswersTile;
    forall i | 0 <= i < |r.trace| && Answers(r.trace[i])
      ensures Answers(seg) ==> seg.seqno == r.trace[i].seqno
      ensures seg.payload != [] ==> seg.seqno == Wrap(r.trace[i].seqno + 1 + Span(r.trace[i..]))
    {
      assert AnswerAt(r.state, r.trace, i);
    }
  }

  lemma LastAnswer(s: State, t: State, trace: seq<Segment>, seg: Segment)
    requires Replies(s) && Replies(t) && t.peerNext == s.peerNext && (t.phase == s.phase || t.phase.Closed?)
    requires Answers(seg) ==> s.phase.SynReceived?
    requires seg.seqno == NextSeq(s) && NextSeq(t) == Wrap(NextSeq(s) + Occupied(seg))
    requires t.phase.SynReceived? ==> Occupied(seg) == 0
    ensures AnswerAt(t, trace + [seg], |trace|)
  {
    hide Answers, Occupied;
    var last := (trace + [seg])[|trace|..];
    assert last == [seg];
    assert last[..0] == [];
    assert Span(last) == Occupied(seg);
  }

  lemma EmitReplying(r: Run, before: State, kind: Kind, payload: seq<byte>, room: nat, now: u64, push: bool, sent: u32, phase: Phase)
    requires Replying(r) && before == r.state.(recordLeft := before.recordLeft)
    requires kind.SynAck? || kind.Ack? || kind.Data? || kind.Fin?
    requires payload != [] ==> kind.Data? && r.state.phase.Established?
    requires kind.SynAck? ==> r.state.phase.SynReceived?
    requires sent == Wrap(r.state.sent + |payload| + if kind.Fin? then 1 else 0)
    requires phase == if kind.Fin? then Closed else r.state.phase
    ensures var o := Emit(before, kind, payload, room, now, push);
            && (o.wrote.Ok? ==> ParseIpv4(o.wrote.value).Some?
                                && Replying(Run(o.state.(sent := sent, phase := phase), r.trace + [ParseIpv4(o.wrote.value).value])))
            && (o.wrote.Err? ==> Replying(Run(o.state, r.trace)))
  {
    hide Replying, ParseIpv4, Emitted, AsRead, Occupied, Segment.Has, NextSeq, NextAck, Timestamp, Wrap;
    RepliesOf(r);
    var o, f := Emit(before, kind, payload, room, now, push), FieldsOf(before, kind, now, push);
    if o.wrote.Ok? {
      EmittedReads(kind, r.state.cfg.profile, f, payload, room);
      KindShows(kind, r.state.cfg.profile, f, payload);
      SegFields(kind, r.state.cfg.profile, f, payload);
      Counted(r.state, o.state.(sent := sent, phase := phase), |payload| + if kind.Fin? then 1 else 0);
      SameNumber(r.state, before);
      AppendReplying(r, o.state.(sent := sent, phase := phase), AsRead(kind, r.state.cfg.profile, f, payload));
    } else {
      SameNumber(r.state, before);
      QuietReplying(r, before);
    }
  }

  lemma Counted(s: State, t: State, n: u32)
    requires s.cfg.sequencing.Stream? && t.cfg == s.cfg && t.localIsn == s.localIsn && t.sent == Wrap(s.sent + n)
    ensures NextSeq(t) == Wrap(NextSeq(s) + n)
  {
    CountMoves(s.localIsn, s.sent, n);
  }

  /** Each thing a responder may do: anything but numbering a SYN of its own, or answering for show. */
  lemma StepReplying(r: Run, e: Event)
    requires Replying(r) && !e.Number? && !e.Answer?
    ensures Replying(Step(r, e))
  {
    hide Replying, Emit, ParseIpv4, RecordHeader, Receive;
    var s := r.state;
    RepliesOf(r);
    NothingCounted(s.sent);
    match e
    case Open(room, now) =>
      if s.phase.SynReceived? { EmitReplying(r, s, SynAck, [], room, now, false, s.sent, s.phase); EmitOnly(s, SynAck, [], room, now, false); }
    case PureAck(room, now) =>
      EmitReplying(r, s, Ack, [], room, now, false, s.sent, s.phase);
      EmitOnly(s, Ack, [], room, now, false);
    case SendData(payload, room, now, push, record) =>
      if IsReady(s) {
        var total := RecordTotal(s, payload, record);
        var header := if s.recordLeft == 0 then RecordHeader(total) else Some([]);
        if !s.cfg.records {
          SendReplying(r, s, payload, room, now, push);
        } else if header.Some? {
          SendReplying(r, s.(recordLeft := Max(total - |payload|, 0)), header.value + payload, room, now, push);
        }
      }
    case SendBare(payload, room, now, push) =>
      if IsReady(s) { SendReplying(r, s, payload, room, now, push); }
    case Shut(room, now) =>
      EmitReplying(r, s, Fin, [], room, now, true, Wrap(s.sent + 1), Closed);
      EmitOnly(s, Fin, [], room, now, true);
    case Arrival(seg) => ReceiveReplying(r, seg);
    case Roam(remote) => QuietReplying(r, SetRemote(s, remote));
  }

  lemma SendReplying(r: Run, before: State, payload: seq<byte>, room: nat, now: u64, push: bool)
    requires Replying(r) && before == r.state.(recordLeft := before.recordLeft) && r.state.phase.Established?
    ensures var o := Sending(before, payload, room, now, push);
            && (o.wrote.Ok? ==> ParseIpv4(o.wrote.value).Some?
                                && Replying(Run(o.state, r.trace + [ParseIpv4(o.wrote.value).value])))
            && (o.wrote.Err? ==> Replying(Run(o.state, r.trace)))
  {
    hide Replying, Emit, ParseIpv4;
    EmitReplying(r, before, Data, payload, room, now, push, Wrap(before.sent + |payload|), before.phase);
    EmitOnly(before, Data, payload, room, now, push);
  }

  /** Over every run of a responder that waits for its handshake: every SYN+ACK it repeats has the same
      number, and its data starts exactly one past it. */
  lemma {:induction false} EveryResponderTiles(cfg: Config, remote: Addr, isn: u32, peerIsn: u32, tsBase: u32,
                                               mss: Option<u16>, es: seq<Event>)
    requires cfg.sequencing.Stream? && cfg.role.Responder? && cfg.carrier.Handshake?
    requires forall i :: 0 <= i < |es| ==> !es[i].Number? && !es[i].Answer?
    ensures Replying(After(New(cfg, remote, isn, peerIsn, tsBase, mss), es))
    ensures AnswersTile(After(New(cfg, remote, isn, peerIsn, tsBase, mss), es).trace)
  {
    var s := New(cfg, remote, isn, peerIsn, tsBase, mss);
    if es != [] {
      hide Step, New, AnswerAt, AnswersTile, Replies;
      EveryResponderTiles(cfg, remote, isn, peerIsn, tsBase, mss, es[..|es| - 1]);
      StepReplying(After(s, es[..|es| - 1]), es[|es| - 1]);
    }
  }
}
