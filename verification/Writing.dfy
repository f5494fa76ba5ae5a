/** What each operation that writes puts on the wire and does to the numbering, in one place, for the
    properties that range over all of them. */
module Writing {
  import opened Bytes
  import opened Segments
  import opened Records
  import opened Endpoints
  import opened Conversations
  import opened Acknowledging

  /** What every endpoint keeps from its creation on: nothing is counted before the handshake is. */
  predicate Orderly(s: State) {
    && s.cfg.sequencing.Stream?
    && (!s.cfg.carrier.Handshake? ==> s.synCounted)
    && (s.phase.Idle? || s.phase.SynSent? ==> !s.synCounted && s.sent == 0)
    && (s.phase.SynReceived? ==> !s.synCounted)
    && (s.peerNext.None? ==> !s.synCounted)
  }

  /** How an operation stands that wrote `seg` and left `t`. Only a SYN sits off the next number: one below
      it, or on it while its own byte is still to be counted. */
  ghost predicate Written(s: State, e: Event, seg: Segment, t: State) {
    && Ordinary(seg)
    && seg.src == s.cfg.local && seg.dst == s.remote
    && (seg.Has(ACK) && !e.Answer? ==> seg.ack == NextAck(s).GetOr(0))
    && (if seg.Has(SYN)
        then NextSeq(t) == NextSeq(s) && (seg.seqno == Wrap(NextSeq(s) - 1) || (!s.synCounted && seg.seqno == NextSeq(s)))
        else seg.seqno == NextSeq(s) && NextSeq(t) == Wrap(NextSeq(s) + Length(seg)))
    && (seg.payload != [] ==> IsReady(s) && (e.SendData? || e.SendBare?))
    && Orderly(t) && t.cfg == s.cfg && t.peerNext == s.peerNext && t.relearn == s.relearn && t.synCounted == s.synCounted
  }

  /** A segment read back, in the terms above. */
  lemma ReadBack(kind: Kind, p: Profile, f: Fields, payload: seq<byte>, room: nat)
    requires Emitted(kind, p, f, payload, room).Ok? && !kind.Rst? && (kind.IsSyn() || kind.Fin? ==> payload == [])
    ensures var read := ParseIpv4(Emitted(kind, p, f, payload, room).value);
            && read.Some? && Ordinary(read.value)
            && read.value.payload == payload && read.value.seqno == f.seqno && read.value.ack == f.ack
            && read.value.src == f.src && read.value.dst == f.dst
            && Length(read.value) == |payload| + (if kind.IsSyn() || kind.Fin? then 1 else 0)
            && (read.value.Has(SYN) <==> kind.IsSyn()) && (read.value.Has(ACK) <==> !kind.Syn?)
  {
    hide Emitted, ParseIpv4, AsRead;
    EmittedReads(kind, p, f, payload, room);
    KindShows(kind, p, f, payload);
    SegFields(kind, p, f, payload);
  }

  /** A segment at the next number, and `sent` moved by what it takes up. */
  lemma EmitWrites(s: State, before: State, e: Event, kind: Kind, payload: seq<byte>, room: nat, now: u64, push: bool,
                   sent: u32, phase: Phase)
    requires Orderly(s) && before == s.(recordLeft := before.recordLeft)
    requires Emit(before, kind, payload, room, now, push).wrote.Ok?
    requires kind.Ack? || kind.Data? || kind.Fin?
    requires kind.Fin? ==> payload == []
    requires payload != [] ==> IsReady(s) && (e.SendData? || e.SendBare?)
    requires sent == Wrap(s.sent + |payload| + if kind.Fin? then 1 else 0)
    requires phase == if kind.Fin? then Closed else s.phase
    requires sent != s.sent ==> phase.Closed? || IsReady(s)
    ensures var o := Emit(before, kind, payload, room, now, push);
            && ParseIpv4(o.wrote.value).Some?
            && Written(s, e, ParseIpv4(o.wrote.value).value, o.state.(sent := sent, phase := phase))
  {
    hide Emitted, ParseIpv4, Timestamp, Wrap, Length, Ordinary, Segment.Has;
    var f := FieldsOf(before, kind, now, push);
    ReadBack(kind, s.cfg.profile, f, payload, room);
    var n := |payload| + if kind.Fin? then 1 else 0;
    Small(kind, s.cfg.profile, f, payload, room);
    CountMoves(s.localIsn, s.sent, n);
  }

  lemma Small(kind: Kind, p: Profile, f: Fields, payload: seq<byte>, room: nat)
    requires Emitted(kind, p, f, payload, room).Ok?
    ensures |payload| < 0xFFFF
  {
  }

  lemma SynWrites(s: State, e: Event, seqno: u32, room: nat, now: u64, phase: Phase)
    requires Orderly(s) && SynStep(s, seqno, room, now).wrote.Ok?
    requires seqno == Wrap(NextSeq(s) - 1) || (!s.synCounted && seqno == NextSeq(s))
    requires phase == s.phase || (phase.SynSent? && (s.phase.Idle? || s.phase.SynSent?))
    ensures var o := SynStep(s, seqno, room, now);
            && ParseIpv4(o.wrote.value).Some?
            && Written(s, e, ParseIpv4(o.wrote.value).value, o.state.(phase := phase))
  {
    hide Emitted, ParseIpv4, Timestamp, Wrap, Length, Ordinary, Segment.Has;
    var ts := s.synTs.GetOr(Timestamp(s.tsBase, now, s.cfg.profile.tsHz));
    ReadBack(Syn, s.cfg.profile, SynFields(s, seqno, ts, now), [], room);
  }

  /** Every operation that writes, writes so. */
  lemma ActWrites(s: State, e: Event)
    requires Orderly(s) && !e.Arrival? && Act(s, e).wrote.Ok?
    ensures var o := Act(s, e);
            ParseIpv4(o.wrote.value).Some? && Written(s, e, ParseIpv4(o.wrote.value).value, o.state)
  {
    hide Emitted, ParseIpv4, Emit, SynStep, Written, AnswerStep, RecordHeader, Wrap;
    match e
    case Open(room, now) => OpenWrites(s, room, now);
    case Answer(ack, room, now) => AnswerWrites(s, ack, room, now);
    case PureAck(room, now) =>
      EmitOnly(s, Ack, [], room, now, false);
      NothingCounted(s.sent);
      EmitWrites(s, s, e, Ack, [], room, now, false, s.sent, s.phase);
    case SendData(payload, room, now, push, record) =>
      var total := RecordTotal(s, payload, record);
      var header := if s.recordLeft == 0 then RecordHeader(total) else Some([]);
      if !s.cfg.records {
        SendWrites(s, s, e, payload, room, now, push);
      } else {
        SendWrites(s, s.(recordLeft := Max(total - |payload|, 0)), e, header.value + payload, room, now, push);
      }
    case SendBare(payload, room, now, push) => SendWrites(s, s, e, payload, room, now, push);
    case Shut(room, now) =>
      EmitOnly(s, Fin, [], room, now, true);
      EmitWrites(s, s, e, Fin, [], room, now, true, Wrap(s.sent + 1), Closed);
    case _ =>
  }

  lemma EmitOnly(s: State, kind: Kind, payload: seq<byte>, room: nat, now: u64, push: bool)
    ensures var o := Emit(s, kind, payload, room, now, push);
            && o.state.sent == s.sent && o.state.phase == s.phase && (o.wrote.Err? ==> o.state == s)
  {
    hide Emitted, FieldsOf;
  }

  lemma SendWrites(s: State, before: State, e: Event, payload: seq<byte>, room: nat, now: u64, push: bool)
    requires Orderly(s) && before == s.(recordLeft := before.recordLeft) && IsReady(s) && (e.SendData? || e.SendBare?)
    requires Sending(before, payload, room, now, push).wrote.Ok?
    ensures var o := Sending(before, payload, room, now, push);
            ParseIpv4(o.wrote.value).Some? && Written(s, e, ParseIpv4(o.wrote.value).value, o.state)
  {
    hide Emitted, ParseIpv4, Emit, Written, Wrap;
    EmitOnly(before, Data, payload, room, now, push);
    EmitWrites(s, before, e, Data, payload, room, now, push, Wrap(s.sent + |payload|), s.phase);
  }

  lemma OpenWrites(s: State, room: nat, now: u64)
    requires Orderly(s) && Act(s, Open(room, now)).wrote.Ok?
    ensures var o := Act(s, Open(room, now));
            ParseIpv4(o.wrote.value).Some? && Written(s, Open(room, now), ParseIpv4(o.wrote.value).value, o.state)
  {
    hide Emitted, ParseIpv4, Emit, SynStep, Written, Wrap;
    if s.cfg.role.Initiator? {
      SynKeepsPhase(s, Wrap(NextSeq(s) - 1), room, now);
      SynKeepsPhase(s, s.localIsn, room, now);
      if s.cfg.carrier.FakeHandshake? {
        SynWrites(s, Open(room, now), Wrap(NextSeq(s) - 1), room, now, s.phase);
      } else {
        AtStart(s);
        SynWrites(s, Open(room, now), s.localIsn, room, now, SynSent);
      }
    } else {
      SynAckWrites(s, room, now);
    }
  }

  lemma SynKeepsPhase(s: State, seqno: u32, room: nat, now: u64)
    ensures SynStep(s, seqno, room, now).state.phase == s.phase
  {
    hide Emitted;
  }

  lemma AtStart(s: State)
    requires Orderly(s) && (s.phase.Idle? || s.phase.SynSent?)
    ensures NextSeq(s) == s.localIsn
  {
  }

  lemma SynAckWrites(s: State, room: nat, now: u64)
    requires Orderly(s) && s.phase.SynReceived? && Emit(s, SynAck, [], room, now, false).wrote.Ok?
    ensures var o := Emit(s, SynAck, [], room, now, false);
            ParseIpv4(o.wrote.value).Some? && Written(s, Open(room, now), ParseIpv4(o.wrote.value).value, o.state)
  {
    hide Emitted, ParseIpv4, Timestamp, Wrap, Length, Ordinary, Segment.Has;
    ReadBack(SynAck, s.cfg.profile, FieldsOf(s, SynAck, now, false), [], room);
  }

  lemma AnswerWrites(s: State, ack: u32, room: nat, now: u64)
    requires Orderly(s) && AnswerStep(s, ack, room, now).wrote.Ok?
    ensures var o := AnswerStep(s, ack, room, now);
            ParseIpv4(o.wrote.value).Some? && Written(s, Answer(ack, room, now), ParseIpv4(o.wrote.value).value, o.state)
  {
    hide Emitted, ParseIpv4, Timestamp, Wrap, Length, Ordinary, Segment.Has;
    var f := FieldsOf(s, SynAck, now, false).(seqno := Wrap(NextSeq(s) - 1), ack := ack);
    ReadBack(SynAck, s.cfg.profile, f, [], room);
  }

  /** Every operation that writes nothing leaves the peer's numbering alone, but that a move asks for it to
      be learned again. */
  lemma ActQuiet(s: State, e: Event)
    requires Orderly(s) && !e.Arrival? && Act(s, e).wrote.Err?
    ensures var t := Act(s, e).state;
            && Orderly(t) && t.cfg == s.cfg && t.peerNext == s.peerNext && (s.relearn ==> t.relearn)
            && t.synCounted == s.synCounted && (e.Number? || NextSeq(t) == NextSeq(s))
  {
    hide Emitted, NextAck, Timestamp, Wrap, FieldsOf, SynFields, RecordHeader, Receive;
  }

  lemma ArrivalActs(s: State, seg: Segment)
    ensures Act(s, Arrival(seg)) == Outcome(Receive(s, seg), Err(NotEstablished))
  {
  }

  /** What an arrival may do to our own numbering: count the byte of a SYN, once. */
  lemma ReceiveOrderly(s: State, seg: Segment)
    requires Orderly(s)
    ensures var t := Receive(s, seg);
            && Orderly(t) && t.cfg == s.cfg
            && (if t.synCounted == s.synCounted then NextSeq(t) == NextSeq(s)
                else t.synCounted && NextSeq(t) == Wrap(NextSeq(s) + 1))
  {
    hide Segment.Has, Occupied, Wrap, NextSeq, HearSyn, HearData;
    var n := Noted(s, seg);
    SameNumber(s, n);
    SynOrderly(n, seg);
    DataOrderly(n, seg);
    SameNumber(n, n.(phase := Closed));
  }

  lemma SameNumber(s: State, t: State)
    requires t.cfg == s.cfg && t.localIsn == s.localIsn && t.sent == s.sent && t.counter == s.counter
    ensures NextSeq(t) == NextSeq(s)
  {
  }

  lemma EstablishCounts(s: State)
    requires s.cfg.sequencing.Stream? && !s.synCounted
    ensures NextSeq(Establish(s)) == Wrap(NextSeq(s) + 1)
  {
    CountMoves(s.localIsn, s.sent, 1);
  }

  lemma SynOrderly(s: State, seg: Segment)
    requires Orderly(s)
    ensures var t := HearSyn(s, seg);
            && Orderly(t) && t.cfg == s.cfg
            && (if t.synCounted == s.synCounted then NextSeq(t) == NextSeq(s)
                else t.synCounted && NextSeq(t) == Wrap(NextSeq(s) + 1))
  {
    hide Segment.Has, Wrap, NextSeq, Advance;
    var t := HearSyn(s, seg);
    AdvanceLeaves(s, Wrap(seg.seqno + 1));
    if t.synCounted == s.synCounted {
      SameNumber(s, t);
    } else {
      EstablishCounts(s);
      SameNumber(Establish(s), t);
    }
  }

  lemma AdvanceLeaves(s: State, end: u32)
    ensures var t := Advance(s, end); t == s.(peerNext := t.peerNext, relearn := t.relearn) && (s.peerNext.Some? ==> t.peerNext.Some?)
  {
    hide Wrap;
  }

  lemma DataOrderly(s: State, seg: Segment)
    requires Orderly(s)
    ensures var t := HearData(s, seg);
            && Orderly(t) && t.cfg == s.cfg
            && (if t.synCounted == s.synCounted then NextSeq(t) == NextSeq(s)
                else t.synCounted && NextSeq(t) == Wrap(NextSeq(s) + 1))
  {
    hide Segment.Has, Wrap, NextSeq, Advance, Occupied;
    var t := HearData(s, seg);
    var end := Wrap(seg.seqno + Occupied(seg));
    AdvanceLeaves(s, end);
    AdvanceLeaves(Establish(s), end);
    if t.synCounted == s.synCounted {
      SameNumber(s, t);
    } else {
      EstablishCounts(s);
      SameNumber(Establish(s), t);
    }
  }
}
