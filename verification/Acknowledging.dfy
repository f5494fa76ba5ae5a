/** What an endpoint acknowledges: serial-number arithmetic against unbounded stream positions. */
module Acknowledging {
  import opened Bytes
  import opened Segments
  import opened Endpoints
  import opened Conversations

  /** The wrapped difference of two positions less than the whole space apart. */
  lemma SerialDistance(a: int, b: int)
    requires 0 <= a - b < 0x1_0000_0000
    ensures Wrap(Wrap(a) - Wrap(b)) == a - b
  {
    var q, r := a / 0x1_0000_0000, b / 0x1_0000_0000;
    assert Wrap(a) - Wrap(b) == (a - b) - 0x1_0000_0000 * (q - r);
    assert -1 <= -(q - r) <= 0;
  }

  /** How far behind the furthest end an arrival may end and leave the acknowledgement there: the
      reordering span, or nothing while the peer's numbering is being relearned. */
  function Tolerance(s: State): nat {
    if s.relearn then 0 else 0x10_0000
  }

  /** Within half the sequence space of where it stands, the acknowledgement follows the furthest end
      exactly when what arrived is no further behind than is tolerated; otherwise it falls back to what
      arrived. */
  lemma AdvanceExact(s: State, furthest: int, end: int)
    requires s.peerNext == Some(Wrap(furthest)) && -0x8000_0000 <= end - furthest < 0x8000_0000
    ensures Advance(s, Wrap(end)).peerNext == Some(Wrap(Max(furthest, end))) <==> end >= furthest - Tolerance(s)
    ensures end < furthest - Tolerance(s) ==> Advance(s, Wrap(end)).peerNext == Some(Wrap(end))
  {
    if end > furthest {
      SerialDistance(end, furthest);
    } else if end < furthest {
      SerialDistance(furthest, end);
      SerialDistance(end + 0x1_0000_0000, furthest);
      WrapAround(end);
      assert Wrap(end) != Wrap(furthest);
    } else {
      SerialDistance(furthest, end);
    }
  }

  lemma WrapAround(n: int)
    ensures Wrap(n + 0x1_0000_0000) == Wrap(n)
  {
  }

  /** A first segment after a guess or a move sets the position outright. */
  lemma AdvanceRelearns(s: State, end: int)
    requires s.peerNext.Some? && s.relearn
    ensures Advance(s, Wrap(end)).peerNext == Some(Wrap(end)) && !Advance(s, Wrap(end)).relearn
  {
  }

  // ---- What an arrival does to the acknowledgement -------------------------------------------

  /** Whether `on_receive` takes a segment's end: a SYN+ACK that answers our SYN, the SYN a responder
      waits for, or anything else once the peer's numbering is known. */
  predicate Counts(s: State, seg: Segment) {
    && !seg.Has(RST)
    && (if seg.Has(SYN)
        then if seg.Has(ACK) then s.synSeq.Some? && seg.ack == Wrap(s.synSeq.value + 1)
             else s.cfg.role.Responder? && s.peerNext.None?
        else s.peerNext.Some?)
  }

  /** The sequence space a segment covers, a SYN's own byte included. */
  function Length(seg: Segment): nat {
    |seg.payload| + (if seg.Has(FIN) then 1 else 0) + (if seg.Has(SYN) then 1 else 0)
  }

  /** A segment as an endpoint writes one. */
  predicate Ordinary(seg: Segment) {
    && !seg.Has(RST) && |seg.payload| <= 0xFFFF
    && (seg.Has(SYN) ==> seg.payload == [] && !seg.Has(FIN))
  }

  /** What is taken moves the acknowledgement to or towards the segment's end; what is not, nowhere. */
  lemma ReceiveMoves(s: State, seg: Segment, start: int)
    requires Ordinary(seg) && seg.seqno == Wrap(start)
    ensures var t, end := Receive(s, seg), start + Length(seg);
            && (!Counts(s, seg) ==> t.peerNext == s.peerNext && t.relearn == s.relearn)
            && (Counts(s, seg) && s.peerNext.None? ==> t.peerNext == Some(Wrap(end)))
            && (Counts(s, seg) && s.peerNext.Some? ==> t.peerNext == Advance(s, Wrap(end)).peerNext)
  {
    hide Segment.Has, Occupied, Wrap;
    EndWraps(start, Length(seg));
    var n := Noted(s, seg);
    AdvanceSame(s, n, Wrap(start + Length(seg)));
    if seg.Has(SYN) {
      SynMoves(n, seg);
    } else {
      OccupiedIs(seg);
      DataMoves(n, seg);
    }
  }

  lemma OccupiedIs(seg: Segment)
    requires Ordinary(seg) && !seg.Has(SYN)
    ensures Occupied(seg) == Length(seg)
  {
  }

  lemma EndWraps(start: int, len: nat)
    ensures Wrap(Wrap(start) + len) == Wrap(start + len)
  {
  }

  lemma AdvanceSame(s: State, t: State, end: u32)
    requires t.peerNext == s.peerNext && t.relearn == s.relearn
    ensures Advance(t, end).peerNext == Advance(s, end).peerNext && Advance(t, end).relearn == Advance(s, end).relearn
  {
    hide Wrap;
  }

  lemma SynMoves(s: State, seg: Segment)
    requires Ordinary(seg) && seg.Has(SYN)
    ensures var t, end := HearSyn(s, seg), Wrap(seg.seqno + 1);
            && (!Counts(s, seg) ==> t.peerNext == s.peerNext && t.relearn == s.relearn)
            && (Counts(s, seg) && s.peerNext.None? ==> t.peerNext == Some(end))
            && (Counts(s, seg) && s.peerNext.Some? ==> t.peerNext == Advance(s, end).peerNext)
  {
    hide Segment.Has, Wrap, Advance;
    AdvanceKeeps(s, Wrap(seg.seqno + 1));
  }

  lemma AdvanceKeeps(s: State, end: u32)
    ensures s.peerNext.None? ==> Advance(s, end) == s
  {
  }

  lemma DataMoves(s: State, seg: Segment)
    requires Ordinary(seg) && !seg.Has(SYN)
    ensures var t := HearData(s, seg);
            && (s.peerNext.None? ==> t.peerNext == s.peerNext && t.relearn == s.relearn)
            && (s.peerNext.Some? ==> t.peerNext == Advance(s, Wrap(seg.seqno + Occupied(seg))).peerNext)
  {
    hide Segment.Has, Wrap, Occupied;
    AdvanceSame(s, Establish(s), Wrap(seg.seqno + Occupied(seg)));
  }

  // ---- A late copy of the answer -------------------------------------------------------------

  /** A copy of the SYN+ACK that begun the connection, `n` bytes behind the acknowledgement: it leaves
      the acknowledgement alone exactly within what is tolerated, and otherwise pulls it back to where the
      connection began. */
  lemma LateAnswerExact(s: State, answer: Segment, n: nat)
    requires s.cfg.sequencing.Stream? && Ordinary(answer) && answer.Has(SYN) && answer.Has(ACK)
    requires s.synSeq.Some? && answer.ack == Wrap(s.synSeq.value + 1)
    requires s.peerNext == Some(Wrap(answer.seqno + 1 + n)) && n < 0x8000_0000
    ensures NextAck(Receive(s, answer)) == NextAck(s) <==> n <= Tolerance(s)
    ensures n > Tolerance(s) ==> NextAck(Receive(s, answer)) == Some(Wrap(answer.seqno + 1))
  {
    hide Segment.Has, Occupied, Wrap, Advance, Receive, Counts;
    AnswerCounts(s, answer);
    AnswerLength(answer);
    WrapOf(answer.seqno);
    ReceiveMoves(s, answer, answer.seqno);
    AdvanceExact(s, answer.seqno + 1 + n, answer.seqno + 1);
    ReceiveKeepsConfig(s, answer);
    if n > 0 {
      Distinct(answer.seqno + 1, n);
    }
  }

  lemma AnswerCounts(s: State, seg: Segment)
    requires Ordinary(seg) && seg.Has(SYN) && seg.Has(ACK) && s.synSeq.Some? && seg.ack == Wrap(s.synSeq.value + 1)
    ensures Counts(s, seg)
  {
  }

  lemma AnswerLength(seg: Segment)
    requires Ordinary(seg) && seg.Has(SYN)
    ensures Length(seg) == 1
  {
  }

  lemma WrapOf(n: u32)
    ensures Wrap(n) == n
  {
  }

  lemma Distinct(a: int, n: nat)
    requires 0 < n < 0x1_0000_0000
    ensures Wrap(a) != Wrap(a + n)
  {
    SerialDistance(a + n, a);
  }

  lemma ReceiveKeepsConfig(s: State, seg: Segment)
    ensures Receive(s, seg).cfg == s.cfg
  {
    ReceiveSteps(s, seg);
  }

  /** After a move the next arrival sets the acknowledgement, even one byte behind where it stood. */
  lemma MovePullsBack(s: State, remote: Addr, seg: Segment, furthest: int)
    requires s.cfg.sequencing.Stream? && s.peerNext == Some(Wrap(furthest)) && remote != s.remote
    requires Ordinary(seg) && !seg.Has(SYN) && Length(seg) == 1 && seg.seqno == Wrap(furthest - 2)
    ensures NextAck(Receive(SetRemote(s, remote), seg)) == Some(Wrap(furthest - 1))
  {
    hide Segment.Has, Occupied, Wrap, Receive, Length, Ordinary, Advance;
    var moved := SetRemote(s, remote);
    ReceiveMoves(moved, seg, furthest - 2);
    AdvanceRelearns(moved, furthest - 1);
    ReceiveKeepsConfig(moved, seg);
    RstIsNotOrdinary(seg);
  }

  lemma RstIsNotOrdinary(seg: Segment)
    requires Ordinary(seg)
    ensures !seg.Has(RST)
  {
  }

  function Seen(seqno: u32, ack: u32, flags: byte, payload: seq<byte>): Segment {
    var a := Addr([0, 0, 0, 0], 0);
    Segment(a, a, seqno, ack, flags, 0, None, payload)
  }

  /** A client opens, hears a SYN+ACK numbered zero, hears one byte two megabytes on, and hears the SYN+ACK
      again: what it had acknowledged up to 0x200002, it then acknowledges up to 1. */
  lemma LateAnswerPullsBack(cfg: Config, remote: Addr, isn: u32, peerIsn: u32, tsBase: u32, mss: Option<u16>, room: nat, now: u64)
    requires cfg.carrier.Handshake? && cfg.role.Initiator? && cfg.sequencing.Stream?
    requires HandshakeStep(New(cfg, remote, isn, peerIsn, tsBase, mss), room, now).value.wrote.Ok?
    ensures var answer, far := Seen(0, Wrap(isn + 1), SYN + ACK, []), Seen(0x20_0001, Wrap(isn + 1), ACK, [7]);
            var begun := HandshakeStep(New(cfg, remote, isn, peerIsn, tsBase, mss), room, now).value.state;
            var s := Receive(Receive(begun, answer), far);
            && s.phase.Established?
            && NextAck(s) == Some(0x20_0002) && NextAck(Receive(s, answer)) == Some(1)
  {
    hide Emitted, Timestamp, SynFields;
    var answer, far := Seen(0, Wrap(isn + 1), SYN + ACK, []), Seen(0x20_0001, Wrap(isn + 1), ACK, [7]);
    var begun := HandshakeStep(New(cfg, remote, isn, peerIsn, tsBase, mss), room, now).value.state;
    FlagsOfSeen(answer, far);
    assert begun.synSeq == Some(isn) && begun.phase.SynSent? && begun.peerNext.None?;
    Answered(begun, answer);
    Went(Receive(begun, answer), far);
    LateAnswerExact(Receive(Receive(begun, answer), far), answer, 0x20_0001);
  }

  lemma FlagsOfSeen(answer: Segment, far: Segment)
    requires answer.flags == SYN + ACK && far.flags == ACK
    ensures answer.Has(SYN) && answer.Has(ACK) && !answer.Has(RST) && !answer.Has(FIN)
    ensures far.Has(ACK) && !far.Has(SYN) && !far.Has(RST) && !far.Has(FIN)
  {
  }

  lemma Answered(s: State, answer: Segment)
    requires answer.Has(SYN) && answer.Has(ACK) && !answer.Has(RST) && answer.seqno == 0
    requires s.phase.SynSent? && s.peerNext.None? && s.synSeq.Some? && answer.ack == Wrap(s.synSeq.value + 1)
    ensures var t := Receive(s, answer);
            t.phase.Established? && t.peerNext == Some(1) && !t.relearn && t.synSeq == s.synSeq && t.cfg == s.cfg
  {
    hide Segment.Has;
  }

  lemma Went(s: State, far: Segment)
    requires !far.Has(SYN) && !far.Has(RST) && !far.Has(FIN) && far.seqno == 0x20_0001 && |far.payload| == 1
    requires s.phase.Established? && s.peerNext == Some(1) && !s.relearn
    ensures var t := Receive(s, far);
            t.phase.Established? && t.peerNext == Some(0x20_0002) && !t.relearn && t.synSeq == s.synSeq && t.cfg == s.cfg
  {
    hide Segment.Has;
  }

  /** `names_another_connection` in unbounded positions: with the peer's acknowledgement anywhere within
      half the sequence space of where this end numbers, exactly when the two are further apart than
      reordering explains. */
  lemma NamesAnotherExact(s: State, seg: Segment, next: int, ack: int)
    requires s.cfg.sequencing.Stream? && s.phase.Established?
    requires NextSeq(s) == Wrap(next) && seg.ack == Wrap(ack) && -0x8000_0000 <= ack - next < 0x8000_0000
    ensures NamesAnotherConnection(s, seg) <==> ack - next > 0x10_0000 || next - ack > 0x10_0000
  {
    hide NextSeq, Wrap;
    if ack >= next {
      Apart(ack, next);
    } else {
      Apart(next, ack);
    }
  }

  /** The wrapped distances between two positions, both ways round. */
  lemma Apart(a: int, b: int)
    requires 0 <= a - b <= 0x8000_0000
    ensures Wrap(Wrap(a) - Wrap(b)) == a - b
    ensures Wrap(Wrap(b) - Wrap(a)) == if a == b then 0 else 0x1_0000_0000 - (a - b)
  {
    SerialDistance(a, b);
    if a != b {
      SerialDistance(b + 0x1_0000_0000, a);
      WrapAround(b);
    }
  }

  // ---- When an acknowledgement is owed -------------------------------------------------------

  function ReceiveEach(s: State, segs: seq<Segment>): State {
    if segs == [] then s else Receive(ReceiveEach(s, segs[..|segs| - 1]), segs[|segs| - 1])
  }

  function Carrying(segs: seq<Segment>): nat {
    if segs == [] then 0 else Carrying(segs[..|segs| - 1]) + if segs[|segs| - 1].payload != [] then 1 else 0
  }

  /** Since the last segment out, an acknowledgement is owed exactly when two of whatever arrived carried
      a payload. */
  lemma {:induction false} OwesAckExact(s: State, segs: seq<Segment>)
    requires s.unacked == 0
    ensures ReceiveEach(s, segs).unacked == Min(Carrying(segs), 0xFFFF)
    ensures OwesAck(ReceiveEach(s, segs)) <==> Carrying(segs) >= 2
  {
    if segs != [] {
      OwesAckExact(s, segs[..|segs| - 1]);
      ReceiveCounts(ReceiveEach(s, segs[..|segs| - 1]), segs[|segs| - 1]);
    }
  }

  lemma ReceiveCounts(s: State, seg: Segment)
    ensures Receive(s, seg).unacked == if seg.payload != [] then Min(s.unacked + 1, 0xFFFF) else s.unacked
  {
    hide Wrap, Occupied, Segment.Has;
  }

  /** Whatever goes out says what was owed. */
  lemma SendingPays(s: State, kind: Kind, payload: seq<byte>, room: nat, now: u64, push: bool)
    requires Emit(s, kind, payload, room, now, push).wrote.Ok?
    ensures !OwesAck(Emit(s, kind, payload, room, now, push).state)
  {
    hide Emitted, FieldsOf;
  }
}
