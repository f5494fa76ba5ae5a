/** That nothing is sent before the connection is open, over the events that open it. */
module Readiness {
  import opened Bytes
  import opened Segments
  import opened Records
  import opened Endpoints
  import opened Conversations
  import opened Acknowledging
  import opened Writing

  /** Event `i` was the arrival of a SYN+ACK acknowledging the SYN this end had sent by then. */
  predicate AnsweredAt(s: State, es: seq<Event>, i: nat)
    requires i < |es|
  {
    && es[i].Arrival? && es[i].seg.Has(SYN) && es[i].seg.Has(ACK) && !es[i].seg.Has(RST)
    && var syn := After(s, es[..i]).state.synSeq; syn.Some? && es[i].seg.ack == Wrap(syn.value + 1)
  }

  /** Event `i` was the arrival of a SYN, and event `i` of something that acknowledges. */
  predicate OpenedAt(es: seq<Event>, i: nat)
    requires i < |es|
  {
    es[i].Arrival? && Opening(es[i].seg) && !es[i].seg.Has(RST)
  }

  predicate AcknowledgedAt(es: seq<Event>, i: nat)
    requires i < |es|
  {
    es[i].Arrival? && es[i].seg.Has(ACK) && !es[i].seg.Has(SYN) && !es[i].seg.Has(RST)
  }

  ghost predicate Answered(s: State, es: seq<Event>) {
    exists i :: 0 <= i < |es| && AnsweredAt(s, es, i)
  }

  ghost predicate Opened(es: seq<Event>) {
    exists i :: 0 <= i < |es| && OpenedAt(es, i)
  }

  /** A SYN arrived, and after it something that acknowledges. */
  ghost predicate Completed(es: seq<Event>) {
    exists k :: 0 <= k < |es| && AcknowledgedAt(es, k) && Opened(es[..k])
  }

  lemma AnsweredStill(s: State, es: seq<Event>)
    requires es != [] && Answered(s, es[..|es| - 1])
    ensures Answered(s, es)
  {
    hide Segment.Has, After;
    var front := es[..|es| - 1];
    var i :| 0 <= i < |front| && AnsweredAt(s, front, i);
    assert front[..i] == es[..i];
    assert AnsweredAt(s, es, i);
  }

  lemma OpenedStill(es: seq<Event>)
    requires es != [] && Opened(es[..|es| - 1])
    ensures Opened(es)
  {
    hide Segment.Has;
    var i :| 0 <= i < |es| - 1 && OpenedAt(es[..|es| - 1], i);
    assert OpenedAt(es, i);
  }

  lemma CompletedStill(es: seq<Event>)
    requires es != [] && Completed(es[..|es| - 1])
    ensures Completed(es)
  {
    hide Segment.Has, Opened;
    var front := es[..|es| - 1];
    var k :| 0 <= k < |front| && AcknowledgedAt(front, k) && Opened(front[..k]);
    assert front[..k] == es[..k];
    assert AcknowledgedAt(es, k);
  }

  /** What writing may change of the phase. */
  lemma ActPhase(s: State, e: Event)
    requires !e.Arrival?
    ensures var t := Act(s, e).state;
            t.cfg == s.cfg && t.peerNext == s.peerNext && (t.phase == s.phase || t.phase.Closed? || (t.phase.SynSent? && s.cfg.role.Initiator?))
  {
    hide Emitted, NextSeq, NextAck, Timestamp, Wrap, FieldsOf, SynFields, RecordHeader, Receive;
  }

  /** How an arrival establishes an initiator, and how a responder. */
  lemma ReceivePhase(s: State, seg: Segment)
    ensures var t := Receive(s, seg);
            && t.cfg == s.cfg
            && (t.phase.Established? && !s.phase.Established? ==>
                  && !seg.Has(RST) && seg.Has(ACK)
                  && (if seg.Has(SYN) then s.phase.SynSent? && s.synSeq.Some? && seg.ack == Wrap(s.synSeq.value + 1)
                      else s.phase.SynReceived?))
            && (t.phase.SynReceived? && !s.phase.SynReceived? ==>
                  s.cfg.role.Responder? && s.peerNext.None? && seg.Has(SYN) && !seg.Has(ACK) && !seg.Has(RST))
            && (t.phase.SynSent? ==> s.phase.SynSent?)
  {
    hide Segment.Has, Occupied, Wrap;
  }

  lemma {:induction false} ClientEstablished(s: State, es: seq<Event>)
    requires s.cfg.role.Initiator? && s.cfg.carrier.Handshake? && !s.phase.Established? && !s.phase.SynReceived?
    ensures var t := After(s, es).state;
            t.cfg == s.cfg && !t.phase.SynReceived? && (t.phase.Established? ==> Answered(s, es))
  {
    if es != [] {
      hide Act, Segment.Has, Answered, ParseIpv4;
      var front, e := es[..|es| - 1], es[|es| - 1];
      ClientEstablished(s, front);
      var before := After(s, front).state;
      if e.Arrival? {
        ArrivalActs(before, e.seg);
        ReceivePhase(before, e.seg);
        if Receive(before, e.seg).phase.Established? && !before.phase.Established? {
          AnsweredNow(s, es);
        }
      } else {
        ActPhase(before, e);
      }
      if Answered(s, front) {
        AnsweredStill(s, es);
      }
    }
  }

  lemma AnsweredNow(s: State, es: seq<Event>)
    requires es != [] && AnsweredAt(s, es, |es| - 1)
    ensures Answered(s, es)
  {
  }

  lemma {:induction false} ResponderEstablished(s: State, es: seq<Event>)
    requires s.cfg.role.Responder? && s.cfg.carrier.Handshake? && s.phase.Idle?
    ensures var t := After(s, es).state;
            && t.cfg == s.cfg && !t.phase.SynSent?
            && (t.phase.SynReceived? ==> Opened(es))
            && (t.phase.Established? ==> Completed(es))
  {
    if es != [] {
      hide Act, Segment.Has, Opened, Completed, ParseIpv4;
      var front, e := es[..|es| - 1], es[|es| - 1];
      ResponderEstablished(s, front);
      var before := After(s, front).state;
      if e.Arrival? {
        ArrivalActs(before, e.seg);
        ReceivePhase(before, e.seg);
        if Receive(before, e.seg).phase.Established? && !before.phase.Established? {
          CompletedNow(es);
        }
        if Receive(before, e.seg).phase.SynReceived? && !before.phase.SynReceived? {
          OpenedNow(es);
        }
      } else {
        ActPhase(before, e);
      }
      if Opened(front) {
        OpenedStill(es);
      }
      if Completed(front) {
        CompletedStill(es);
      }
    }
  }

  lemma OpenedNow(es: seq<Event>)
    requires es != [] && es[|es| - 1].Arrival?
    requires var seg := es[|es| - 1].seg; seg.Has(SYN) && !seg.Has(ACK) && !seg.Has(RST)
    ensures Opened(es)
  {
    hide Segment.Has;
    assert OpenedAt(es, |es| - 1);
  }

  lemma CompletedNow(es: seq<Event>)
    requires es != [] && AcknowledgedAt(es, |es| - 1) && Opened(es[..|es| - 1])
    ensures Completed(es)
  {
    hide Opened, AcknowledgedAt;
  }

  /** Over every run of a client that waits for its handshake: before any event that writes data, a SYN+ACK
      acknowledging its SYN arrived. */
  lemma ClientDataFollowsAnswer(cfg: Config, remote: Addr, isn: u32, peerIsn: u32, tsBase: u32, mss: Option<u16>,
                                es: seq<Event>, j: nat)
    requires cfg.carrier.Handshake? && cfg.role.Initiator? && j < |es|
    requires WritesData(After(New(cfg, remote, isn, peerIsn, tsBase, mss), es[..j]).state, es[j])
    ensures Answered(New(cfg, remote, isn, peerIsn, tsBase, mss), es[..j])
  {
    hide After, Answered, WritesData;
    var s := New(cfg, remote, isn, peerIsn, tsBase, mss);
    ClientEstablished(s, es[..j]);
    DataNeedsReady(After(s, es[..j]).state, es[j]);
  }

  /** And of a responder that waits for it: a SYN arrived, and after it something that acknowledges. */
  lemma ResponderDataFollowsHandshake(cfg: Config, remote: Addr, isn: u32, peerIsn: u32, tsBase: u32, mss: Option<u16>,
                                      es: seq<Event>, j: nat)
    requires cfg.carrier.Handshake? && cfg.role.Responder? && j < |es|
    requires WritesData(After(New(cfg, remote, isn, peerIsn, tsBase, mss), es[..j]).state, es[j])
    ensures Completed(es[..j])
  {
    hide After, Completed, WritesData;
    var s := New(cfg, remote, isn, peerIsn, tsBase, mss);
    ResponderEstablished(s, es[..j]);
    DataNeedsReady(After(s, es[..j]).state, es[j]);
  }

  /** Whether an event puts a segment with a payload on the wire. */
  predicate WritesData(s: State, e: Event) {
    var o := Act(s, e);
    o.wrote.Ok? && var read := ParseIpv4(o.wrote.value); read.Some? && read.value.payload != []
  }

  /** Under any carrier and any numbering, only a ready end does. */
  lemma DataNeedsReady(s: State, e: Event)
    requires WritesData(s, e)
    ensures IsReady(s)
  {
    hide ParseIpv4, Emitted, NextSeq, NextAck, Timestamp, Wrap, RecordHeader, IsReady, Receive;
    var p := s.cfg.profile;
    match e
    case Open(room, now) => OpenIsEmpty(s, room, now);
    case Answer(ack, room, now) =>
      ReadBack(SynAck, p, FieldsOf(s, SynAck, now, false).(seqno := Wrap(NextSeq(s) - 1), ack := ack), [], room);
    case PureAck(room, now) => ReadBack(Ack, p, FieldsOf(s, Ack, now, false), [], room);
    case Shut(room, now) => ReadBack(Fin, p, FieldsOf(s, Fin, now, true), [], room);
    case _ =>
  }

  lemma OpenIsEmpty(s: State, room: nat, now: u64)
    requires Act(s, Open(room, now)).wrote.Ok?
    ensures var read := ParseIpv4(Act(s, Open(room, now)).wrote.value); read.Some? && read.value.payload == []
  {
    hide ParseIpv4, Emitted, NextSeq, NextAck, Timestamp, Wrap;
    var p, ts := s.cfg.profile, s.synTs.GetOr(Timestamp(s.tsBase, now, s.cfg.profile.tsHz));
    if s.cfg.role.Responder? {
      ReadBack(SynAck, p, FieldsOf(s, SynAck, now, false), [], room);
    } else {
      var seqno := if s.cfg.carrier.Handshake? then s.localIsn else Wrap(NextSeq(s) - 1);
      ReadBack(Syn, p, SynFields(s, seqno, ts, now), [], room);
    }
  }
}
