/** A responder that answers without remembering, against one that remembers. */
module Exchanges {
  import opened Bytes
  import opened Segments
  import Records
  import opened Endpoints
  import opened Conversations

  // ---- The stateless responder ---------------------------------------------------------------

  /** Taking up a connection from any of the peer's segments: the next byte is the one it acknowledges,
      and what is acknowledged is that segment's end. */
  lemma RejoinNumbers(s: State, seg: Segment, tsBase: u32)
    requires s.cfg.sequencing.Stream?
    ensures var r := Rejoin(s, seg, tsBase);
            && NextSeq(r) == seg.ack
            && NextAck(r) == Some(Wrap(seg.seqno + Occupied(seg))) && !r.relearn
            && IsReady(r) == (s.cfg.carrier.FakeHandshake? && s.cfg.role.Initiator? ==> s.synSeq.Some?)
  {
    WrapMore(seg.ack - s.sent, s.sent);
  }

  /** The client has heard nothing but a SYN+ACK numbered `isn`. */
  ghost predicate HeardOnly(r: Run, isn: u32) {
    && r.state.cfg.carrier.Handshake? && r.state.cfg.role.Initiator? && r.state.cfg.sequencing.Stream?
    && (r.state.peerNext.Some? ==> r.state.peerNext.value == Wrap(isn + 1))
    && (r.state.phase.Established? ==> r.state.peerNext.Some?)
    && !r.state.phase.SynReceived?
    && (forall i :: 0 <= i < |r.trace| && r.trace[i].payload != [] ==>
          r.trace[i].ack == Wrap(isn + 1) && r.trace[i].Has(ACK) && !r.trace[i].Has(SYN) && !r.trace[i].Has(RST))
  }

  predicate IsAnswer(seg: Segment, isn: u32) {
    seg.Has(SYN) && seg.Has(ACK) && !seg.Has(RST) && seg.seqno == isn
  }

  lemma HearingKeeps(r: Run, seg: Segment, isn: u32)
    requires HeardOnly(r, isn) && IsAnswer(seg, isn)
    ensures HeardOnly(Run(Receive(r.state, seg), r.trace), isn)
  {
    hide Segment.Has, Occupied;
  }

  /** Whatever an end writes shows the acknowledgement it holds. */
  lemma WritingKeeps(r: Run, e: Event, isn: u32)
    requires HeardOnly(r, isn) && !e.Arrival?
    ensures HeardOnly(Step(r, e), isn)
  {
    hide ParseIpv4, Emitted;
    WritingQuiet(r.state, e);
    var o := Act(r.state, e);
    if o.wrote.Ok? && ParseIpv4(o.wrote.value).Some? {
      WritingShows(r.state, e, isn);
    }
  }

  lemma WritingQuiet(s: State, e: Event)
    requires !e.Arrival? && s.cfg.role.Initiator?
    ensures var t := Act(s, e).state;
            t.cfg == s.cfg && t.peerNext == s.peerNext && (t.phase == s.phase || t.phase.SynSent? || t.phase.Closed?)
  {
    hide Emitted, NextSeq, NextAck, Timestamp, Wrap, FieldsOf, SynFields, Records.RecordHeader, Receive;
  }

  lemma WritingShows(s: State, e: Event, isn: u32)
    requires s.cfg.carrier.Handshake? && s.cfg.role.Initiator? && s.cfg.sequencing.Stream? && !e.Arrival?
    requires s.phase.Established? ==> s.peerNext == Some(Wrap(isn + 1))
    requires Act(s, e).wrote.Ok?
    ensures var read := ParseIpv4(Act(s, e).wrote.value);
            read.Some? && (read.value.payload != [] ==>
              && read.value.ack == Wrap(isn + 1) && read.value.Has(ACK)
              && !read.value.Has(SYN) && !read.value.Has(RST))
  {
    hide ParseIpv4, Emitted, AsRead, NextSeq, Timestamp, Wrap, Segment.Has, Opening, Occupied;
    var p := s.cfg.profile;
    match e
    case Open(room, now) =>
      var ts := s.synTs.GetOr(Timestamp(s.tsBase, now, p.tsHz));
      Reads(Syn, p, SynFields(s, s.localIsn, ts, now), [], room);
    case Answer(ack, room, now) =>
      Reads(SynAck, p, FieldsOf(s, SynAck, now, false).(seqno := Wrap(NextSeq(s) - 1), ack := ack), [], room);
    case PureAck(room, now) => Reads(Ack, p, FieldsOf(s, Ack, now, false), [], room);
    case SendData(payload, room, now, push, record) => DataShows(s, payload, room, now, push, record);
    case SendBare(payload, room, now, push) => Reads(Data, p, FieldsOf(s, Data, now, push), payload, room);
    case Shut(room, now) => Reads(Fin, p, FieldsOf(s, Fin, now, true), [], room);
    case _ =>
  }

  lemma DataShows(s: State, payload: seq<byte>, room: nat, now: u64, push: bool, record: Option<nat>)
    requires DataStep(s, payload, room, now, push, record).wrote.Ok?
    ensures IsReady(s)
    ensures var read := ParseIpv4(DataStep(s, payload, room, now, push, record).wrote.value);
            read.Some? && read.value.ack == NextAck(s).GetOr(0) && read.value.Has(ACK)
            && !read.value.Has(SYN) && !read.value.Has(RST)
  {
    hide ParseIpv4, Emitted, AsRead, NextSeq, Timestamp, Wrap, Segment.Has, Opening, Occupied;
    var total := RecordTotal(s, payload, record);
    var header := if s.recordLeft == 0 then Records.RecordHeader(total) else Some([]);
    var before := if s.cfg.records then s.(recordLeft := Max(total - |payload|, 0)) else s;
    var bytes := if s.cfg.records then header.value + payload else payload;
    Reads(Data, s.cfg.profile, FieldsOf(before, Data, now, push), bytes, room);
  }

  lemma Reads(kind: Kind, p: Profile, f: Fields, payload: seq<byte>, room: nat)
    requires Emitted(kind, p, f, payload, room).Ok?
    ensures var read := ParseIpv4(Emitted(kind, p, f, payload, room).value);
            && read.Some? && read.value.payload == payload && read.value.ack == f.ack
            && (read.value.Has(ACK) <==> !kind.Syn? && !kind.Rst?)
            && (read.value.Has(SYN) <==> kind.IsSyn()) && (read.value.Has(RST) <==> kind.Rst?)
  {
    EmittedReads(kind, p, f, payload, room);
    KindShows(kind, p, f, payload);
    SegFields(kind, p, f, payload);
  }

  /** However it opens, retransmits, writes and loses, a client that has heard only the SYN+ACK numbered
      `isn` acknowledges `isn + 1` in every segment that carries anything. */
  lemma {:induction false} ClientHeardOnly(cfg: Config, remote: Addr, ours: u32, guess: u32, tsBase: u32,
                                           mss: Option<u16>, es: seq<Event>, isn: u32)
    requires cfg.carrier.Handshake? && cfg.role.Initiator? && cfg.sequencing.Stream?
    requires forall i :: 0 <= i < |es| && es[i].Arrival? ==> IsAnswer(es[i].seg, isn)
    ensures HeardOnly(After(New(cfg, remote, ours, guess, tsBase, mss), es), isn)
  {
    if es != [] {
      hide HeardOnly, Receive, New;
      var front, e := es[..|es| - 1], es[|es| - 1];
      ClientHeardOnly(cfg, remote, ours, guess, tsBase, mss, front, isn);
      var r := After(New(cfg, remote, ours, guess, tsBase, mss), front);
      if e.Arrival? {
        HearingKeeps(r, e.seg, isn);
      } else {
        WritingKeeps(r, e, isn);
      }
    }
  }

  /** The SYN+ACK composed from a SYN alone is read as the answer to it, and completes the handshake of
      the client that sent it. */
  lemma AnswerCompletes(client: State, syn: Segment, p: Profile, local: Addr, isn: u32, ts: u32, df: bool,
                        mss: u16, ipId: u16, room: nat)
    requires AnswerSyn(p, local, syn, isn, ts, df, mss, ipId, room).Ok?
    requires client.synSeq == Some(syn.seqno) && client.phase.SynSent? && client.peerNext.None? && client.cfg.sequencing.Stream?
    ensures var read := ParseIpv4(AnswerSyn(p, local, syn, isn, ts, df, mss, ipId, room).value);
            && read.Some? && IsAnswer(read.value, isn) && AnswersSyn(client, read.value)
            && read.value.src == local && read.value.dst == syn.src
            && var c := Receive(client, read.value); c.phase.Established? && NextAck(c) == Some(Wrap(isn + 1))
  {
    hide Emitted, ParseIpv4, AsRead;
    var f := AnswerFields(p, local, syn, isn, ts, df, mss, ipId);
    EmittedReads(SynAck, p, f, [], room);
    KindShows(SynAck, p, f, []);
    SegFields(SynAck, p, f, []);
  }

  /** Whichever of the client's data segments arrives first, however many before it were lost, a
      responder that kept nothing and one that kept the handshake number and acknowledge alike. */
  lemma StatelessAgrees(client: Run, i: nat, isn: u32, syn: Segment, kept: State, any: State, clock: u32)
    requires HeardOnly(client, isn) && i < |client.trace| && client.trace[i].payload != []
    requires kept.cfg.carrier.Handshake? && kept.cfg.role.Responder? && kept.cfg.sequencing.Stream?
    requires kept.phase.Idle? && kept.peerNext.None? && kept.relearn && !kept.synCounted
    requires kept.sent == 0 && kept.localIsn == isn
    requires Opening(syn) && !syn.Has(RST) && any.cfg.sequencing.Stream?
    ensures var seg := client.trace[i];
            var stateless := Rejoin(any, seg, clock);
            var stateful := Receive(Receive(kept, syn), seg);
            && NextSeq(stateless) == NextSeq(stateful) == Wrap(isn + 1)
            && NextAck(stateless) == NextAck(stateful) == Some(Wrap(seg.seqno + Occupied(seg)))
  {
    hide Segment.Has, Occupied;
    var seg := client.trace[i];
    RejoinNumbers(any, seg, clock);
    OpeningHasSyn(syn);
    SynHeard(kept, syn);
    FirstHeard(Receive(kept, syn), seg, isn);
  }

  lemma SynHeard(kept: State, syn: Segment)
    requires kept.cfg.role.Responder? && kept.peerNext.None? && Opening(syn) && !syn.Has(RST)
    ensures var k := Receive(kept, syn);
            && k.phase.SynReceived? && k.peerNext.Some? && k.relearn == kept.relearn && k.cfg == kept.cfg
            && k.sent == kept.sent && k.localIsn == kept.localIsn && k.synCounted == kept.synCounted
  {
  }

  lemma FirstHeard(k: State, seg: Segment, isn: u32)
    requires k.phase.SynReceived? && k.peerNext.Some? && k.relearn && k.cfg.sequencing.Stream?
    requires k.sent == 0 && k.localIsn == isn && !k.synCounted
    requires seg.Has(ACK) && !seg.Has(SYN) && !seg.Has(RST)
    ensures var t := Receive(k, seg);
            NextSeq(t) == Wrap(isn + 1) && NextAck(t) == Some(Wrap(seg.seqno + Occupied(seg)))
  {
    hide Segment.Has, Occupied;
  }
}
