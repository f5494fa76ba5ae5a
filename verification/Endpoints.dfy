/** One end of the synthetic TCP conversation of `endpoint.rs`: its state and what each operation
    makes of it, over values. */
module Endpoints {
  import opened Bytes
  import opened Segments
  import opened Records

  const REORDER_SPAN: nat := 0x10_0000
  const ACK_EVERY: nat := 2

  datatype Carrier = Midstream | FakeHandshake | Handshake {
    predicate Opens() { !Midstream? }
  }

  datatype Role = Initiator | Responder
  datatype Phase = Idle | SynSent | SynReceived | Established | Closed
  datatype Sequencing = Opaque | Stream

  /** What an endpoint is built from and never changes. `look` stands for the advertised window and
      the IP Identification, chosen from the segment's kind and the packet counter. */
  datatype Config = Config(
    local: Addr, profile: Profile, role: Role, carrier: Carrier, sequencing: Sequencing, records: bool,
    dontFragment: bool, mss: u16, look: (Kind, u32) -> (u16, u16))

  datatype State = State(
    cfg: Config, remote: Addr, phase: Phase, localIsn: u32, sent: u32, peerNext: Option<u32>, relearn: bool,
    synSeq: Option<u32>, synTs: Option<u32>, tsBase: u32, peerTsVal: u32, counter: u32, synCounted: bool,
    recordLeft: nat, unacked: u16)

  /** `Endpoint::new`; `mss` is what the caller asked for, capped by the profile's. */
  function New(cfg: Config, remote: Addr, isn: u32, peerIsn: u32, tsBase: u32, mss: Option<u16>): State {
    var waits := cfg.carrier.Handshake?;
    State(cfg.(mss := if mss.Some? && mss.value < cfg.profile.mss then mss.value else cfg.profile.mss),
          remote, if waits then Idle else Established, isn, 0, if waits then None else Some(peerIsn), true,
          None, None, tsBase, 0, 0, !waits, 0, 0)
  }

  predicate IsReady(s: State) {
    if s.cfg.carrier.FakeHandshake? && s.cfg.role.Initiator? then s.synSeq.Some? else s.phase.Established?
  }

  predicate WantsOpening(s: State) {
    && s.cfg.role.Initiator?
    && match s.cfg.carrier
       case Midstream => false
       case FakeHandshake => s.synSeq.None?
       case Handshake => !s.phase.Established?
  }

  predicate AtRecordBoundary(s: State) {
    !s.cfg.records || s.recordLeft == 0
  }

  predicate OwesAck(s: State) { s.unacked >= ACK_EVERY }

  function NextSeq(s: State): u32 {
    match s.cfg.sequencing
    case Opaque => Wrap(s.localIsn + s.counter * 0x80)
    case Stream => Wrap(s.localIsn + s.sent)
  }

  function NextAck(s: State): Option<u32> {
    match s.cfg.sequencing
    case Opaque => Some(Wrap(s.localIsn + s.counter * 0x80 - s.counter % 0x400 + 1400))
    case Stream => s.peerNext
  }

  /** `timestamp`: the TCP clock for `now` milliseconds. */
  function Timestamp(base: u32, now: u64, hz: u32): u32 {
    Wrap(base + now * hz % 0x1_0000_0000_0000_0000 / 1000)
  }

  /** At any rate the clock reads as many whole ticks past its base as the milliseconds hold, the product
      wrapping at 64 bits and the reading at 32. */
  lemma ClockTicks(base: u32, now: u64, hz: u32, ticks: nat)
    requires 1000 * ticks <= now * hz % 0x1_0000_0000_0000_0000 < 1000 * ticks + 1000
    ensures Timestamp(base, now, hz) == Wrap(base + ticks)
  {
    WholeTicks(now * hz % 0x1_0000_0000_0000_0000, ticks);
  }

  lemma WholeTicks(product: nat, ticks: nat)
    requires 1000 * ticks <= product < 1000 * ticks + 1000
    ensures product / 1000 == ticks
  {
  }

  function FieldsOf(s: State, kind: Kind, now: u64, push: bool): Fields {
    var look := s.cfg.look(kind, s.counter);
    Fields(s.cfg.local, s.remote, NextSeq(s), NextAck(s).GetOr(0), look.0, look.1,
           Timestamp(s.tsBase, now, s.cfg.profile.tsHz), s.peerTsVal, push, s.cfg.mss, s.cfg.dontFragment)
  }

  /** An operation's new state, and the packet it wrote or why it wrote none. */
  datatype Outcome = Outcome(state: State, wrote: Result<seq<byte>>)

  /** `emit_raw` and `emit_parts`: a segment at the next number, which stays where it was. */
  function Emit(s: State, kind: Kind, payload: seq<byte>, room: nat, now: u64, push: bool): Outcome {
    var e := Emitted(kind, s.cfg.profile, FieldsOf(s, kind, now, push), payload, room);
    Outcome(if e.Ok? then s.(counter := Wrap(s.counter + 1), unacked := 0) else s, e)
  }

  /** The fields of a SYN numbered `seqno`, under the timestamp of the first one. */
  function SynFields(s: State, seqno: u32, ts: u32, now: u64): Fields {
    FieldsOf(s, Syn, now, false).(seqno := seqno, ack := 0, tsVal := ts, tsEcr := 0)
  }

  function SynStep(s: State, seqno: u32, room: nat, now: u64): Outcome {
    var ts := s.synTs.GetOr(Timestamp(s.tsBase, now, s.cfg.profile.tsHz));
    var e := Emitted(Syn, s.cfg.profile, SynFields(s, seqno, ts, now), [], room);
    var s' := s.(synTs := Some(ts));
    Outcome(if e.Ok? then s'.(counter := Wrap(s.counter + 1), synSeq := Some(seqno)) else s', e)
  }

  /** `handshake`: the opening segment due now, or `None`. */
  function HandshakeStep(s: State, room: nat, now: u64): Option<Outcome> {
    match (s.cfg.carrier, s.cfg.role)
    case (FakeHandshake, Initiator) =>
      if s.synSeq.None? then Some(SynStep(s, Wrap(NextSeq(s) - 1), room, now)) else None
    case (Handshake, Initiator) =>
      if s.phase.Idle? || s.phase.SynSent? then
        var o := SynStep(s, s.localIsn, room, now);
        Some(if o.wrote.Ok? then o.(state := o.state.(phase := SynSent)) else o)
      else None
    case (Handshake, Responder) =>
      if s.phase.SynReceived? then Some(Emit(s, SynAck, [], room, now, false)) else None
    case _ => None
  }

  /** `number_syn`. */
  function NumberSyn(s: State, now: u64, isnFor: u32 -> u32): State {
    if s.synSeq.Some? then s
    else
      var ts := Timestamp(s.tsBase, now, s.cfg.profile.tsHz);
      s.(synTs := Some(ts), localIsn := isnFor(ts))
  }

  /** `answer`: a SYN+ACK for show, one below the next number. */
  function AnswerStep(s: State, ack: u32, room: nat, now: u64): Outcome {
    var f := FieldsOf(s, SynAck, now, false).(seqno := Wrap(NextSeq(s) - 1), ack := ack);
    var e := Emitted(SynAck, s.cfg.profile, f, [], room);
    Outcome(if e.Ok? then s.(counter := Wrap(s.counter + 1)) else s, e)
  }

  function AckStep(s: State, room: nat, now: u64): Outcome {
    Emit(s, Ack, [], room, now, false)
  }

  /** The record a data segment would belong to: the open one, or the one it opens. */
  function RecordTotal(s: State, payload: seq<byte>, record: Option<nat>): nat {
    if s.recordLeft == 0 then record.GetOr(|payload|) else s.recordLeft
  }

  /** `data`. The record count moves before the segment is known to have gone out. */
  function DataStep(s: State, payload: seq<byte>, room: nat, now: u64, push: bool, record: Option<nat>): Outcome {
    if !IsReady(s) then Outcome(s, Err(NotEstablished))
    else if !s.cfg.records then Sending(s, payload, room, now, push)
    else
      var total := RecordTotal(s, payload, record);
      var header := if s.recordLeft == 0 then RecordHeader(total) else Some([]);
      if header.None? then Outcome(s, Err(TooLong(total)))
      else Sending(s.(recordLeft := Max(total - |payload|, 0)), header.value + payload, room, now, push)
  }

  function Sending(s: State, payload: seq<byte>, room: nat, now: u64, push: bool): Outcome {
    var o := Emit(s, Data, payload, room, now, push);
    if o.wrote.Ok? then o.(state := o.state.(sent := Wrap(s.sent + |payload|))) else o
  }

  /** `bare`. */
  function BareStep(s: State, payload: seq<byte>, room: nat, now: u64, push: bool): Outcome {
    if !IsReady(s) then Outcome(s, Err(NotEstablished)) else Sending(s, payload, room, now, push)
  }

  function CloseStep(s: State, room: nat, now: u64): Outcome {
    var o := Emit(s, Fin, [], room, now, true);
    if o.wrote.Ok? then o.(state := o.state.(sent := Wrap(s.sent + 1), phase := Closed)) else o
  }

  /** `establish`: our SYN's byte is counted once. */
  function Establish(s: State): State {
    s.(phase := Established, synCounted := true, sent := if s.synCounted then s.sent else Wrap(s.sent + 1))
  }

  function Occupied(seg: Segment): u32 {
    Wrap(Min(|seg.payload|, 0xFFFF_FFFF) + if seg.Has(FIN) then 1 else 0)
  }

  /** `advance`: forward always, backward only past what reordering explains. */
  function Advance(s: State, end: u32): State {
    match s.peerNext
    case None => s
    case Some(next) =>
      var ahead := Wrap(end - next);
      var forward := 0 < ahead < 0x8000_0000;
      var restarted := !forward && Wrap(next - end) > REORDER_SPAN;
      if s.relearn || forward || restarted then s.(peerNext := Some(end), relearn := false) else s
  }

  /** `rejoin`: takes up a connection opened against a SYN+ACK nothing remembers. */
  function Rejoin(s: State, seg: Segment, tsBase: u32): State {
    s.(tsBase := tsBase, localIsn := Wrap(seg.ack - s.sent), synCounted := true, phase := Established,
       remote := seg.src, peerNext := Some(Wrap(seg.seqno + Occupied(seg))), relearn := false,
       peerTsVal := seg.tsVal.GetOr(s.peerTsVal))
  }

  /** `answers_syn`: a SYN+ACK with nothing folded into it, acknowledging our SYN. */
  predicate AnswersSyn(s: State, seg: Segment) {
    && seg.Has(SYN) && seg.Has(ACK) && !seg.Has(RST) && !seg.Has(FIN)
    && s.synSeq.Some? && seg.ack == Wrap(s.synSeq.value + 1)
  }

  /** `names_another_connection`. */
  predicate NamesAnotherConnection(s: State, seg: Segment) {
    && s.cfg.sequencing.Stream? && s.phase.Established?
    && Wrap(seg.ack - NextSeq(s)) > REORDER_SPAN && Wrap(NextSeq(s) - seg.ack) > REORDER_SPAN
  }

  /** What `on_receive` notes of every segment: a payload to acknowledge, a timestamp to echo. */
  function Noted(s: State, seg: Segment): State {
    s.(unacked := if seg.payload != [] then Min(s.unacked + 1, 0xFFFF) else s.unacked,
       peerTsVal := seg.tsVal.GetOr(s.peerTsVal))
  }

  /** A SYN+ACK answering our SYN, or the SYN that opens towards a responder that has heard nothing. */
  function HearSyn(s: State, seg: Segment): State {
    if seg.Has(ACK) then
      if s.synSeq.Some? && seg.ack == Wrap(s.synSeq.value + 1) then
        var t := if s.peerNext.None? then s.(peerNext := Some(Wrap(seg.seqno + 1)), relearn := false)
                 else Advance(s, Wrap(seg.seqno + 1));
        if t.phase.SynSent? then Establish(t) else t
      else s
    else if s.cfg.role.Responder? && s.peerNext.None? then
      s.(peerNext := Some(Wrap(seg.seqno + 1)), phase := SynReceived)
    else s
  }

  /** Any other segment, once the peer's numbering is known. */
  function HearData(s: State, seg: Segment): State {
    if s.peerNext.None? then s
    else
      var t := Advance(if s.phase.SynReceived? && seg.Has(ACK) then Establish(s) else s, Wrap(seg.seqno + Occupied(seg)));
      if seg.Has(FIN) then t.(phase := Closed) else t
  }

  /** `on_receive`: the state it leaves. */
  function Receive(s: State, seg: Segment): State {
    var noted := Noted(s, seg);
    if seg.Has(RST) then noted.(phase := Closed)
    else if seg.Has(SYN) then HearSyn(noted, seg)
    else HearData(noted, seg)
  }

  /** What `on_receive` hands upward. */
  function Handed(s: State, seg: Segment): Option<seq<byte>> {
    if seg.Has(RST) || seg.Has(SYN) || s.peerNext.None? || seg.Has(FIN) || seg.payload == [] then None
    else Some(seg.payload)
  }

  /** `set_remote`. */
  function SetRemote(s: State, remote: Addr): State {
    s.(remote := remote, relearn := s.relearn || remote != s.remote)
  }

  /** `answer_syn`: a SYN+ACK composed from the SYN alone. */
  function AnswerSyn(p: Profile, local: Addr, syn: Segment, isn: u32, ts: u32, df: bool, mss: u16, ipId: u16,
                     room: nat): Result<seq<byte>>
  {
    Emitted(SynAck, p, AnswerFields(p, local, syn, isn, ts, df, mss, ipId), [], room)
  }

  function AnswerFields(p: Profile, local: Addr, syn: Segment, isn: u32, ts: u32, df: bool, mss: u16, ipId: u16): Fields {
    Fields(local, syn.src, isn, Wrap(syn.seqno + 1), p.synWindow, ipId, ts, syn.tsVal.GetOr(0), false,
           if mss < p.mss then mss else p.mss, df)
  }

  /** Every segment sent after one arrived with a timestamp echoes it, whatever else that segment was. */
  lemma TimestampEchoed(s: State, seg: Segment, kind: Kind, now: u64, push: bool)
    requires seg.tsVal.Some?
    ensures FieldsOf(Receive(s, seg), kind, now, push).tsEcr == seg.tsVal.value
  {
    hide Segment.Has, Occupied, Wrap, NextSeq, NextAck, Timestamp;
  }

  /** The segment size announced is never above the profile's nor above what was asked for. */
  lemma AdvertisedMss(cfg: Config, remote: Addr, isn: u32, peerIsn: u32, tsBase: u32, mss: Option<u16>)
    ensures New(cfg, remote, isn, peerIsn, tsBase, mss).cfg.mss
            == if mss.Some? then Min(mss.value, cfg.profile.mss) else cfg.profile.mss
  {
  }

  /** A connection taken up echoes the peer's segment at once. */
  lemma RejoinEchoes(s: State, seg: Segment, clock: u32, kind: Kind, now: u64, push: bool)
    requires seg.tsVal.Some?
    ensures FieldsOf(Rejoin(s, seg, clock), kind, now, push).tsEcr == seg.tsVal.value
  {
    hide NextSeq, NextAck, Timestamp, Wrap, Occupied;
  }

  /** The test an unauthenticated segment gets: exactly SYN and ACK of the four, acknowledging our SYN. */
  lemma AnswersSynExact(s: State, seg: Segment)
    ensures AnswersSyn(s, seg)
            <==> && seg.flags % 2 == 0 && seg.flags / 2 % 2 == 1 && seg.flags / 4 % 2 == 0 && seg.flags / 16 % 2 == 1
                 && s.synSeq.Some? && seg.ack == (s.synSeq.value + 1) % 0x1_0000_0000
  {
  }

  /** What passes it closes nothing. */
  lemma AnswerNeverCloses(s: State, seg: Segment)
    requires AnswersSyn(s, seg) && !s.phase.Closed?
    ensures !Receive(s, seg).phase.Closed?
  {
    hide Segment.Has, Wrap;
  }

  /** An open end is closed exactly by a reset, or by a FIN once it knows the peer's numbering. */
  lemma ReceiveClosesExact(s: State, seg: Segment)
    requires !s.phase.Closed?
    ensures Receive(s, seg).phase.Closed? <==> seg.Has(RST) || (seg.Has(FIN) && !seg.Has(SYN) && s.peerNext.Some?)
  {
    hide Segment.Has, Wrap, Occupied;
  }

  /** Why a data segment is refused: not ready; a record that cannot be opened; and else what the emission says. */
  lemma DataRefusals(s: State, payload: seq<byte>, room: nat, now: u64, push: bool, record: Option<nat>)
    ensures var wrote := DataStep(s, payload, room, now, push, record).wrote;
            && (!IsReady(s) ==> wrote == Err(NotEstablished))
            && (IsReady(s) && s.cfg.records && s.recordLeft == 0 && record.GetOr(|payload|) > 16401 ==>
                  wrote == Err(TooLong(record.GetOr(|payload|))))
            && (wrote == Err(NotEstablished) ==> !IsReady(s))
  {
    hide FieldsOf, Packet, IsReady;
  }

  /** Exactly a payload that resets, opens and closes nothing is handed upward, once the peer's numbering is
      known. */
  lemma HandedExact(s: State, seg: Segment)
    ensures Handed(s, seg)
            == if !seg.Has(RST) && !seg.Has(SYN) && !seg.Has(FIN) && s.peerNext.Some? && seg.payload != [] then Some(seg.payload) else None
  {
    hide Segment.Has;
  }

  /** An end that wears no records is always between them. */
  lemma NoRecordsNoBoundary(s: State)
    requires !s.cfg.records
    ensures AtRecordBoundary(s)
  {
  }
}
