/** Everything a written packet shows, field by field, and to whom it goes over whole runs, under either
    numbering. */
module Showing {
  import opened Bytes
  import opened Segments
  import opened Layouts
  import opened Records
  import opened Endpoints
  import opened Conversations
  import opened RecordChains

  /** The kind of segment an operation writes. */
  function KindOf(s: State, e: Event): Kind {
    match e
    case Open(_, _) => if s.cfg.role.Initiator? then Syn else SynAck
    case Answer(_, _, _) => SynAck
    case PureAck(_, _) => Ack
    case Shut(_, _) => Fin
    case _ => Data
  }

  function Clock(s: State, now: u64): u32 {
    Timestamp(s.tsBase, now, s.cfg.profile.tsHz)
  }

  function TimeOf(e: Event): u64 {
    match e
    case Arrival(_) => 0
    case Roam(_) => 0
    case _ => e.now
  }

  /** The volatile fields of what an operation writes, but for its numbers: ours to theirs, under the look of
      this packet, at this moment's clock, echoing theirs; a SYN shows its first one's clock and echoes
      nothing. */
  predicate Shows(s: State, e: Event, f: Fields) {
    && f.src == s.cfg.local && f.dst == s.remote
    && (f.window, f.ipId) == s.cfg.look(KindOf(s, e), s.counter)
    && f.mss == s.cfg.mss && f.dontFragment == s.cfg.dontFragment
    && f.tsVal == (if KindOf(s, e).Syn? then s.synTs.GetOr(Clock(s, TimeOf(e))) else Clock(s, TimeOf(e)))
    && f.tsEcr == (if KindOf(s, e).Syn? then 0 else s.peerTsVal)
    && (KindOf(s, e).Data? ==> (e.SendData? || e.SendBare?) && f.push == e.push)
  }

  /** Every write is one emission, of this kind, with fields that show so. */
  lemma ActEmits(s: State, e: Event) returns (f: Fields, room: nat)
    requires Act(s, e).wrote.Ok?
    ensures Act(s, e).wrote == Emitted(KindOf(s, e), s.cfg.profile, f, Adds(s, e), room) && Shows(s, e, f)
  {
    hide Emitted, NextSeq, NextAck, Timestamp, Wrap, RecordHeader, Receive, IsReady;
    match e
    case Open(r, now) =>
      f, room := OpenEmits(s, r, now);
    case Answer(ack, r, now) =>
      f, room := FieldsOf(s, SynAck, now, false).(seqno := Wrap(NextSeq(s) - 1), ack := ack), r;
    case PureAck(r, now) => f, room := FieldsOf(s, Ack, now, false), r;
    case Shut(r, now) => f, room := FieldsOf(s, Fin, now, true), r;
    case SendBare(payload, r, now, push) => f, room := FieldsOf(s, Data, now, push), r;
    case SendData(payload, r, now, push, record) =>
      f, room := FieldsOf(s.(recordLeft := if s.cfg.records then Max(RecordTotal(s, payload, record) - |payload|, 0) else s.recordLeft),
                          Data, now, push), r;
  }

  lemma OpenEmits(s: State, room: nat, now: u64) returns (f: Fields, r: nat)
    requires Act(s, Open(room, now)).wrote.Ok?
    ensures Act(s, Open(room, now)).wrote == Emitted(KindOf(s, Open(room, now)), s.cfg.profile, f, [], r)
    ensures Shows(s, Open(room, now), f)
  {
    hide Emitted, NextSeq, NextAck, Timestamp, Wrap;
    r := room;
    if s.cfg.role.Initiator? {
      var seqno := if s.cfg.carrier.Handshake? then s.localIsn else Wrap(NextSeq(s) - 1);
      f := SynFields(s, seqno, s.synTs.GetOr(Clock(s, now)), now);
    } else {
      f := FieldsOf(s, SynAck, now, false);
    }
  }

  /** The flags of each kind, PSH with a payload at the end of a burst. */
  function FlagByte(kind: Kind, push: bool): byte {
    match kind
    case Syn => 0x02
    case SynAck => 0x12
    case Ack => 0x10
    case Data => if push then 0x18 else 0x10
    case Fin => 0x11
    case Rst => 0x04
  }

  /** What a reader sees of any packet an endpoint writes: from whom, to whom, the flags of its kind, the
      look, the clock, and the payload; and in the bytes beyond, the Identification, the fragment bit, the TTL
      and the options of its layout, with the segment size and the echo. */
  lemma ActShows(s: State, e: Event)
    requires Act(s, e).wrote.Ok?
    ensures var packet, kind, p := Act(s, e).wrote.value, KindOf(s, e), s.cfg.profile;
            var read := ParseIpv4(packet);
            && read.Some?
            && read.value.src == s.cfg.local && read.value.dst == s.remote
            && read.value.flags == FlagByte(kind, (e.SendData? || e.SendBare?) && e.push)
            && read.value.window == s.cfg.look(kind, s.counter).0
            && read.value.payload == Adds(s, e)
            && |packet| >= 40 && Get16(packet, 4) == s.cfg.look(kind, s.counter).1
            && Get16(packet, 6) == (if s.cfg.dontFragment then 0x4000 else 0) && packet[8] == p.ttl
  {
    hide Act, Emitted, ParseIpv4, Adds, Timestamp, Wrap, AsRead, Packet, Get16;
    var f, room := ActEmits(s, e);
    var kind, p, payload := KindOf(s, e), s.cfg.profile, Adds(s, e);
    EmittedReads(kind, p, f, payload, room);
    SegFields(kind, p, f, payload);
    FlagsShown(kind, p, f, payload);
    EmittedIs(kind, p, f, payload, room);
    HeaderShows(kind, p, f, payload);
  }

  lemma FlagsShown(kind: Kind, p: Profile, f: Fields, payload: seq<byte>)
    ensures AsRead(kind, p, f, payload).flags == FlagByte(kind, f.push)
  {
  }

  lemma EmittedIs(kind: Kind, p: Profile, f: Fields, payload: seq<byte>, room: nat)
    requires Emitted(kind, p, f, payload, room).Ok?
    ensures Describable(kind, p) && PacketLen(kind, p, |payload|) <= 0xFFFF && PacketLen(kind, p, |payload|) >= 40
    ensures Emitted(kind, p, f, payload, room).value == Packet(kind, p, f, payload)
  {
    hide Packet;
  }

  /** The options, found by the packet's own header length: the layout's, with this clock and this echo. */
  lemma ActShowsOptions(s: State, e: Event)
    requires Act(s, e).wrote.Ok?
    ensures var packet, kind, p := Act(s, e).wrote.value, KindOf(s, e), s.cfg.profile;
            var end := if |packet| > 32 then 20 + packet[32] / 0x10 * 4 else 0;
            && 40 <= end <= |packet|
            && ReadOptions(packet[40..end])
               == Some(if kind.IsSyn() then SynOptions(s, kind, TimeOf(e), p.synOptions)
                       else if p.timestamps then [Opt(1, []), Opt(1, []), Opt(8, Be32(Clock(s, TimeOf(e))) + Be32(s.peerTsVal))]
                       else [])
  {
    hide Act, Emitted, Adds, Timestamp, Wrap, Packet, Be32, ReadOptions, Announced;
    var f, room := ActEmits(s, e);
    var kind, p, payload := KindOf(s, e), s.cfg.profile, Adds(s, e);
    EmittedIs(kind, p, f, payload, room);
    PacketOptions(kind, p, f, payload);
    if kind.IsSyn() {
      SynOptionsAre(s, kind, TimeOf(e), p.synOptions, f);
    }
  }

  /** What a SYN or SYN+ACK of this end announces. */
  function SynOptions(s: State, kind: Kind, now: u64, opts: seq<SynOption>): seq<Opt> {
    if opts == [] then []
    else
      var first := match opts[0]
        case Mss => Opt(2, Be16(s.cfg.mss))
        case SackPermitted => Opt(4, [])
        case Timestamps =>
          Opt(8, if kind.Syn? then Be32(s.synTs.GetOr(Clock(s, now))) + Be32(0) else Be32(Clock(s, now)) + Be32(s.peerTsVal))
        case Nop => Opt(1, [])
        case EndOfList => Opt(0, [])
        case WindowScale => Opt(3, [s.cfg.profile.windowScale.GetOr(0)]);
      [first] + SynOptions(s, kind, now, opts[1..])
  }

  lemma {:induction false} SynOptionsAre(s: State, kind: Kind, now: u64, opts: seq<SynOption>, f: Fields)
    requires kind.IsSyn() && f.mss == s.cfg.mss
    requires f.tsVal == (if kind.Syn? then s.synTs.GetOr(Clock(s, now)) else Clock(s, now))
    requires f.tsEcr == (if kind.Syn? then 0 else s.peerTsVal)
    ensures AllAnnounced(opts, kind, s.cfg.profile, f) == SynOptions(s, kind, now, opts)
  {
    hide Be16, Be32, Timestamp;
    if opts != [] {
      SynOptionsAre(s, kind, now, opts[1..], f);
    }
  }

  // ---- Over runs -----------------------------------------------------------------------------

  /** The address last moved to, or the one the run began with. */
  function LastRemote(start: Addr, es: seq<Event>): Addr {
    if es == [] then start
    else if es[|es| - 1].Roam? then es[|es| - 1].remote
    else LastRemote(start, es[..|es| - 1])
  }

  lemma ActKeepsEnds(s: State, e: Event)
    ensures var t := Act(s, e).state;
            t.cfg == s.cfg && t.tsBase == s.tsBase && t.remote == if e.Roam? then e.remote else s.remote
  {
    hide Emitted, NextSeq, NextAck, Timestamp, Wrap, FieldsOf, SynFields, RecordHeader, Receive;
    if e.Arrival? {
      ReceiveKeepsEnds(s, e.seg);
    }
  }

  lemma ReceiveKeepsEnds(s: State, seg: Segment)
    ensures var t := Receive(s, seg); t.cfg == s.cfg && t.tsBase == s.tsBase && t.remote == s.remote
  {
    hide Segment.Has, Occupied, Wrap;
  }

  lemma {:induction false} RunKeepsEnds(s: State, es: seq<Event>)
    ensures var t := After(s, es).state; t.cfg == s.cfg && t.tsBase == s.tsBase && t.remote == LastRemote(s.remote, es)
  {
    if es != [] {
      hide Act, ParseIpv4;
      RunKeepsEnds(s, es[..|es| - 1]);
      ActKeepsEnds(After(s, es[..|es| - 1]).state, es[|es| - 1]);
    }
  }

  /** Over every run, from any state: what event `j` writes comes from this end's own address and goes to the
      one last moved to, and shows this end's own clock. */
  lemma EverySegmentAddressed(s: State, es: seq<Event>, j: nat)
    requires j < |es| && Act(After(s, es[..j]).state, es[j]).wrote.Ok?
    ensures var read := ParseIpv4(Act(After(s, es[..j]).state, es[j]).wrote.value);
            && read.Some?
            && read.value.src == s.cfg.local && read.value.dst == LastRemote(s.remote, es[..j])
            && (!KindOf(s, es[j]).IsSyn() && s.cfg.profile.timestamps ==>
                  read.value.tsVal == Some(Timestamp(s.tsBase, TimeOf(es[j]), s.cfg.profile.tsHz)))
  {
    hide Act, After, ParseIpv4, Timestamp, LastRemote, AsRead, Emitted, Adds;
    RunKeepsEnds(s, es[..j]);
    var t := After(s, es[..j]).state;
    var f, room := ActEmits(t, es[j]);
    EmittedReads(KindOf(t, es[j]), t.cfg.profile, f, Adds(t, es[j]), room);
    SegFields(KindOf(t, es[j]), t.cfg.profile, f, Adds(t, es[j]));
  }

  /** From a new endpoint: to the address it was given, until it is moved. */
  lemma NewSegmentsAddressed(cfg: Config, remote: Addr, isn: u32, peerIsn: u32, tsBase: u32, mss: Option<u16>, es: seq<Event>, j: nat)
    requires j < |es| && Act(After(New(cfg, remote, isn, peerIsn, tsBase, mss), es[..j]).state, es[j]).wrote.Ok?
    ensures var read := ParseIpv4(Act(After(New(cfg, remote, isn, peerIsn, tsBase, mss), es[..j]).state, es[j]).wrote.value);
            read.Some? && read.value.src == cfg.local && read.value.dst == LastRemote(remote, es[..j])
  {
    hide Act, After, ParseIpv4, LastRemote;
    EverySegmentAddressed(New(cfg, remote, isn, peerIsn, tsBase, mss), es, j);
  }

  /** From a connection taken up: to where the peer's segment came from, by the clock it was given. */
  lemma RejoinedSegmentsAddressed(s: State, seg: Segment, clock: u32, es: seq<Event>, j: nat)
    requires j < |es| && Act(After(Rejoin(s, seg, clock), es[..j]).state, es[j]).wrote.Ok?
    ensures var read := ParseIpv4(Act(After(Rejoin(s, seg, clock), es[..j]).state, es[j]).wrote.value);
            && read.Some? && read.value.src == s.cfg.local && read.value.dst == LastRemote(seg.src, es[..j])
            && (!KindOf(s, es[j]).IsSyn() && s.cfg.profile.timestamps ==>
                  read.value.tsVal == Some(Timestamp(clock, TimeOf(es[j]), s.cfg.profile.tsHz)))
  {
    hide Act, After, ParseIpv4, LastRemote, Timestamp;
    EverySegmentAddressed(Rejoin(s, seg, clock), es, j);
  }

  // ---- What is handed up ---------------------------------------------------------------------

  /** What arrives of whatever a peer wrote, handed up: the bytes it put on the stream, to an end that knows
      its numbering; nothing of a SYN, a SYN+ACK, a pure acknowledgement or a FIN. */
  lemma HandedUp(sender: State, e: Event, receiver: State)
    requires Act(sender, e).wrote.Ok?
    ensures var read := ParseIpv4(Act(sender, e).wrote.value);
            && read.Some?
            && Handed(receiver, read.value)
               == if Adds(sender, e) != [] && receiver.peerNext.Some? then Some(Adds(sender, e)) else None
  {
    hide Act, ParseIpv4, Adds, Segment.Has, Emitted;
    ActShows(sender, e);
    DataOnly(sender, e);
    FlagsAre(ParseIpv4(Act(sender, e).wrote.value).value, KindOf(sender, e), (e.SendData? || e.SendBare?) && e.push);
  }

  lemma DataOnly(s: State, e: Event)
    ensures Adds(s, e) != [] ==> KindOf(s, e).Data?
  {
    hide DataStep, BareStep;
  }

  lemma FlagsAre(seg: Segment, kind: Kind, push: bool)
    requires seg.flags == FlagByte(kind, push)
    ensures kind.Data? ==> !seg.Has(RST) && !seg.Has(SYN) && !seg.Has(FIN)
  {
  }

  /** A reset hands up nothing, whatever it carries. */
  lemma ResetHandsNothing(s: State, seg: Segment)
    requires seg.Has(RST)
    ensures Handed(s, seg).None?
  {
  }

  // ---- The SYN's proof and the stateless answer ------------------------------------------------

  /** However long after it was numbered, and however often, a SYN goes out, its number is the one its own
      timestamp proves. */
  lemma SynProvesItself(s: State, now: u64, isnFor: u32 -> u32, later: u64, room: nat)
    requires s.cfg.carrier.Handshake? && s.cfg.role.Initiator? && s.synSeq.None? && (s.phase.Idle? || s.phase.SynSent?)
    requires Act(NumberSyn(s, now, isnFor), Open(room, later)).wrote.Ok?
    ensures var read := ParseIpv4(Act(NumberSyn(s, now, isnFor), Open(room, later)).wrote.value);
            var ts := Timestamp(s.tsBase, now, s.cfg.profile.tsHz);
            && read.Some? && read.value.seqno == isnFor(ts)
            && (Findable(s.cfg.profile.synOptions) ==> read.value.tsVal == Some(ts))
  {
    hide Emitted, ParseIpv4, AsRead, NextSeq, NextAck, Timestamp, Wrap;
    var t, p := NumberSyn(s, now, isnFor), s.cfg.profile;
    var f := SynFields(t, t.localIsn, t.synTs.value, later);
    EmittedReads(Syn, p, f, [], room);
    SegFields(Syn, p, f, []);
    assert ExpectedTimestamp(Syn, p, f) == if Findable(p.synOptions) then Some(f.tsVal) else None;
  }

  /** What the SYN+ACK composed from a SYN alone shows: from here to where the SYN came from, the profile's own
      window, the clock it was given, and in its options that clock, the SYN's timestamp echoed, and no larger
      a segment size than either bound. */
  lemma AnswerShows(p: Profile, local: Addr, syn: Segment, isn: u32, ts: u32, df: bool, mss: u16, ipId: u16, room: nat)
    requires AnswerSyn(p, local, syn, isn, ts, df, mss, ipId, room).Ok?
    ensures var packet := AnswerSyn(p, local, syn, isn, ts, df, mss, ipId, room).value;
            var read := ParseIpv4(packet);
            && read.Some? && read.value.src == local && read.value.dst == syn.src
            && read.value.seqno == isn && read.value.ack == Wrap(syn.seqno + 1) && read.value.flags == 0x12
            && read.value.window == p.synWindow && read.value.payload == []
            && |packet| >= 40 && Get16(packet, 4) == ipId && Get16(packet, 6) == (if df then 0x4000 else 0)
            && var end := 20 + packet[32] / 0x10 * 4;
               && 40 <= end <= |packet|
               && ReadOptions(packet[40..end]) == Some(AnswerOptions(p, syn, ts, mss, p.synOptions))
  {
    hide Emitted, ParseIpv4, AsRead, Packet, Get16, Wrap, ReadOptions, Be32, Be16;
    var f := AnswerFields(p, local, syn, isn, ts, df, mss, ipId);
    EmittedReads(SynAck, p, f, [], room);
    SegFields(SynAck, p, f, []);
    FlagsShown(SynAck, p, f, []);
    EmittedIs(SynAck, p, f, [], room);
    HeaderShows(SynAck, p, f, []);
    PacketOptions(SynAck, p, f, []);
    AnswerOptionsAre(p, syn, ts, mss, p.synOptions, f);
  }

  function AnswerOptions(p: Profile, syn: Segment, ts: u32, mss: u16, opts: seq<SynOption>): seq<Opt> {
    if opts == [] then []
    else
      var first := match opts[0]
        case Mss => Opt(2, Be16(Min(mss, p.mss)))
        case SackPermitted => Opt(4, [])
        case Timestamps => Opt(8, Be32(ts) + Be32(syn.tsVal.GetOr(0)))
        case Nop => Opt(1, [])
        case EndOfList => Opt(0, [])
        case WindowScale => Opt(3, [p.windowScale.GetOr(0)]);
      [first] + AnswerOptions(p, syn, ts, mss, opts[1..])
  }

  lemma {:induction false} AnswerOptionsAre(p: Profile, syn: Segment, ts: u32, mss: u16, opts: seq<SynOption>, f: Fields)
    requires f.tsVal == ts && f.tsEcr == syn.tsVal.GetOr(0) && f.mss == Min(mss, p.mss)
    ensures AllAnnounced(opts, SynAck, p, f) == AnswerOptions(p, syn, ts, mss, opts)
  {
    hide Be16, Be32;
    if opts != [] {
      AnswerOptionsAre(p, syn, ts, mss, opts[1..], f);
    }
  }

  // ---- The packet counter --------------------------------------------------------------------

  lemma ActCounts(s: State, e: Event)
    ensures Act(s, e).state.counter == if Act(s, e).wrote.Ok? then Wrap(s.counter + 1) else s.counter
  {
    hide Emitted, NextSeq, NextAck, Timestamp, Wrap, FieldsOf, SynFields, RecordHeader, Receive;
    if e.Arrival? {
      ReceiveKeepsCounter(s, e.seg);
    }
  }

  lemma ReceiveKeepsCounter(s: State, seg: Segment)
    ensures Receive(s, seg).counter == s.counter
  {
    hide Segment.Has, Occupied, Wrap;
  }

  /** Over every run the counter that varies the look of packets counts the packets written, mod 2^32. */
  lemma {:induction false} CounterCountsPackets(s: State, es: seq<Event>)
    ensures CountsFrom(s.counter, After(s, es))
  {
    if es == [] {
      SmallWrap(s.counter);
    } else {
      hide Step, CountsFrom;
      CounterCountsPackets(s, es[..|es| - 1]);
      CountsOn(s.counter, After(s, es[..|es| - 1]), es[|es| - 1]);
    }
  }

  /** The counter began at `n` and has counted every packet since. */
  predicate CountsFrom(n: u32, r: Run) {
    r.state.counter == Wrap(n + |r.trace|)
  }

  lemma CountsOn(n: u32, r: Run, e: Event)
    requires CountsFrom(n, r)
    ensures CountsFrom(n, Step(r, e))
  {
    hide Step, Wrap;
    StepCounts(r, e);
    WrapMore(n + |r.trace|, 1);
  }

  lemma StepCounts(r: Run, e: Event)
    ensures var n := |Step(r, e).trace|;
            || (n == |r.trace| && Step(r, e).state.counter == r.state.counter)
            || (n == |r.trace| + 1 && Step(r, e).state.counter == Wrap(r.state.counter + 1))
  {
    hide Act, ParseIpv4, Wrap, Adds, Get16;
    ActCounts(r.state, e);
    if Act(r.state, e).wrote.Ok? {
      ActShows(r.state, e);
    }
  }

  lemma SmallWrap(n: u32)
    ensures Wrap(n + 0) == n
  {
  }

  /** Opaque numbers describe nothing: a step of 128 for each packet, and an acknowledgement drifting beside it. */
  lemma OpaqueNumbers(s: State, e: Event)
    requires s.cfg.sequencing.Opaque? && Act(s, e).wrote.Ok? && (e.PureAck? || e.SendData? || e.SendBare? || e.Shut?)
    ensures var read := ParseIpv4(Act(s, e).wrote.value);
            && read.Some? && read.value.seqno == Wrap(s.localIsn + 0x80 * s.counter)
            && read.value.ack == Wrap(s.localIsn + 0x80 * s.counter - s.counter % 0x400 + 1400)
  {
    hide ParseIpv4, Emitted, AsRead, Timestamp, RecordHeader, IsReady;
    var p := s.cfg.profile;
    match e
    case PureAck(room, now) => ReadsNumbers(Ack, p, FieldsOf(s, Ack, now, false), [], room);
    case Shut(room, now) => ReadsNumbers(Fin, p, FieldsOf(s, Fin, now, true), [], room);
    case SendBare(payload, room, now, push) => ReadsNumbers(Data, p, FieldsOf(s, Data, now, push), payload, room);
    case SendData(payload, room, now, push, record) =>
      var total := RecordTotal(s, payload, record);
      var header := if s.recordLeft == 0 then RecordHeader(total) else Some([]);
      if s.cfg.records {
        ReadsNumbers(Data, p, FieldsOf(s.(recordLeft := Max(total - |payload|, 0)), Data, now, push), header.value + payload, room);
      } else {
        ReadsNumbers(Data, p, FieldsOf(s, Data, now, push), payload, room);
      }
    case _ =>
  }

  lemma ReadsNumbers(kind: Kind, p: Profile, f: Fields, payload: seq<byte>, room: nat)
    requires Emitted(kind, p, f, payload, room).Ok?
    ensures var read := ParseIpv4(Emitted(kind, p, f, payload, room).value);
            read.Some? && read.value.seqno == f.seqno && read.value.ack == f.ack
  {
    hide ParseIpv4, Emitted, AsRead;
    EmittedReads(kind, p, f, payload, room);
    SegFields(kind, p, f, payload);
  }
}
