/** The chain of records an observer walks, over whole runs of an endpoint that wears them. */
module RecordChains {
  import opened Bytes
  import opened Segments
  import opened Records
  import opened Endpoints
  import opened Conversations

  /** Everything a run has put on the stream, in order. */
  function StreamOf(trace: seq<Segment>): seq<byte> {
    if trace == [] then [] else StreamOf(trace[..|trace| - 1]) + trace[|trace| - 1].payload
  }

  /** The count of bytes to come is what an observer still expects. */
  predicate InStep(s: State, stream: seq<byte>) {
    Outstanding(stream) == Some(s.recordLeft)
  }

  /** The bytes a data segment puts on the stream: a header only at a boundary. */
  function Wearing(s: State, payload: seq<byte>, record: Option<nat>): seq<byte>
    requires RecordHeader(RecordTotal(s, payload, record)).Some? || s.recordLeft > 0
  {
    (if s.recordLeft == 0 then RecordHeader(RecordTotal(s, payload, record)).value else []) + payload
  }

  /** A data segment that went out keeps the chain exactly when it fitted its record, or overran it by
      whole records of its own. */
  lemma DataChainExact(s: State, stream: seq<byte>, payload: seq<byte>, record: Option<nat>)
    requires InStep(s, stream)
    requires RecordHeader(RecordTotal(s, payload, record)).Some? || s.recordLeft > 0
    ensures var total := RecordTotal(s, payload, record);
            InStep(s.(recordLeft := Max(total - |payload|, 0)), stream + Wearing(s, payload, record))
            <==> |payload| <= total || Outstanding(payload[total..]) == Some(0)
  {
    hide Outstanding, RecordHeader;
    var total := RecordTotal(s, payload, record);
    var own, over := payload[..Min(total, |payload|)], payload[Min(total, |payload|)..];
    assert payload == own + over;
    if s.recordLeft == 0 {
      OpensRecord(stream, total, own, over);
      assert RecordHeader(total).value + payload == RecordHeader(total).value + own + over;
    } else {
      StaysInRecord(stream, total, own, over);
    }
  }

  /** A header and a record's worth of bytes at a boundary, and `over` beyond them. */
  lemma OpensRecord(stream: seq<byte>, total: nat, own: seq<byte>, over: seq<byte>)
    requires Outstanding(stream) == Some(0) && RecordHeader(total).Some?
    requires |own| <= total && (over != [] ==> |own| == total)
    ensures Outstanding(stream + (RecordHeader(total).value + own + over))
            == if over == [] then Some(total - |own|) else Outstanding(over)
  {
    hide Outstanding, RecordHeader;
    var record := RecordHeader(total).value + own;
    OutstandingOpens(total, own);
    OutstandingRestarts(stream, record);
    Overrun(stream + record, over, total - |own|);
    assert stream + (record + over) == stream + record + over;
  }

  /** Bytes of the open record, and `over` beyond it. */
  lemma StaysInRecord(stream: seq<byte>, left: nat, own: seq<byte>, over: seq<byte>)
    requires Outstanding(stream) == Some(left) && |own| <= left && (over != [] ==> |own| == left)
    ensures Outstanding(stream + ([] + (own + over))) == if over == [] then Some(left - |own|) else Outstanding(over)
  {
    hide Outstanding;
    OutstandingContinues(stream, own);
    Overrun(stream + own, over, left - |own|);
    assert stream + ([] + (own + over)) == stream + own + over;
  }

  lemma Overrun(stream: seq<byte>, over: seq<byte>, left: nat)
    requires Outstanding(stream) == Some(left) && (over != [] ==> left == 0)
    ensures Outstanding(stream + over) == if over == [] then Some(left) else Outstanding(over)
  {
    hide Outstanding;
    if over == [] {
      assert stream + over == stream;
    } else {
      OutstandingRestarts(stream, over);
    }
  }

  /** A data segment that did not go out keeps the chain exactly when the count did not move. */
  lemma FailedSendExact(s: State, stream: seq<byte>, payload: seq<byte>, room: nat, now: u64, push: bool, record: Option<nat>)
    requires InStep(s, stream) && DataStep(s, payload, room, now, push, record).wrote.Err?
    ensures InStep(DataStep(s, payload, room, now, push, record).state, stream)
            <==> || !s.cfg.records || !IsReady(s)
                 || (if s.recordLeft == 0 then !(|payload| < RecordTotal(s, payload, record) <= MAX_SPAN) else payload == [])
  {
    hide Emitted, Outstanding;
  }

  /** A buffer too short for the first segment of a record of a hundred bytes: nothing is written, but
      the count has already moved. */
  lemma ShortBufferLosesCount(s: State, stream: seq<byte>, now: u64)
    requires s.cfg.records && IsReady(s) && s.recordLeft == 0 && InStep(s, stream)
    ensures var o := DataStep(s, [], 0, now, false, Some(100));
            o.wrote.Err? && !InStep(o.state, stream)
  {
    hide Outstanding;
  }

  /** Two bytes where the open record lacks one: the second is read as the start of a record. */
  lemma OverrunBreaksChain(s: State, stream: seq<byte>)
    requires s.recordLeft == 1 && InStep(s, stream)
    ensures !InStep(s.(recordLeft := 0), stream + Wearing(s, [7, 7], None))
  {
    DataChainExact(s, stream, [7, 7], None);
    assert [7, 7][1..] == [7];
  }

  /** How much of a decoy flight is still to be sent: what its first part left open, less the rest. */
  ghost function Debt(s: State, debt: nat, e: Event): nat {
    match e
    case SendBare(payload, room, now, push) =>
      if BareStep(s, payload, room, now, push).wrote.Err? then debt
      else if debt == 0 then Outstanding(payload).GetOr(0)
      else Max(debt - |payload|, 0)
    case _ => debt
  }

  /** What the callers keep to: data that fits its record and never splits a decoy flight, a failed send
      that moved nothing, and flights of records, in however many parts, begun at boundaries only. */
  ghost predicate RecordSafe(s: State, debt: nat, e: Event) {
    match e
    case SendData(payload, room, now, push, record) =>
      var o := DataStep(s, payload, room, now, push, record);
      if o.wrote.Ok? then debt == 0 && |payload| <= RecordTotal(s, payload, record) else o.state.recordLeft == s.recordLeft
    case SendBare(payload, room, now, push) =>
      BareStep(s, payload, room, now, push).wrote.Ok? ==>
        AtRecordBoundary(s) && if debt == 0 then Outstanding(payload).Some? else |payload| <= debt
    case _ => true
  }

  ghost function DebtAfter(s: State, es: seq<Event>): nat {
    if es == [] then 0
    else
      var front := es[..|es| - 1];
      Debt(After(s, front).state, DebtAfter(s, front), es[|es| - 1])
  }

  ghost predicate SafeRun(s: State, es: seq<Event>) {
    || es == []
    || var front := es[..|es| - 1];
       SafeRun(s, front) && RecordSafe(After(s, front).state, DebtAfter(s, front), es[|es| - 1])
  }

  /** An observer expects what the endpoint's open record lacks, or what the decoy flight does. */
  predicate Owes(s: State, debt: nat, stream: seq<byte>) {
    Outstanding(stream) == Some(s.recordLeft + debt) && (s.recordLeft == 0 || debt == 0)
  }

  /** What each event adds to the stream. */
  function Adds(s: State, e: Event): seq<byte> {
    match e
    case SendData(payload, room, now, push, record) =>
      if DataStep(s, payload, room, now, push, record).wrote.Err? then []
      else if s.cfg.records then Wearing(s, payload, record) else payload
    case SendBare(payload, room, now, push) =>
      if BareStep(s, payload, room, now, push).wrote.Ok? then payload else []
    case _ => []
  }

  lemma StreamGrows(r: Run, e: Event)
    ensures StreamOf(Step(r, e).trace) == StreamOf(r.trace) + Adds(r.state, e)
  {
    hide ParseIpv4, Emitted, AsRead, NextSeq, Timestamp, Wrap, Receive;
    var s, o := r.state, Act(r.state, e);
    AddsPayload(s, e);
    if o.wrote.Ok? {
      var seg := ParseIpv4(o.wrote.value).value;
      assert (r.trace + [seg])[..|r.trace|] == r.trace;
    }
  }

  lemma AddsPayload(s: State, e: Event)
    ensures var o := Act(s, e);
            && (o.wrote.Ok? ==> ParseIpv4(o.wrote.value).Some? && ParseIpv4(o.wrote.value).value.payload == Adds(s, e))
            && (o.wrote.Err? ==> Adds(s, e) == [])
  {
    hide ParseIpv4, Emitted, AsRead, NextSeq, Timestamp, Wrap, Receive;
    var p := s.cfg.profile;
    match e
    case Open(room, now) =>
      if Act(s, e).wrote.Ok? { OpenPayload(s, room, now); }
    case Answer(ack, room, now) =>
      if Act(s, e).wrote.Ok? {
        PayloadRead(SynAck, p, FieldsOf(s, SynAck, now, false).(seqno := Wrap(NextSeq(s) - 1), ack := ack), [], room);
      }
    case PureAck(room, now) =>
      if Act(s, e).wrote.Ok? { PayloadRead(Ack, p, FieldsOf(s, Ack, now, false), [], room); }
    case SendData(payload, room, now, push, record) =>
      if Act(s, e).wrote.Ok? { DataPayload(s, payload, room, now, push, record); }
    case SendBare(payload, room, now, push) =>
      if Act(s, e).wrote.Ok? { PayloadRead(Data, p, FieldsOf(s, Data, now, push), payload, room); }
    case Shut(room, now) =>
      if Act(s, e).wrote.Ok? { PayloadRead(Fin, p, FieldsOf(s, Fin, now, true), [], room); }
    case _ =>
  }

  lemma OpenPayload(s: State, room: nat, now: u64)
    requires Act(s, Open(room, now)).wrote.Ok?
    ensures var read := ParseIpv4(Act(s, Open(room, now)).wrote.value); read.Some? && read.value.payload == []
  {
    hide ParseIpv4, Emitted, AsRead, NextSeq, Timestamp, Wrap;
    var p, ts := s.cfg.profile, s.synTs.GetOr(Timestamp(s.tsBase, now, s.cfg.profile.tsHz));
    if s.cfg.role.Responder? {
      PayloadRead(SynAck, p, FieldsOf(s, SynAck, now, false), [], room);
    } else {
      var seqno := if s.cfg.carrier.Handshake? then s.localIsn else Wrap(NextSeq(s) - 1);
      PayloadRead(Syn, p, SynFields(s, seqno, ts, now), [], room);
    }
  }

  lemma DataPayload(s: State, payload: seq<byte>, room: nat, now: u64, push: bool, record: Option<nat>)
    requires DataStep(s, payload, room, now, push, record).wrote.Ok?
    ensures var read := ParseIpv4(DataStep(s, payload, room, now, push, record).wrote.value);
            read.Some? && read.value.payload == if s.cfg.records then Wearing(s, payload, record) else payload
  {
    hide ParseIpv4, Emitted, AsRead, NextSeq, Timestamp, Wrap;
    var total := RecordTotal(s, payload, record);
    var before := if s.cfg.records then s.(recordLeft := Max(total - |payload|, 0)) else s;
    PayloadRead(Data, s.cfg.profile, FieldsOf(before, Data, now, push),
                if s.cfg.records then Wearing(s, payload, record) else payload, room);
  }

  lemma PayloadRead(kind: Kind, p: Profile, f: Fields, payload: seq<byte>, room: nat)
    requires Emitted(kind, p, f, payload, room).Ok?
    ensures var read := ParseIpv4(Emitted(kind, p, f, payload, room).value); read.Some? && read.value.payload == payload
  {
    EmittedReads(kind, p, f, payload, room);
    SegFields(kind, p, f, payload);
  }

  lemma CountOnlyData(s: State, e: Event)
    requires !e.SendData?
    ensures Act(s, e).state.recordLeft == s.recordLeft && Act(s, e).state.cfg == s.cfg
  {
    hide Emitted, NextSeq, NextAck, Timestamp, Wrap, Segment.Has, Occupied, FieldsOf, SynFields;
  }

  lemma StepInStep(s: State, debt: nat, e: Event, stream: seq<byte>)
    requires s.cfg.records && Owes(s, debt, stream) && RecordSafe(s, debt, e)
    ensures Owes(Act(s, e).state, Debt(s, debt, e), stream + Adds(s, e)) && Act(s, e).state.cfg == s.cfg
  {
    hide Outstanding, DataStep, BareStep, Owes, RecordSafe, HandshakeStep, AnswerStep, AckStep, CloseStep;
    match e
    case SendData(payload, room, now, push, record) =>
      DataInStep(s, debt, payload, room, now, push, record, stream);
    case SendBare(payload, room, now, push) =>
      CountOnlyData(s, e);
      BareInStep(s, debt, payload, room, now, push, stream);
      SameCount(s, Act(s, e).state, Debt(s, debt, e), stream + Adds(s, e));
    case _ =>
      CountOnlyData(s, e);
      assert stream + Adds(s, e) == stream;
      SameCount(s, Act(s, e).state, debt, stream);
  }

  lemma SameCount(s: State, t: State, debt: nat, stream: seq<byte>)
    requires Owes(s, debt, stream) && t.recordLeft == s.recordLeft
    ensures Owes(t, debt, stream)
  {
  }

  lemma DataInStep(s: State, debt: nat, payload: seq<byte>, room: nat, now: u64, push: bool, record: Option<nat>,
                   stream: seq<byte>)
    requires s.cfg.records && Owes(s, debt, stream) && RecordSafe(s, debt, SendData(payload, room, now, push, record))
    ensures var o := DataStep(s, payload, room, now, push, record);
            Owes(o.state, debt, stream + Adds(s, SendData(payload, room, now, push, record))) && o.state.cfg == s.cfg
  {
    hide Emitted, Outstanding, FieldsOf, Wrap;
    if DataStep(s, payload, room, now, push, record).wrote.Ok? {
      DataChainExact(s, stream, payload, record);
    } else {
      assert stream + [] == stream;
    }
  }

  lemma BareInStep(s: State, debt: nat, payload: seq<byte>, room: nat, now: u64, push: bool, stream: seq<byte>)
    requires s.cfg.records && Owes(s, debt, stream) && RecordSafe(s, debt, SendBare(payload, room, now, push))
    ensures Owes(s, Debt(s, debt, SendBare(payload, room, now, push)), stream + Adds(s, SendBare(payload, room, now, push)))
  {
    hide Emitted, Outstanding, BareStep;
    if BareStep(s, payload, room, now, push).wrote.Err? {
      assert stream + [] == stream;
    } else if debt == 0 {
      OutstandingRestarts(stream, payload);
    } else {
      OutstandingContinues(stream, payload);
    }
  }

  /** Over every such run, the stream is a chain of records with exactly the counted bytes to come, and
      it is complete exactly when the endpoint is at a boundary with no decoy flight half sent. */
  lemma {:induction false} RunInStep(s: State, es: seq<Event>)
    requires s.cfg.records && s.recordLeft == 0 && SafeRun(s, es)
    ensures var r, debt := After(s, es), DebtAfter(s, es);
            && r.state.cfg.records
            && Owes(r.state, debt, StreamOf(r.trace))
            && (AtRecordBoundary(r.state) && debt == 0 <==> Outstanding(StreamOf(r.trace)) == Some(0))
  {
    if es == [] {
      StartsInStep(s);
    } else {
      hide Outstanding, RecordSafe, Debt, Owes, Step;
      var front, e := es[..|es| - 1], es[|es| - 1];
      RunInStep(s, front);
      RunSteps(After(s, front), DebtAfter(s, front), e);
    }
    BoundaryIsComplete(After(s, es), DebtAfter(s, es));
  }

  lemma StartsInStep(s: State)
    requires s.recordLeft == 0
    ensures Owes(s, 0, StreamOf([]))
  {
  }

  lemma RunSteps(r: Run, debt: nat, e: Event)
    requires r.state.cfg.records && Owes(r.state, debt, StreamOf(r.trace)) && RecordSafe(r.state, debt, e)
    ensures Step(r, e).state.cfg.records && Owes(Step(r, e).state, Debt(r.state, debt, e), StreamOf(Step(r, e).trace))
  {
    hide Act, RecordSafe, Debt, Owes, Adds, StreamOf, ParseIpv4;
    StreamGrows(r, e);
    StepInStep(r.state, debt, e, StreamOf(r.trace));
  }

  lemma BoundaryIsComplete(r: Run, debt: nat)
    requires r.state.cfg.records && Owes(r.state, debt, StreamOf(r.trace))
    ensures AtRecordBoundary(r.state) && debt == 0 <==> Outstanding(StreamOf(r.trace)) == Some(0)
  {
    hide Outstanding, StreamOf;
  }

  /** A payload sent with a header is unwrapped from the segment that carried it. */
  lemma HeaderedPayloadUnwraps(s: State, payload: seq<byte>, room: nat, now: u64, push: bool, record: Option<nat>)
    requires s.cfg.records && s.recordLeft == 0
    requires DataStep(s, payload, room, now, push, record).wrote.Ok?
    ensures var read := ParseIpv4(DataStep(s, payload, room, now, push, record).wrote.value);
            && read.Some?
            && (UnwrapRecord(read.value.payload) == Some(payload) <==> |payload| <= RecordTotal(s, payload, record))
  {
    hide ParseIpv4, Emitted;
    DataPayload(s, payload, room, now, push, record);
    UnwrapOpened(RecordTotal(s, payload, record), payload);
  }
}
