/** The `Endpoint` of `endpoint.rs` as the object it is: fields changed in place, segments written
    into a caller's buffer, each operation held to the step it makes on the endpoint's value. */
module Connections {
  import opened Bytes
  import opened Segments
  import opened Records
  import opened Endpoints
  import opened Emission

  lemma OnePart(payload: seq<byte>)
    ensures Joined([payload]) == payload
  {
    assert Joined([payload]) == Joined([]) + payload;
  }

  lemma TwoParts(header: seq<byte>, payload: seq<byte>)
    ensures Joined([header, payload]) == header + payload
  {
    assert [header, payload][..1] == [header];
    OnePart(header);
  }

  /** Emitting moves only the packet counter and what is owed. */
  lemma EmitCounts(s: State, kind: Kind, payload: seq<byte>, room: nat, now: u64, push: bool)
    ensures var t := Emit(s, kind, payload, room, now, push).state;
            t == s.(counter := t.counter, unacked := t.unacked)
  {
    hide Emitted, FieldsOf;
  }

  class Endpoint {
    const cfg: Config
    var remote: Addr
    var phase: Phase
    var localIsn: u32
    var sent: u32
    var peerNext: Option<u32>
    var relearn: bool
    var synSeq: Option<u32>
    var synTs: Option<u32>
    var tsBase: u32
    var peerTsVal: u32
    var counter: u32
    var synCounted: bool
    var recordLeft: nat
    var unacked: u16

    /** The endpoint as a value. */
    function View(): State
      reads this
    {
      State(cfg, remote, phase, localIsn, sent, peerNext, relearn, synSeq, synTs, tsBase, peerTsVal, counter,
            synCounted, recordLeft, unacked)
    }

    constructor (cfg: Config, remote: Addr, isn: u32, peerIsn: u32, tsBase: u32, mss: Option<u16>)
      ensures View() == New(cfg, remote, isn, peerIsn, tsBase, mss)
    {
      var waits := cfg.carrier.Handshake?;
      this.cfg := cfg.(mss := if mss.Some? && mss.value < cfg.profile.mss then mss.value else cfg.profile.mss);
      this.remote, phase := remote, if waits then Idle else Established;
      localIsn, sent := isn, 0;
      peerNext, relearn := if waits then None else Some(peerIsn), true;
      synSeq, synTs := None, None;
      this.tsBase, peerTsVal, counter := tsBase, 0, 0;
      synCounted, recordLeft, unacked := !waits, 0, 0;
    }

    /** `emit_parts`. */
    method EmitPieces(kind: Kind, parts: seq<seq<byte>>, out: array<byte>, now: u64, push: bool) returns (r: Result<nat>)
      modifies this, out
      ensures var o := Emit(old(View()), kind, Joined(parts), out.Length, now, push);
              View() == o.state && Written(o.wrote, r, old(out[..]), out[..])
    {
      hide Emitted, FieldsOf;
      r := EmitParts(kind, cfg.profile, FieldsOf(View(), kind, now, push), parts, out);
      if r.Ok? {
        counter := Wrap(counter + 1);
        unacked := 0;
      }
    }

    /** `emit_raw`. */
    method EmitRaw(kind: Kind, payload: seq<byte>, out: array<byte>, now: u64, push: bool) returns (r: Result<nat>)
      modifies this, out
      ensures var o := Emit(old(View()), kind, payload, out.Length, now, push);
              View() == o.state && Written(o.wrote, r, old(out[..]), out[..])
    {
      hide Emit, Written;
      OnePart(payload);
      r := EmitPieces(kind, [payload], out, now, push);
    }

    method Syn(seqno: u32, out: array<byte>, now: u64) returns (r: Result<nat>)
      modifies this, out
      ensures var o := SynStep(old(View()), seqno, out.Length, now);
              View() == o.state && Written(o.wrote, r, old(out[..]), out[..])
    {
      hide Emitted, FieldsOf, Timestamp;
      var ts := synTs.GetOr(Timestamp(tsBase, now, cfg.profile.tsHz));
      var f := SynFields(View(), seqno, ts, now);
      ghost var before := View();
      synTs := Some(ts);
      OnePart([]);
      r := EmitParts(Kind.Syn, cfg.profile, f, [[]], out);
      if r.Ok? {
        counter := Wrap(counter + 1);
        synSeq := Some(seqno);
      }
    }

    /** `handshake`: `None` when no opening segment is due, and then nothing changes. */
    method OpenNext(out: array<byte>, now: u64) returns (r: Option<Result<nat>>)
      modifies this, out
      ensures var step := HandshakeStep(old(View()), out.Length, now);
              match step
              case None => r == None && View() == old(View()) && out[..] == old(out[..])
              case Some(o) => r.Some? && View() == o.state && Written(o.wrote, r.value, old(out[..]), out[..])
    {
      hide SynStep, Emit, NextSeq;
      if cfg.carrier.FakeHandshake? && cfg.role.Initiator? && synSeq.None? {
        var n := Syn(Wrap(NextSeq(View()) - 1), out, now);
        return Some(n);
      } else if cfg.carrier.Handshake? && cfg.role.Initiator? && (phase.Idle? || phase.SynSent?) {
        var n := Syn(localIsn, out, now);
        if n.Ok? {
          phase := SynSent;
        }
        return Some(n);
      } else if cfg.carrier.Handshake? && cfg.role.Responder? && phase.SynReceived? {
        var n := EmitRaw(SynAck, [], out, now, false);
        return Some(n);
      }
      return None;
    }

    /** `number_syn`. */
    method NumberFrom(now: u64, isnFor: u32 -> u32)
      modifies this
      ensures View() == NumberSyn(old(View()), now, isnFor)
    {
      if synSeq.Some? {
        return;
      }
      var ts := Timestamp(tsBase, now, cfg.profile.tsHz);
      synTs := Some(ts);
      localIsn := isnFor(ts);
    }

    method Answer(ack: u32, out: array<byte>, now: u64) returns (r: Result<nat>)
      modifies this, out
      ensures var o := AnswerStep(old(View()), ack, out.Length, now);
              View() == o.state && Written(o.wrote, r, old(out[..]), out[..])
    {
      hide Emitted, FieldsOf, NextSeq;
      OnePart([]);
      var f := FieldsOf(View(), SynAck, now, false).(seqno := Wrap(NextSeq(View()) - 1), ack := ack);
      r := EmitParts(SynAck, cfg.profile, f, [[]], out);
      if r.Ok? {
        counter := Wrap(counter + 1);
      }
    }

    method Acknowledge(out: array<byte>, now: u64) returns (r: Result<nat>)
      modifies this, out
      ensures var o := AckStep(old(View()), out.Length, now);
              View() == o.state && Written(o.wrote, r, old(out[..]), out[..])
    {
      hide Emit, Written;
      r := EmitRaw(Kind.Ack, [], out, now, false);
    }

    /** The writing that `data` and `bare` share: a segment, and its bytes counted once it is out. */
    method Send(parts: seq<seq<byte>>, out: array<byte>, now: u64, push: bool) returns (r: Result<nat>)
      modifies this, out
      ensures var o := Sending(old(View()), Joined(parts), out.Length, now, push);
              View() == o.state && Written(o.wrote, r, old(out[..]), out[..])
    {
      hide Emit, Wrap;
      EmitCounts(View(), Data, Joined(parts), out.Length, now, push);
      r := EmitPieces(Data, parts, out, now, push);
      if r.Ok? {
        sent := Wrap(sent + |Joined(parts)|);
      }
    }

    /** `data`. */
    method SendData(payload: seq<byte>, out: array<byte>, now: u64, push: bool, record: Option<nat>) returns (r: Result<nat>)
      modifies this, out
      ensures var o := DataStep(old(View()), payload, out.Length, now, push, record);
              View() == o.state && Written(o.wrote, r, old(out[..]), out[..])
    {
      hide Sending, RecordHeader, IsReady, Joined;
      if !IsReady(View()) {
        return Err(NotEstablished);
      }
      var opening := cfg.records && recordLeft == 0;
      var header := None;
      if opening {
        var total := record.GetOr(|payload|);
        header := RecordHeader(total);
        if header.None? {
          return Err(TooLong(total));
        }
      }
      if cfg.records {
        var total := if opening then record.GetOr(|payload|) else recordLeft;
        recordLeft := Max(total - |payload|, 0);
      }
      if header.Some? {
        TwoParts(header.value, payload);
        r := Send([header.value, payload], out, now, push);
      } else {
        OnePart(payload);
        assert [] + payload == payload;
        r := Send([payload], out, now, push);
      }
    }

    method Bare(payload: seq<byte>, out: array<byte>, now: u64, push: bool) returns (r: Result<nat>)
      modifies this, out
      ensures var o := BareStep(old(View()), payload, out.Length, now, push);
              View() == o.state && Written(o.wrote, r, old(out[..]), out[..])
    {
      hide Sending, IsReady, Joined;
      if !IsReady(View()) {
        return Err(NotEstablished);
      }
      OnePart(payload);
      r := Send([payload], out, now, push);
    }

    method Close(out: array<byte>, now: u64) returns (r: Result<nat>)
      modifies this, out
      ensures var o := CloseStep(old(View()), out.Length, now);
              View() == o.state && Written(o.wrote, r, old(out[..]), out[..])
    {
      hide Emit;
      EmitCounts(View(), Fin, [], out.Length, now, true);
      r := EmitRaw(Fin, [], out, now, true);
      if r.Ok? {
        sent := Wrap(sent + 1);
        phase := Closed;
      }
    }

    method MarkEstablished()
      modifies this
      ensures View() == Establish(old(View()))
    {
      phase := Established;
      if !synCounted {
        synCounted := true;
        sent := Wrap(sent + 1);
      }
    }

    method MoveTo(end: u32)
      modifies this
      ensures View() == Advance(old(View()), end)
    {
      if peerNext.None? {
        return;
      }
      var next := peerNext.value;
      var ahead := Wrap(end - next);
      var forward := ahead != 0 && ahead < 0x8000_0000;
      var restarted := !forward && Wrap(next - end) > REORDER_SPAN;
      if relearn || forward || restarted {
        peerNext := Some(end);
        relearn := false;
      }
    }

    /** `rejoin`. */
    method TakeUp(seg: Segment, tsBase: u32)
      modifies this
      ensures View() == Rejoin(old(View()), seg, tsBase)
    {
      hide Wrap, Occupied;
      this.tsBase := tsBase;
      localIsn := Wrap(seg.ack - sent);
      synCounted := true;
      phase := Established;
      remote := seg.src;
      peerNext := Some(Wrap(seg.seqno + Occupied(seg)));
      relearn := false;
      if seg.tsVal.Some? {
        peerTsVal := seg.tsVal.value;
      }
    }

    /** `set_remote`. */
    method MoveRemote(remote: Addr)
      modifies this
      ensures View() == SetRemote(old(View()), remote)
    {
      if remote != this.remote {
        relearn := true;
      }
      this.remote := remote;
    }

    method OnReceive(seg: Segment) returns (handed: Option<seq<byte>>)
      modifies this
      ensures View() == Receive(old(View()), seg)
      ensures handed == Handed(old(View()), seg)
    {
      hide Establish, Advance, Segment.Has, Occupied, Wrap;
      if seg.payload != [] {
        unacked := Min(unacked + 1, 0xFFFF);
      }
      if seg.tsVal.Some? {
        peerTsVal := seg.tsVal.value;
      }
      if seg.Has(RST) {
        phase := Closed;
        return None;
      }
      if seg.Has(SYN) {
        OnSyn(seg);
        return None;
      }
      if peerNext.None? {
        return None;
      }
      if phase.SynReceived? && seg.Has(ACK) {
        MarkEstablished();
      }
      MoveTo(Wrap(seg.seqno + Occupied(seg)));
      if seg.Has(FIN) {
        phase := Closed;
        return None;
      }
      return if seg.payload == [] then None else Some(seg.payload);
    }

    /** The part of `on_receive` for a segment that opens or answers. */
    method OnSyn(seg: Segment)
      modifies this
      ensures View() == HearSyn(old(View()), seg)
    {
      hide Establish, Advance, Segment.Has;
      if seg.Has(ACK) {
        if synSeq.Some? && seg.ack == Wrap(synSeq.value + 1) {
          if peerNext.None? {
            peerNext := Some(Wrap(seg.seqno + 1));
            relearn := false;
          } else {
            MoveTo(Wrap(seg.seqno + 1));
          }
          if phase.SynSent? {
            MarkEstablished();
          }
        }
      } else if cfg.role.Responder? && peerNext.None? {
        peerNext := Some(Wrap(seg.seqno + 1));
        phase := SynReceived;
      }
    }
  }

  /** `answer_syn`: a SYN+ACK from the SYN alone, with no endpoint behind it. */
  method AnswerStateless(p: Profile, local: Addr, syn: Segment, isn: u32, ts: u32, df: bool, mss: u16, ipId: u16,
                         out: array<byte>) returns (r: Result<nat>)
    modifies out
    ensures Written(AnswerSyn(p, local, syn, isn, ts, df, mss, ipId, out.Length), r, old(out[..]), out[..])
  {
    hide Emitted, AnswerFields;
    OnePart([]);
    r := EmitParts(SynAck, p, AnswerFields(p, local, syn, isn, ts, df, mss, ipId), [[]], out);
  }
}
