/** The `Coalescer` object of `gso.rs` and the loop that drives it. */
module Coalescing {
  import opened Bytes
  import opened Checksum
  import opened Gso

  ghost predicate AllParse(held: seq<seq<byte>>) {
    forall i :: 0 <= i < |held| ==> Parse(held[i]).Some?
  }

  ghost function Parsed(held: seq<seq<byte>>): (ps: seq<Packet>)
    requires AllParse(held)
    ensures |ps| == |held| && forall i :: 0 <= i < |held| ==> ps[i] == Parse(held[i]).value
  {
    seq(|held|, i requires 0 <= i < |held| => Parse(held[i]).value)
  }

  /** A packet going out alone: as it came, without anything past its own length. */
  function Plain(packet: seq<byte>): seq<byte> {
    if Parse(packet).Some? then Parse(packet).value.Wire() else packet
  }

  /** One write to the device: its `virtio_net_hdr`, its frame, how many packets went into it, and whether
      it passed the coalescer by. */
  datatype Written = Written(count: nat, header: seq<byte>, frame: seq<byte>, direct: bool)

  /** The write stands for exactly these packets, in this order. */
  ghost predicate Carries(w: Written, packets: seq<seq<byte>>) {
    && w.count == |packets| > 0
    && Splittable(w.header, w.frame)
    && (|packets| == 1 ==>
          w.header == Zeros(VNET_HDR_LEN) && w.frame == if w.direct then packets[0] else Plain(packets[0]))
    && (|packets| > 1 ==>
          && !w.direct
          && AllParse(packets)
          && w.header[1] != 0 && Completes(w.header, w.frame)
          && Restored(Parsed(packets)[0].Tcp(), Split(w.header, w.frame), Parsed(packets)))
  }

  /** The frame and run being built stand for `held`: one packet nothing here understands, or a run. */
  ghost predicate Holds(run: Option<Run>, frame: seq<byte>, held: seq<seq<byte>>) {
    match run
    case None => held == [frame] && Parse(frame).None?
    case Some(r) => held != [] && AllParse(held) && Describes(r, Parsed(held)) && frame == FrameOf(Parsed(held))
  }

  /** `joins`, over the run being built. */
  predicate MayJoin(run: Option<Run>, pending: bool, packet: seq<byte>)
    requires run.Some? ==> |run.value.lastIp| == IPV4_LEN
  {
    match Parse(packet)
    case None => false
    case Some(next) =>
      ParseWellFormed(packet);
      match run
      case None => !pending && next.payload != []
      case Some(r) =>
        var last := Packet(r.lastIp, r.lastL4, [], r.proto, r.lastSeq);
        && ContinuesAfter(last, r.lastPayload, next, r.gsoSize)
        && IPV4_LEN + r.l4Len + r.payload + |next.payload| <= MAX_IP_TOTAL
  }

  /** `can_hold`. */
  predicate CanHold(packet: seq<byte>) {
    Parse(packet).Some? && Parse(packet).value.payload != []
  }

  /** What can be held is what an empty coalescer takes as joining, and nothing else ever joins. */
  lemma CanHoldExact(run: Option<Run>, pending: bool, packet: seq<byte>)
    requires run.Some? ==> |run.value.lastIp| == IPV4_LEN
    ensures CanHold(packet) <==> MayJoin(None, false, packet)
    ensures MayJoin(run, pending, packet) ==> CanHold(packet)
  {
    if Parse(packet).Some? {
      ParseWellFormed(packet);
    }
  }

  /** A datagram with nothing in it, which does not join even with nothing held. */
  lemma EmptyDatagramDoesNotJoin()
    ensures var b := [0x45, 0, 0, 28, 0, 0, 0, 0, 64, 17, 0, 0, 10, 0, 0, 1, 10, 0, 0, 2, 0, 53, 0, 54, 0, 8, 0, 0];
            Parse(b).Some? && !MayJoin(None, false, b)
  {
    var b := [0x45, 0, 0, 28, 0, 0, 0, 0, 64, 17, 0, 0, 10, 0, 0, 1, 10, 0, 0, 2, 0, 53, 0, 54, 0, 8, 0, 0];
    var ip, rest := b[..20], b[20..28];
    assert Get16(b, 2) == 28 && Get16(b, 6) == 0 && ip[9] == 17;
    assert ParseL4(ip, rest) == Some(Packet(ip, rest[..8], rest[8..], 17, 0));
    assert rest[8..] == [];
  }

  function RunOfOne(p: Packet): Run {
    Run(p.proto, |p.l4|, |p.payload|, 1, |p.payload|, p.ip, p.l4, p.seqno, |p.payload|)
  }

  function Longer(r: Run, next: Packet): Run {
    r.(count := r.count + 1, payload := r.payload + |next.payload|,
       lastL4 := next.l4, lastSeq := next.seqno, lastPayload := |next.payload|)
  }

  /** What `hold` leaves behind, whether or not it was asked first. */
  function AfterHold(run: Option<Run>, frame: seq<byte>, packet: seq<byte>): (Option<Run>, seq<byte>) {
    match Parse(packet)
    case None => (None, packet)
    case Some(next) =>
      match run
      case Some(r) => (Some(Longer(r, next)), frame + next.payload)
      case None => (Some(RunOfOne(next)), next.ip + next.l4 + next.payload)
  }

  lemma HoldSteps(run: Option<Run>, frame: seq<byte>, packet: seq<byte>)
    ensures Parse(packet).None? ==> AfterHold(run, frame, packet) == (None, packet)
    ensures Parse(packet).Some? && run.Some? ==>
              AfterHold(run, frame, packet)
              == (Some(Longer(run.value, Parse(packet).value)), frame + Parse(packet).value.payload)
    ensures Parse(packet).Some? && run.None? ==>
              var p := Parse(packet).value;
              AfterHold(run, frame, packet) == (Some(RunOfOne(p)), p.ip + p.l4 + p.payload)
  {
  }

  class Coalescer {
    var frame: seq<byte>
    var header: seq<byte>
    var run: Option<Run>
    var pending: bool
    /** The packets waiting to be written. */
    ghost var held: seq<seq<byte>>

    ghost predicate Valid()
      reads this
    {
      && |header| == VNET_HDR_LEN
      && (!pending ==> held == [] && run.None?)
      && (pending ==> Holds(run, frame, held))
    }

    constructor ()
      ensures Valid() && held == []
    {
      frame, header, run, pending := [], Zeros(VNET_HDR_LEN), None, false;
      held := [];
    }

    /** Whether `packet` can join what is already held. */
    predicate Joins(packet: seq<byte>)
      requires Valid()
      reads this
    {
      MayJoin(run, pending, packet)
    }

    /** Adds `packet`. What is held stays right exactly when the caller took what was there, or asked
        `joins` and was told yes. */
    method Hold(packet: seq<byte>)
      requires Valid()
      modifies this
      ensures pending && held == old(held) + [packet] && header == old(header)
      ensures (run, frame) == AfterHold(old(run), old(frame), packet)
      ensures Valid() <==> !old(pending) || old(Joins(packet))
    {
      hide MayJoin, Holds, AfterHold, Parse;
      HoldExact(run, frame, if pending then held else [], pending, packet);
      pending := true;
      held := held + [packet];
      HoldSteps(run, frame, packet);
      if Parse(packet).None? {
        frame := packet;
        run := None;
        return;
      }
      var next := Parse(packet).value;
      match run {
        case Some(r) =>
          frame := frame + next.payload;
          run := Some(r.(count := r.count + 1, payload := r.payload + |next.payload|,
                         lastL4 := next.l4, lastSeq := next.seqno, lastPayload := |next.payload|));
        case None =>
          frame := next.ip + next.l4 + next.payload;
          run := Some(Run(next.proto, |next.l4|, |next.payload|, 1, |next.payload|,
                          next.ip, next.l4, next.seqno, |next.payload|));
      }
    }

    /** The frame to write and its header, if anything is held. */
    method Take() returns (taken: Option<(seq<byte>, seq<byte>)>)
      requires Valid()
      modifies this
      ensures Valid() && held == [] && !pending
      ensures taken.None? <==> old(held) == []
      ensures taken.Some? ==> Carries(Written(|old(held)|, taken.value.0, taken.value.1, false), old(held))
    {
      hide Carries, Holds, Finished, HeaderOf, Zeros;
      if !pending {
        return None;
      }
      pending := false;
      var r := run;
      run := None;
      if r.None? || r.value.count == 1 {
        header := Zeros(VNET_HDR_LEN);
        CarriedAlone(r, frame, held);
        held := [];
        return Some((header, frame));
      }
      CarriedTogether(r.value, frame, held);
      held := [];
      var h, f := Finish(frame, r.value);
      frame := f;
      header := h.Extract();
      return Some((header, frame));
    }

    /** Forgets whatever is held. */
    method Clear()
      requires Valid()
      modifies this
      ensures Valid() && held == [] && !pending
    {
      frame, run, pending := [], None, false;
      held := [];
    }
  }

  /** `finish`: the header, and the frame with its headers rewritten for the whole run, or nothing and
      at most some of those bytes rewritten. */
  method Finish(frame: seq<byte>, run: Run) returns (header: Option<seq<byte>>, out: seq<byte>)
    ensures header.Some? <==> Finishable(frame, run)
    ensures header.Some? ==> header.value == HeaderOf(run) && out == Finished(frame, run)
    ensures |out| == |frame|
    ensures forall i :: 0 <= i < |frame| && !FinishTouches(run.proto, i) ==> out[i] == frame[i]
  {
    hide FinishIp, Partial, HeaderOf;
    out := frame;
    var total := IPV4_LEN + run.l4Len + run.payload;
    if total > MAX_IP_TOTAL || |frame| < 4 {
      return None, out;
    }
    if |frame| < IPV4_LEN {
      out := Patch(out, 2, Be16(total));
      if |frame| >= 12 {
        out := Patch(out, 10, [0, 0]);
      }
      return None, out;
    }
    out := FinishHeader(frame, total);
    FinishIpKeeps(frame, total);
    if run.proto == PROTO_UDP {
      if |frame| < 26 {
        return None, out;
      }
      out := Patch(out, 24, Be16(UDP_LEN + run.payload));
    }
    var partial := PseudoHeaderSum(out, run);
    var at := IPV4_LEN + CsumOffset(run.proto);
    if partial.None? || |frame| < at + 2 {
      return None, out;
    }
    out := Patch(out, at, Be16(partial.value));
    header := Some(HeaderOf(run));
  }

  /** The lengths and checksums `finish` rewrites. */
  predicate FinishTouches(proto: byte, i: nat) {
    || 2 <= i < 4 || 10 <= i < 12 || (proto == PROTO_UDP && 24 <= i < 26)
    || IPV4_LEN + CsumOffset(proto) <= i < IPV4_LEN + CsumOffset(proto) + 2
  }

  lemma FinishIpKeeps(frame: seq<byte>, total: u16)
    requires |frame| >= IPV4_LEN
    ensures forall i :: 0 <= i < |frame| && !(2 <= i < 4) && !(10 <= i < 12) ==> FinishIp(frame, total)[i] == frame[i]
  {
  }

  method FinishHeader(frame: seq<byte>, total: u16) returns (out: seq<byte>)
    requires |frame| >= IPV4_LEN
    ensures out == FinishIp(frame, total)
  {
    hide Words, Ones;
    var blank := Patch(Patch(frame, 2, Be16(total)), 10, [0, 0]);
    IpHeaderRoom();
    var sum := Sum(blank[..IPV4_LEN], 0);
    var folded := Fold(sum);
    out := Patch(blank, 10, Be16(0xFFFF - folded));
  }

  /** `pseudo_header`. */
  method PseudoHeaderSum(frame: seq<byte>, run: Run) returns (partial: Option<u16>)
    ensures partial.Some? <==> |frame| >= IPV4_LEN && run.l4Len + run.gsoSize <= 0xFFFF
    ensures partial.Some? ==> partial.value == Partial(frame, run)
  {
    hide Words, Ones;
    if |frame| < IPV4_LEN || run.l4Len + run.gsoSize > 0xFFFF {
      return None;
    }
    IpHeaderRoom();
    var sum := Sum(PseudoBytes(frame[12..16], frame[16..20], run.proto, run.l4Len + run.gsoSize), 0);
    var folded := Fold(sum);
    partial := Some(folded);
  }

  lemma IpHeaderRoom()
    ensures Ceiling(IPV4_LEN) < 0x1_0000_0000 && Ceiling(12) < 0x1_0000_0000
  {
  }

  /** A held packet leaves the state standing for everything held exactly when nothing was pending
      or `joins` said yes: an unasked `hold` breaks it every time. */
  lemma HoldExact(run: Option<Run>, frame: seq<byte>, held: seq<seq<byte>>, pending: bool, packet: seq<byte>)
    requires pending ==> Holds(run, frame, held)
    requires !pending ==> held == [] && run.None?
    ensures run.Some? ==> |run.value.lastIp| == IPV4_LEN
    ensures Holds(AfterHold(run, frame, packet).0, AfterHold(run, frame, packet).1, held + [packet])
            <==> !pending || MayJoin(run, pending, packet)
  {
    hide ContinuesAfter, Chain, FrameOf;
    if run.Some? {
      RunWellFormed(run.value, Parsed(held));
    }
    if Parse(packet).Some? {
      var next := Parse(packet).value;
      ParseWellFormed(packet);
      if run.Some? {
        Extended(run.value, Parsed(held), next);
        assert AllParse(held + [packet]);
        assert Parsed(held + [packet]) == Parsed(held) + [next];
      } else if !pending {
        Started(next);
        assert held + [packet] == [packet] && Parsed([packet]) == [next];
      } else {
        assert (held + [packet])[0] == frame;
      }
    }
  }

  /** Held over a packet nothing took, the second is all that is left: the first is never written. */
  lemma UnaskedHoldLoses()
    ensures Holds(None, [1], [[1]]) && !MayJoin(None, true, [2])
    ensures AfterHold(None, [1], [2]) == (None, [2]) && !Holds(None, [2], [[1], [2]])
  {
  }

  lemma RunWellFormed(r: Run, ps: seq<Packet>)
    requires Describes(r, ps)
    ensures ps != [] && |r.lastIp| == IPV4_LEN
  {
  }

  /** A packet that starts a run is a run of one. */
  lemma Started(p: Packet)
    requires p.WellFormed()
    ensures Describes(RunOfOne(p), [p])
    ensures FrameOf([p]) == p.ip + p.l4 + p.payload
  {
    assert [p][..0] == [];
    assert Payloads([p]) == p.payload;
  }

  /** The run describes one packet more exactly when that packet passes `joins`. */
  lemma Extended(r: Run, ps: seq<Packet>, next: Packet)
    requires Describes(r, ps) && next.WellFormed() && |r.lastIp| == IPV4_LEN
    ensures Describes(Longer(r, next), ps + [next])
            <==> && ContinuesAfter(Packet(r.lastIp, r.lastL4, [], r.proto, r.lastSeq), r.lastPayload, next, r.gsoSize)
                 && IPV4_LEN + r.l4Len + r.payload + |next.payload| <= MAX_IP_TOTAL
    ensures FrameOf(ps + [next]) == FrameOf(ps) + next.payload
  {
    hide Chain, ContinuesAfter;
    LastPacket(r, ps);
    var all := ps + [next];
    assert all[..|ps|] == ps && all[0] == ps[0] && all[|ps|] == next;
    assert Payloads(all) == Payloads(ps) + next.payload;
    assert FrameOf(all) == FrameOf(ps) + next.payload;
    ChainLonger(ps, next, r.gsoSize);
  }

  lemma LastPacket(r: Run, ps: seq<Packet>)
    requires Describes(r, ps)
    ensures ps != []
    ensures Packet(r.lastIp, r.lastL4, [], r.proto, r.lastSeq) == ps[|ps| - 1].(ip := ps[0].ip, payload := [])
    ensures r.gsoSize <= MAX_IP_TOTAL && r.lastPayload == |ps[|ps| - 1].payload| && |ps[0].ip| == IPV4_LEN
  {
    hide SameHeaders;
    ProtoEqual(ps[0], ps[|ps| - 1]);
    PayloadAt(ps, 0);
    assert ps[..0] == [];
  }

  lemma ChainLonger(ps: seq<Packet>, p: Packet, size: nat)
    requires ps != [] && |ps[0].ip| == IPV4_LEN && Chain(ps, size) && p.WellFormed() && size <= MAX_IP_TOTAL
    ensures Chain(ps + [p], size)
            <==> ContinuesAfter(ps[|ps| - 1].(ip := ps[0].ip, payload := []), |ps[|ps| - 1].payload|, p, size)
  {
    hide Chain, ContinuesAfter;
    if Chain(ps + [p], size) {
      ChainTail(ps, p, size);
    } else if ContinuesAfter(ps[|ps| - 1].(ip := ps[0].ip, payload := []), |ps[|ps| - 1].payload|, p, size) {
      ChainExtends(ps, p, size);
    }
  }

  lemma ChainTail(ps: seq<Packet>, p: Packet, size: nat)
    requires ps != [] && Chain(ps + [p], size) && size <= MAX_IP_TOTAL
    requires |ps[0].ip| == IPV4_LEN && |p.ip| == IPV4_LEN
    ensures ContinuesAfter(ps[|ps| - 1].(ip := ps[0].ip, payload := []), |ps[|ps| - 1].payload|, p, size)
  {
    hide SameHeaders, NumberFollows;
    var n, all := |ps|, ps + [p];
    assert all[n - 1].WellFormed() && all[n - 1] == ps[n - 1] && all[n] == p && all[0] == ps[0];
    assert SameHeaders(all[0], all[n - 1]) && SameHeaders(all[0], all[n]);
    SameHeadersShared(ps[0], ps[n - 1], p);
    if ps[0].Tcp() {
      NumberOf(all, n, size);
    }
  }

  lemma NumberOf(ps: seq<Packet>, k: nat, size: nat)
    requires 0 < k < |ps| && Numbered(ps, size)
    ensures ps[k].seqno == Wrap(ps[k - 1].seqno + size)
  {
    assert NumberFollows(ps, k, size);
  }

  lemma SameHeadersShared(a: Packet, b: Packet, c: Packet)
    requires |a.ip| == IPV4_LEN && |b.ip| == IPV4_LEN && |c.ip| == IPV4_LEN
    requires SameHeaders(a, b) && SameHeaders(a, c)
    ensures SameHeaders(b.(ip := a.ip, payload := []), c) && a.Tcp() == b.Tcp()
  {
  }

  lemma ProtoEqual(a: Packet, b: Packet)
    requires |a.ip| == IPV4_LEN && |b.ip| == IPV4_LEN && SameHeaders(a, b)
    ensures a.proto == b.proto
  {
  }

  /** What is held alone goes out as it came, asking for no split. */
  lemma CarriedAlone(run: Option<Run>, frame: seq<byte>, held: seq<seq<byte>>)
    requires Holds(run, frame, held) && (run.Some? ==> run.value.count == 1)
    ensures held != []
    ensures Carries(Written(|held|, Zeros(VNET_HDR_LEN), frame, false), held)
  {
    if run.Some? {
      var ps := Parsed(held);
      assert ps[..0] == [];
      assert Payloads(ps) == ps[0].payload;
    }
  }

  /** What is held together goes out as one frame that splits into it. */
  lemma CarriedTogether(run: Run, frame: seq<byte>, held: seq<seq<byte>>)
    requires Holds(Some(run), frame, held) && run.count != 1
    ensures held != [] && Finishable(frame, run)
    ensures Carries(Written(|held|, HeaderOf(run), Finished(frame, run), false), held)
  {
    hide SameHeaders, Restored, Finished, Split, Splittable, Completes;
    var ps := Parsed(held);
    assert ps[..0] == [];
    PayloadAt(ps, 0);
    RunSplits(run, ps);
    RunCompletes(run, ps);
  }

  // ---- Driving it ----------------------------------------------------------------------------

  /** The writes carry the packets, each in exactly one write, in order. */
  ghost predicate Covers(writes: seq<Written>, packets: seq<seq<byte>>) {
    if writes == [] then packets == []
    else
      var last := writes[|writes| - 1];
      && last.count <= |packets|
      && Carries(last, packets[|packets| - last.count..])
      && Covers(writes[..|writes| - 1], packets[..|packets| - last.count])
  }

  /** What the datapath does with a batch of inner packets. */
  method Drive(packets: seq<seq<byte>>) returns (out: seq<Written>)
    ensures Covers(out, packets) && forall i :: 0 <= i < |out| ==> !out[i].direct
    ensures forall i :: 0 <= i < |out| ==> Splittable(out[i].header, out[i].frame)
    ensures Preserved(packets, AllSegments(out))
  {
    hide Covers, Carries, Preserved, AllSegments, Splittable, Holds, Parse, ContinuesAfter;
    var c := new Coalescer();
    out := [];
    CoversNothing();
    var held := 0;
    for i := 0 to |packets|
      invariant c.Valid() && fresh(c)
      invariant held == |c.held| <= i && c.held == packets[i - held..i]
      invariant Covers(out, packets[..i - held])
      invariant forall k :: 0 <= k < |out| ==> !out[k].direct
    {
      var p := packets[i];
      if !c.Joins(p) {
        var taken := c.Take();
        if taken.Some? {
          var w := Written(held, taken.value.0, taken.value.1, false);
          assert packets[..i][i - held..] == packets[i - held..i];
          assert packets[..i][..i - held] == packets[..i - held];
          CoversMore(out, w, packets[..i], i - held);
          out := out + [w];
        }
        held := 0;
      }
      assert packets[i - held..i + 1] == packets[i - held..i] + [p];
      c.Hold(p);
      held := held + 1;
    }
    var taken := c.Take();
    if taken.Some? {
      var w := Written(held, taken.value.0, taken.value.1, false);
      assert packets[|packets| - held..|packets|] == packets[|packets| - held..];
      CoversMore(out, w, packets, |packets| - held);
      out := out + [w];
    } else {
      assert packets[..|packets|] == packets;
    }
    CoversPreserves(out, packets);
  }

  lemma CoversNothing()
    ensures Covers([], [])
  {
  }

  lemma CoversMore(writes: seq<Written>, w: Written, packets: seq<seq<byte>>, at: nat)
    requires at <= |packets| && Covers(writes, packets[..at])
    requires w.count == |packets| - at && Carries(w, packets[at..])
    ensures Covers(writes + [w], packets)
  {
    hide Carries;
    var all := writes + [w];
    assert all[..|all| - 1] == writes;
  }

  // ---- Meaning -------------------------------------------------------------------------------

  /** Every packet the kernel will make out of the writes. */
  ghost function AllSegments(writes: seq<Written>): seq<seq<byte>>
    requires forall i :: 0 <= i < |writes| ==> Splittable(writes[i].header, writes[i].frame)
  {
    if writes == [] then []
    else
      var last := writes[|writes| - 1];
      AllSegments(writes[..|writes| - 1]) + Split(last.header, last.frame)
  }

  /** `out` is `packet` as a receiver reads it: the same bytes up to the packet's own length, but for
      Identification and checksums, and for the length field of a UDP datagram that misstates it. */
  ghost predicate Preserves(packet: seq<byte>, out: seq<byte>) {
    match Parse(packet)
    case None => out == packet
    case Some(p) =>
      && |out| == |p.Wire()|
      && p.WellFormed()
      && (forall i :: 0 <= i < |out| && !Volatile(p.Tcp(), i) && (24 <= i < 26 ==> UdpConsistent(p))
                      ==> out[i] == p.Wire()[i])
  }

  /** Splitting one write gives back what went into it. */
  lemma CarriesPreserves(w: Written, packets: seq<seq<byte>>)
    requires Carries(w, packets) && !w.direct
    ensures Splittable(w.header, w.frame) && Preserved(packets, Split(w.header, w.frame))
  {
    hide Preserves, SameMeaning, Canonical, Parse;
    var segs := Split(w.header, w.frame);
    forall i | 0 <= i < |packets| ensures Preserves(packets[i], segs[i]) {
      if |packets| == 1 {
        assert segs == [Plain(packets[0])];
        PlainPreserves(packets[0]);
      } else {
        assert Parsed(packets)[i] == Parse(packets[i]).value;
        RestoredPreserves(packets[i], segs[i]);
      }
    }
  }

  lemma PlainPreserves(packet: seq<byte>)
    ensures Preserves(packet, Plain(packet))
  {
    if Parse(packet).Some? {
      ParseWellFormed(packet);
    }
  }

  /** Splitting every write gives back every packet, once, in order. */
  lemma {:induction false} CoversPreserves(writes: seq<Written>, packets: seq<seq<byte>>)
    requires Covers(writes, packets) && (forall i :: 0 <= i < |writes| ==> !writes[i].direct)
    ensures forall i :: 0 <= i < |writes| ==> Splittable(writes[i].header, writes[i].frame)
    ensures Preserved(packets, AllSegments(writes))
  {
    hide Preserves, Split, Splittable, Carries;
    if writes != [] {
      var last, front := writes[|writes| - 1], writes[..|writes| - 1];
      var at := |packets| - last.count;
      CoversPreserves(front, packets[..at]);
      CarriesPreserves(last, packets[at..]);
      assert packets == packets[..at] + packets[at..];
      PreservedAppend(packets[..at], AllSegments(front), packets[at..], Split(last.header, last.frame));
    }
  }

  ghost predicate Preserved(packets: seq<seq<byte>>, segs: seq<seq<byte>>) {
    |segs| == |packets| && forall i :: 0 <= i < |packets| ==> Preserves(packets[i], segs[i])
  }

  lemma PreservedAppend(ps: seq<seq<byte>>, ss: seq<seq<byte>>, qs: seq<seq<byte>>, ts: seq<seq<byte>>)
    requires Preserved(ps, ss) && Preserved(qs, ts)
    ensures Preserved(ps + qs, ss + ts)
  {
    hide Preserves;
  }

  lemma RestoredPreserves(packet: seq<byte>, seg: seq<byte>)
    requires Parse(packet).Some? && Parse(packet).value.WellFormed()
    requires SameMeaning(Parse(packet).value.Tcp(), seg, Canonical(Parse(packet).value))
    ensures Preserves(packet, seg)
  {
    var p := Parse(packet).value;
    if !p.Tcp() && UdpConsistent(p) {
      CanonicalIsSameIffConsistent(p);
    }
  }

  /** A merged packet comes back in every byte that is not recomputed exactly when it is TCP or its UDP
      length field already said what its IP length says. */
  lemma MergedExact(w: Written, packets: seq<seq<byte>>, i: nat)
    requires Carries(w, packets) && i < |packets| && |packets| > 1
    ensures Parse(packets[i]).Some? && Parse(packets[i]).value.WellFormed()
    ensures var p, segs := Parse(packets[i]).value, Split(w.header, w.frame);
            && |segs| == |packets|
            && (SameMeaning(p.Tcp(), segs[i], p.Wire()) <==> UdpConsistent(p))
  {
    hide Splittable, Split, Parse, SameMeaning, Canonical, UdpConsistent;
    var p, segs := Parse(packets[i]).value, Split(w.header, w.frame);
    assert Parsed(packets)[i] == p;
    CanonicalIsSameIffConsistent(p);
    SameMeaningAs(p.Tcp(), segs[i], Canonical(p), p.Wire());
  }

  lemma SameMeaningAs(tcp: bool, a: seq<byte>, b: seq<byte>, c: seq<byte>)
    requires SameMeaning(tcp, a, b)
    ensures SameMeaning(tcp, a, c) <==> SameMeaning(tcp, b, c)
  {
  }

  /** A datagram of one byte whose UDP length field says zero. */
  function MisstatedUdp(): seq<byte> {
    [0x45, 0, 0, 29, 0, 0, 0, 0, 64, 17, 0, 0, 10, 0, 0, 1, 10, 0, 0, 2, 0, 53, 0, 54, 0, 0, 0, 0, 7]
  }

  /** Two of them are merged, though neither survives it. */
  lemma MisstatedUdpMerges()
    ensures var parsed := Parse(MisstatedUdp());
            && parsed.Some? && parsed.value.WellFormed() && !UdpConsistent(parsed.value)
            && MayJoin(Some(RunOfOne(parsed.value)), true, MisstatedUdp())
  {
    hide Parse, MisstatedUdp;
    var b := MisstatedUdp();
    MisstatedUdpParses();
    ParseWellFormed(b);
    var p := Parse(b).value;
    assert p.l4[4] == b[24] && p.l4[5] == b[25];
  }

  lemma MisstatedUdpParses()
    ensures var b := MisstatedUdp();
            && |b| == 29 && b[24] == 0 && b[25] == 0
            && Parse(b) == Some(Packet(b[..20], b[20..28], b[28..], PROTO_UDP, 0))
  {
    var b := MisstatedUdp();
    var ip, rest := b[..20], b[20..29];
    assert Get16(b, 2) == 29 && Get16(b, 6) == 0 && ip[9] == 17;
    assert ParseL4(ip, rest) == Some(Packet(ip, rest[..8], rest[8..], 17, 0));
    assert rest[..8] == b[20..28] && rest[8..] == b[28..];
  }
}
