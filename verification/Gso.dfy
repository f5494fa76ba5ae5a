/** The coalescer of `gso.rs`: consecutive inner packets merged into one superpacket, and a
    `virtio_net_hdr` saying how to split it again. */
module Gso {
  import opened Bytes
  import opened Checksum

  const IPV4_LEN: nat := 20
  const UDP_LEN: nat := 8
  const PROTO_TCP: byte := 6
  const PROTO_UDP: byte := 17
  const GSO_TCPV4: byte := 1
  const GSO_UDP_L4: byte := 5
  const NEEDS_CSUM: byte := 1
  const MAX_IP_TOTAL: nat := 65535
  const VNET_HDR_LEN: nat := 10

  /** FIN, SYN, RST or URG: flags that are not mid-stream. */
  predicate EndsRun(flags: byte) {
    flags % 8 != 0 || flags / 0x20 % 2 == 1
  }

  /** One inner packet, far enough parsed to decide whether it may be merged. */
  datatype Packet = Packet(ip: seq<byte>, l4: seq<byte>, payload: seq<byte>, proto: byte, seqno: u32) {
    predicate Tcp() { proto == PROTO_TCP }

    predicate WellFormed() {
      && |ip| == IPV4_LEN && ip[9] == proto
      && (Tcp() || proto == PROTO_UDP)
      && (Tcp() ==> 20 <= |l4| <= 60 && |l4| % 4 == 0 && seqno == Get32(l4, 4))
      && (!Tcp() ==> |l4| == UDP_LEN)
      && Get16(ip, 2) == IPV4_LEN + |l4| + |payload|
    }

    /** The packet's bytes, without anything past its own length. */
    function Wire(): seq<byte> { ip + l4 + payload }
  }

  function Parse(bytes: seq<byte>): Option<Packet> {
    if |bytes| < IPV4_LEN || bytes[0] != 0x45 || Get16(bytes, 6) % 0x4000 != 0 then None
    else
      var total := Get16(bytes, 2);
      if total > |bytes| || total < IPV4_LEN then None
      else ParseL4(bytes[..IPV4_LEN], bytes[IPV4_LEN..total])
  }

  function ParseL4(ip: seq<byte>, rest: seq<byte>): Option<Packet>
    requires |ip| == IPV4_LEN
  {
    if ip[9] == PROTO_TCP then
      if |rest| <= 13 then None
      else
        var offset := rest[12] / 0x10 * 4;
        if offset < 20 || offset > |rest| || EndsRun(rest[13]) then None
        else Some(Packet(ip, rest[..offset], rest[offset..], ip[9], Get32(rest, 4)))
    else if ip[9] == PROTO_UDP && |rest| >= UDP_LEN then
      Some(Packet(ip, rest[..UDP_LEN], rest[UDP_LEN..], ip[9], 0))
    else None
  }

  lemma ParseWellFormed(bytes: seq<byte>)
    requires Parse(bytes).Some?
    ensures Parse(bytes).value.WellFormed() && Parse(bytes).value.Wire() <= bytes
    ensures |Parse(bytes).value.Wire()| <= MAX_IP_TOTAL
  {
    var total := Get16(bytes, 2);
    var ip, rest := bytes[..IPV4_LEN], bytes[IPV4_LEN..total];
    ParseL4Parts(ip, rest);
    assert bytes[..total] == ip + rest;
    assert Get16(ip, 2) == total;
    var p := Parse(bytes).value;
    assert p.Wire() == ip + (p.l4 + p.payload);
  }

  lemma ParseL4Parts(ip: seq<byte>, rest: seq<byte>)
    requires |ip| == IPV4_LEN && ParseL4(ip, rest).Some?
    ensures var p := ParseL4(ip, rest).value;
            && p.ip == ip && p.l4 + p.payload == rest && (p.Tcp() || p.proto == PROTO_UDP)
            && (p.Tcp() ==> 20 <= |p.l4| <= 60 && |p.l4| % 4 == 0 && p.seqno == Get32(p.l4, 4))
            && (!p.Tcp() ==> |p.l4| == UDP_LEN)
  {
  }

  /** What can be part of a run: an IPv4 packet with no options that is no fragment and states a length it has,
      carrying mid-stream TCP with a whole header and none of FIN, SYN, RST and URG, or a whole UDP header. */
  predicate Mergeable(b: seq<byte>) {
    && |b| >= 20 && b[0] == 0x45 && Get16(b, 6) % 0x4000 == 0 && 20 <= Get16(b, 2) <= |b|
    && var len := Get16(b, 2) - 20;
       || (&& b[9] == 6 && len >= 14 && 20 <= b[32] / 0x10 * 4 <= len
           && b[33] % 2 == 0 && b[33] / 2 % 2 == 0 && b[33] / 4 % 2 == 0 && b[33] / 32 % 2 == 0)
       || (b[9] == 17 && len >= 8)
  }

  /** Exactly that is parsed, so nothing else is ever held with anything. */
  lemma ParseExact(b: seq<byte>)
    ensures Parse(b).Some? <==> Mergeable(b)
  {
    hide Get16, Get32;
    if |b| >= 20 && 20 <= Get16(b, 2) <= |b| {
      var rest := b[20..Get16(b, 2)];
      if |rest| > 13 {
        assert rest[12] == b[32] && rest[13] == b[33];
        FlagBits(b[33]);
      }
    }
  }

  lemma FlagBits(flags: byte)
    ensures EndsRun(flags)
            <==> !(flags % 2 == 0 && flags / 2 % 2 == 0 && flags / 4 % 2 == 0 && flags / 32 % 2 == 0)
  {
  }

  function CsumOffset(proto: byte): nat {
    if proto == PROTO_TCP then 16 else 6
  }

  /** L4 header bytes that may differ across a run: sequence number or length, and checksum. */
  predicate Varies(proto: byte, i: int) {
    if proto == PROTO_TCP then 4 <= i < 8 || 16 <= i < 18 else 4 <= i < 8
  }

  /** Everything every segment inherits from the first packet's headers agrees. */
  predicate SameHeaders(a: Packet, b: Packet)
    requires |a.ip| == IPV4_LEN && |b.ip| == IPV4_LEN
  {
    && a.ip[0..2] == b.ip[0..2] && a.ip[6..10] == b.ip[6..10] && a.ip[12..20] == b.ip[12..20]
    && a.proto == b.proto
    && |a.l4| == |b.l4|
    && forall i :: 0 <= i < |a.l4| && !Varies(a.proto, i) ==> a.l4[i] == b.l4[i]
  }

  /** `continues_after`: whether `b` continues a run whose previous packet was `a`. */
  predicate ContinuesAfter(a: Packet, aPayload: nat, b: Packet, gsoSize: nat)
    requires |a.ip| == IPV4_LEN && |b.ip| == IPV4_LEN
  {
    && SameHeaders(a, b)
    && (a.Tcp() ==> b.seqno == Wrap(a.seqno + Min(aPayload, 0xFFFF_FFFF)))
    && aPayload == gsoSize && 0 < |b.payload| <= gsoSize
  }

  datatype Run = Run(
    proto: byte, l4Len: nat, gsoSize: nat, count: nat, payload: nat,
    lastIp: seq<byte>, lastL4: seq<byte>, lastSeq: u32, lastPayload: nat)

  /** `finish`'s `virtio_net_hdr`. */
  function HeaderOf(run: Run): (h: seq<byte>)
    ensures |h| == VNET_HDR_LEN
  {
    [NEEDS_CSUM, if run.proto == PROTO_TCP then GSO_TCPV4 else GSO_UDP_L4]
    + Le16(Min(IPV4_LEN + run.l4Len, 0xFFFF)) + Le16(Min(run.gsoSize, 0xFFFF))
    + Le16(IPV4_LEN) + Le16(CsumOffset(run.proto))
  }

  lemma HeaderSays(run: Run)
    ensures var h := HeaderOf(run);
            && h[1] == (if run.proto == PROTO_TCP then GSO_TCPV4 else GSO_UDP_L4)
            && GetLe16(h, 2) == Min(IPV4_LEN + run.l4Len, 0xFFFF) && GetLe16(h, 4) == Min(run.gsoSize, 0xFFFF)
  {
    hide Le16;
    Le16RoundTrip(Min(IPV4_LEN + run.l4Len, 0xFFFF));
    Le16RoundTrip(Min(run.gsoSize, 0xFFFF));
  }

  lemma Le16RoundTrip(v: u16)
    ensures GetLe16(Le16(v), 0) == v
  {
    Be16RoundTrip(v);
  }

  lemma HeaderSaysChecksum(run: Run)
    ensures var h := HeaderOf(run);
            h[0] == 1 && GetLe16(h, 6) == 20 && GetLe16(h, 8) == if run.proto == PROTO_TCP then 16 else 6
  {
    hide Le16;
    Le16RoundTrip(IPV4_LEN);
    Le16RoundTrip(CsumOffset(run.proto));
  }

  // ---- Splitting: what the header asks for ---------------------------------------------------

  function GetLe16(s: seq<byte>, at: nat): u16
    requires at + 2 <= |s|
  {
    Word(s[at + 1], s[at])
  }

  /** The frame can be split as `header` says. */
  predicate Splittable(header: seq<byte>, frame: seq<byte>) {
    && |header| == VNET_HDR_LEN
    && (header[1] != 0 ==>
          && IPV4_LEN + (if header[1] == GSO_TCPV4 then 20 else UDP_LEN) <= GetLe16(header, 2) <= |frame|
          && 0 < GetLe16(header, 4)
          && |frame| <= MAX_IP_TOTAL)
  }

  /** The packets a frame stands for: itself, or its payload cut every `gso_size` bytes. */
  function Split(header: seq<byte>, frame: seq<byte>): seq<seq<byte>>
    requires Splittable(header, frame)
  {
    if header[1] == 0 then [frame]
    else
      var hdrLen := GetLe16(header, 2);
      SplitFrom(frame[..hdrLen], frame[hdrLen..], header[1] == GSO_TCPV4, GetLe16(header, 4), 0)
  }

  /** The segments of `body` from byte `at` on. */
  function SplitFrom(head: seq<byte>, body: seq<byte>, tcp: bool, size: nat, at: nat): seq<seq<byte>>
    requires IPV4_LEN + (if tcp then 20 else UDP_LEN) <= |head| && |head| + |body| <= MAX_IP_TOTAL
    requires 0 < size
    decreases |body| - at
  {
    if at >= |body| then []
    else [Segment(head, body[at..Min(at + size, |body|)], tcp, at)] + SplitFrom(head, body, tcp, size, at + size)
  }

  /** One segment: the headers copied, the lengths its own, the sequence number `offset` further. */
  function Segment(head: seq<byte>, chunk: seq<byte>, tcp: bool, offset: nat): seq<byte>
    requires IPV4_LEN + (if tcp then 20 else UDP_LEN) <= |head| && |head| + |chunk| <= MAX_IP_TOTAL
  {
    var sized := Patch(head, 2, Be16(|head| + |chunk|));
    var own := if tcp then Patch(sized, 24, Be32(Wrap(Get32(head, 24) + offset)))
               else Patch(sized, 24, Be16(UDP_LEN + |chunk|));
    own + chunk
  }

  /** Bytes a receiver recomputes: IP Identification, IP checksum and L4 checksum. */
  predicate Volatile(tcp: bool, i: int) {
    4 <= i < 6 || 10 <= i < 12 || (if tcp then 36 <= i < 38 else 26 <= i < 28)
  }

  predicate SameMeaning(tcp: bool, a: seq<byte>, b: seq<byte>) {
    |a| == |b| && forall i :: 0 <= i < |a| && !Volatile(tcp, i) ==> a[i] == b[i]
  }

  /** A packet with its UDP length field saying what its IP length says. */
  function Canonical(p: Packet): seq<byte>
    requires p.WellFormed()
  {
    if p.Tcp() then p.Wire() else Patch(p.Wire(), 24, Be16(UDP_LEN + |p.payload|))
  }

  predicate UdpConsistent(p: Packet)
    requires p.WellFormed()
  {
    p.Tcp() || Get16(p.l4, 4) == UDP_LEN + |p.payload|
  }

  lemma CanonicalIsSameIffConsistent(p: Packet)
    requires p.WellFormed()
    ensures SameMeaning(p.Tcp(), Canonical(p), p.Wire()) <==> UdpConsistent(p)
  {
    if !p.Tcp() {
      var w, c := p.Wire(), Canonical(p);
      assert w[24] == p.l4[4] && w[25] == p.l4[5];
      WordIs(p.l4[4], p.l4[5]);
      Be16Is(UDP_LEN + |p.payload|);
      assert c[24] == (UDP_LEN + |p.payload|) / 0x100 && c[25] == (UDP_LEN + |p.payload|) % 0x100;
      assert !Volatile(false, 24) && !Volatile(false, 25);
    }
  }

  // ---- Runs ----------------------------------------------------------------------------------

  function Payloads(ps: seq<Packet>): seq<byte> {
    if ps == [] then [] else Payloads(ps[..|ps| - 1]) + ps[|ps| - 1].payload
  }

  predicate NumberFollows(ps: seq<Packet>, k: nat, size: nat)
    requires 0 < k < |ps|
  {
    ps[k].seqno == Wrap(ps[k - 1].seqno + size)
  }

  /** The packets could have been cut from one segment: same headers, contiguous numbers, every
      payload `size` bytes but the last. */
  ghost predicate Chain(ps: seq<Packet>, size: nat) {
    && ps != []
    && Uniform(ps)
    && Sized(ps, size)
    && (ps[0].Tcp() ==> Numbered(ps, size))
  }

  ghost predicate Uniform(ps: seq<Packet>)
    requires ps != []
  {
    && (forall k :: 0 <= k < |ps| ==> ps[k].WellFormed())
    && (forall k :: 0 <= k < |ps| ==> SameHeaders(ps[0], ps[k]))
  }

  ghost predicate Sized(ps: seq<Packet>, size: nat)
    requires ps != []
  {
    && (forall k :: 0 <= k < |ps| - 1 ==> |ps[k].payload| == size)
    && |ps[|ps| - 1].payload| <= size
    && (|ps| > 1 ==> 0 < |ps[|ps| - 1].payload|)
    && |ps[0].payload| == size
  }

  ghost predicate Numbered(ps: seq<Packet>, size: nat) {
    forall k :: 0 < k < |ps| ==> NumberFollows(ps, k, size)
  }

  lemma WrapShift(a: int, b: int)
    ensures Wrap(Wrap(a) + b) == Wrap(a + b)
  {
  }

  /** What `joins` tests against the last packet is what makes the run a longer chain. */
  lemma ChainExtends(ps: seq<Packet>, p: Packet, size: nat)
    requires Chain(ps, size) && p.WellFormed() && size <= MAX_IP_TOTAL
    requires ContinuesAfter(ps[|ps| - 1].(ip := ps[0].ip, payload := []), |ps[|ps| - 1].payload|, p, size)
    ensures Chain(ps + [p], size)
  {
    hide SameHeaders, NumberFollows, Wrap, Get16, Get32;
    var last := ps[|ps| - 1];
    var all := ps + [p];
    WellFormedIp(ps[0]);
    WellFormedIp(last);
    WellFormedIp(p);
    SameHeadersTransitive(ps[0], last, p);
    LastFollows(ps, p, size);
    forall k | 0 <= k < |all| ensures all[k].WellFormed() && SameHeaders(all[0], all[k]) {
      assert all[k] == if k < |ps| then ps[k] else p;
    }
    if all[0].Tcp() {
      forall k | 0 < k < |all| ensures NumberFollows(all, k, size) {
        if k < |ps| {
          assert NumberFollows(ps, k, size);
          FollowsAlike(ps, all, k, size);
        }
      }
    }
  }

  lemma WellFormedIp(p: Packet)
    requires p.WellFormed()
    ensures |p.ip| == IPV4_LEN
  {
  }

  lemma FollowsAlike(ps: seq<Packet>, all: seq<Packet>, k: nat, size: nat)
    requires 0 < k < |ps| && |ps| <= |all| && all[k] == ps[k] && all[k - 1] == ps[k - 1] && NumberFollows(ps, k, size)
    ensures NumberFollows(all, k, size)
  {
  }

  lemma LastFollows(ps: seq<Packet>, p: Packet, size: nat)
    requires ps != [] && |ps[0].ip| == IPV4_LEN && |p.ip| == IPV4_LEN && size <= MAX_IP_TOTAL
    requires ContinuesAfter(ps[|ps| - 1].(ip := ps[0].ip, payload := []), |ps[|ps| - 1].payload|, p, size)
    ensures ps[|ps| - 1].Tcp() ==> NumberFollows(ps + [p], |ps|, size)
    ensures |ps[|ps| - 1].payload| == size && 0 < |p.payload| <= size
  {
    hide SameHeaders;
  }

  lemma SameHeadersTransitive(a: Packet, b: Packet, c: Packet)
    requires |a.ip| == IPV4_LEN && |b.ip| == IPV4_LEN && |c.ip| == IPV4_LEN
    requires SameHeaders(a, b) && SameHeaders(b.(ip := a.ip, payload := []), c)
    ensures SameHeaders(a, c) && a.Tcp() == b.Tcp()
  {
  }

  /** The numbers of a chain, from its first: one per payload byte before it. */
  lemma {:induction false} ChainNumbers(ps: seq<Packet>, size: nat, k: nat)
    requires k < |ps| && Sized(ps, size) && Numbered(ps, size)
    ensures ps[k].seqno == Wrap(ps[0].seqno + |Payloads(ps[..k])|)
  {
    if k > 0 {
      assert NumberFollows(ps, k, size);
      ChainNumbers(ps, size, k - 1);
      assert ps[..k][..k - 1] == ps[..k - 1];
      assert |Payloads(ps[..k])| == |Payloads(ps[..k - 1])| + size;
      WrapShift(ps[0].seqno + |Payloads(ps[..k - 1])|, size);
    }
  }

  /** Where packet `k`'s payload sits among all of them. */
  lemma {:induction false} PayloadAt(ps: seq<Packet>, k: nat)
    requires k < |ps|
    ensures var at, len := |Payloads(ps[..k])|, |ps[k].payload|;
            && |Payloads(ps[..k + 1])| == at + len <= |Payloads(ps)|
            && Payloads(ps)[at..at + len] == ps[k].payload
            && (k == |ps| - 1 ==> at + len == |Payloads(ps)|)
  {
    assert ps[..k + 1][..k] == ps[..k];
    if k == |ps| - 1 {
      assert ps[..k + 1] == ps;
    } else {
      var front := ps[..|ps| - 1];
      PayloadAt(front, k);
      assert front[..k] == ps[..k] && front[..k + 1] == ps[..k + 1];
    }
  }

  // ---- Finishing a run -----------------------------------------------------------------------

  /** The run that stands for `ps`. */
  ghost predicate Describes(run: Run, ps: seq<Packet>) {
    && Chain(ps, run.gsoSize)
    && run.proto == ps[0].proto
    && run.l4Len == |ps[0].l4|
    && run.count == |ps|
    && run.payload == |Payloads(ps)|
    && run.lastIp == ps[0].ip
    && run.lastL4 == ps[|ps| - 1].l4
    && run.lastSeq == ps[|ps| - 1].seqno
    && run.lastPayload == |ps[|ps| - 1].payload|
    && IPV4_LEN + run.l4Len + run.payload <= MAX_IP_TOTAL
  }

  function FrameOf(ps: seq<Packet>): seq<byte>
    requires ps != []
  {
    ps[0].ip + ps[0].l4 + Payloads(ps)
  }

  /** The IP header with the whole run's length and a checksum over it. */
  function FinishIp(frame: seq<byte>, total: u16): (ip: seq<byte>)
    requires |frame| >= IPV4_LEN
    ensures |ip| == |frame|
  {
    var blank := Patch(Patch(frame, 2, Be16(total)), 10, [0, 0]);
    Patch(blank, 10, Be16(Complement(Words(blank[..IPV4_LEN]))))
  }

  /** The pseudo-header sum for one full-size segment. */
  function Partial(frame: seq<byte>, run: Run): u16
    requires |frame| >= IPV4_LEN && run.l4Len + run.gsoSize <= 0xFFFF
  {
    Ones(Words(PseudoBytes(frame[12..16], frame[16..20], run.proto, run.l4Len + run.gsoSize)))
  }

  /** What `finish` can describe: a length that fits, a frame that reaches its checksum, one segment's own
      length. */
  predicate Finishable(frame: seq<byte>, run: Run) {
    && IPV4_LEN + run.l4Len + run.payload <= MAX_IP_TOTAL
    && IPV4_LEN + CsumOffset(run.proto) + 2 <= |frame|
    && run.l4Len + run.gsoSize <= 0xFFFF
  }

  /** `finish`: every patch it makes to the frame. */
  function Finished(frame: seq<byte>, run: Run): (f: seq<byte>)
    requires Finishable(frame, run)
    ensures |f| == |frame|
  {
    var ip := FinishIp(frame, IPV4_LEN + run.l4Len + run.payload);
    var udp := if run.proto == PROTO_UDP then Patch(ip, 24, Be16(UDP_LEN + run.payload)) else ip;
    Patch(udp, IPV4_LEN + CsumOffset(run.proto), Be16(Partial(udp, run)))
  }

  /** Finishing touches only the length, the checksums and, for UDP, its length field. */
  lemma FinishedKeeps(frame: seq<byte>, run: Run, i: nat)
    requires Finishable(frame, run)
    requires run.proto == PROTO_TCP || run.proto == PROTO_UDP
    requires i < |frame|
    requires !Rewritten(run.proto == PROTO_TCP, i)
    ensures Finished(frame, run)[i] == frame[i]
  {
  }

  /** `head` is the first packet's headers, but for what a run rewrites. */
  ghost predicate CopiedFrom(head: seq<byte>, first: Packet)
    requires first.WellFormed()
  {
    && |head| == IPV4_LEN + |first.l4|
    && (forall j :: 0 <= j < |head| && !Rewritten(first.Tcp(), j) ==> head[j] == (first.ip + first.l4)[j])
  }

  predicate Rewritten(tcp: bool, i: int) {
    Volatile(tcp, i) || 2 <= i < 4 || (!tcp && 24 <= i < 26)
  }

  /** A header byte of packet `k` of a run, as the split restores it. */
  lemma HeaderRestored(head: seq<byte>, first: Packet, p: Packet, offset: nat, i: nat)
    requires first.WellFormed() && p.WellFormed() && SameHeaders(first, p)
    requires |head| + |p.payload| <= MAX_IP_TOTAL
    requires p.Tcp() ==> p.seqno == Wrap(first.seqno + offset)
    requires CopiedFrom(head, first)
    requires i < |head| && !Volatile(p.Tcp(), i)
    ensures Segment(head, p.payload, p.Tcp(), offset)[i] == Canonical(p)[i]
  {
    if i < IPV4_LEN {
      IpRestored(head, first, p, i);
      assert Canonical(p)[i] == p.ip[i];
    } else if 24 <= i < 28 && p.Tcp() {
      NumberRestored(head, first, p, offset, i);
      assert Canonical(p)[i] == p.l4[i - 20];
    } else if i < 24 || i >= 26 {
      assert head[i] == (first.ip + first.l4)[i] == first.l4[i - 20] == p.l4[i - 20];
      assert Canonical(p)[i] == p.l4[i - 20];
    }
  }

  lemma IpRestored(head: seq<byte>, first: Packet, p: Packet, i: nat)
    requires first.WellFormed() && p.WellFormed() && SameHeaders(first, p)
    requires |head| + |p.payload| <= MAX_IP_TOTAL
    requires CopiedFrom(head, first)
    requires i < IPV4_LEN && !Volatile(p.Tcp(), i)
    ensures Patch(head, 2, Be16(|head| + |p.payload|))[i] == p.ip[i]
  {
    if 2 <= i < 4 {
      Be16OfGet16(p.ip, 2);
    } else {
      assert head[i] == (first.ip + first.l4)[i] == first.ip[i];
      if i < 2 { assert first.ip[0..2][i] == p.ip[0..2][i]; }
      else if i < 10 { assert first.ip[6..10][i - 6] == p.ip[6..10][i - 6]; }
      else { assert first.ip[12..20][i - 12] == p.ip[12..20][i - 12]; }
    }
  }

  lemma NumberRestored(head: seq<byte>, first: Packet, p: Packet, offset: nat, i: nat)
    requires first.WellFormed() && p.WellFormed() && first.Tcp() && p.Tcp()
    requires p.seqno == Wrap(first.seqno + offset)
    requires CopiedFrom(head, first) && 24 <= i < 28
    ensures Be32(Wrap(Get32(head, 24) + offset))[i - 24] == p.l4[i - 20]
  {
    hide Be32;
    assert forall j :: 4 <= j < 8 ==> head[20 + j] == (first.ip + first.l4)[20 + j] == first.l4[j];
    assert Get32(head, 24) == Get32(first.l4, 4);
    Be32OfGet32(p.l4, 4);
    assert p.l4[4..8][i - 24] == p.l4[i - 20];
  }

  /** The whole of packet `k` of a run, as the split restores it. */
  lemma SegmentRestored(head: seq<byte>, first: Packet, p: Packet, offset: nat)
    requires first.WellFormed() && p.WellFormed() && SameHeaders(first, p)
    requires |head| + |p.payload| <= MAX_IP_TOTAL
    requires p.Tcp() ==> p.seqno == Wrap(first.seqno + offset)
    requires CopiedFrom(head, first)
    ensures SameMeaning(p.Tcp(), Segment(head, p.payload, p.Tcp(), offset), Canonical(p))
  {
    var seg := Segment(head, p.payload, p.Tcp(), offset);
    forall i | 0 <= i < |seg| && !Volatile(p.Tcp(), i) ensures seg[i] == Canonical(p)[i] {
      if i < |head| {
        HeaderRestored(head, first, p, offset, i);
      }
    }
  }

  /** Cutting the payloads of a chain every `size` bytes gives its packets back, in order. */
  lemma {:induction false} SplitRestores(ps: seq<Packet>, size: nat, head: seq<byte>, k: nat)
    requires Chain(ps, size) && |ps| > 1 && k <= |ps| && size > 0
    requires IPV4_LEN + (if ps[0].Tcp() then 20 else UDP_LEN) <= |head|
    requires CopiedFrom(head, ps[0]) && |head| + |Payloads(ps)| <= MAX_IP_TOTAL
    ensures var segs := SplitFrom(head, Payloads(ps), ps[0].Tcp(), size, |Payloads(ps[..k])|);
            Restored(ps[0].Tcp(), segs, ps[k..])
    decreases |ps| - k
  {
    hide Chain, SameMeaning, Segment, Canonical, CopiedFrom, Restored, SplitFrom, Payloads;
    var body, tcp, at := Payloads(ps), ps[0].Tcp(), |Payloads(ps[..k])|;
    if k == |ps| {
      assert ps[..k] == ps && ps[k..] == [];
      NothingRestored(tcp, head, body, size);
    } else {
      ChunkRestored(ps, size, head, k);
      SplitRestores(ps, size, head, k + 1);
      var next := |Payloads(ps[..k + 1])|;
      SplitNext(head, body, tcp, size, at, next);
      assert ps[k..] == [ps[k]] + ps[k + 1..];
      RestoredCons(tcp, Segment(head, body[at..next], tcp, at), SplitFrom(head, body, tcp, size, next), ps[k], ps[k + 1..]);
    }
  }

  /** The segments are the packets again, one for one. */
  ghost predicate Restored(tcp: bool, segs: seq<seq<byte>>, ps: seq<Packet>) {
    && |segs| == |ps|
    && (forall j :: 0 <= j < |ps| ==> ps[j].WellFormed() && ps[j].Tcp() == tcp && SameMeaning(tcp, segs[j], Canonical(ps[j])))
  }

  lemma NothingRestored(tcp: bool, head: seq<byte>, body: seq<byte>, size: nat)
    requires SplitFrom.requires(head, body, tcp, size, |body|)
    ensures Restored(tcp, SplitFrom(head, body, tcp, size, |body|), [])
  {
  }

  lemma RestoredCons(tcp: bool, seg: seq<byte>, segs: seq<seq<byte>>, p: Packet, ps: seq<Packet>)
    requires p.WellFormed() && p.Tcp() == tcp && SameMeaning(tcp, seg, Canonical(p)) && Restored(tcp, segs, ps)
    ensures Restored(tcp, [seg] + segs, [p] + ps)
  {
    hide SameMeaning, Canonical;
  }

  lemma SplitNext(head: seq<byte>, body: seq<byte>, tcp: bool, size: nat, at: nat, next: nat)
    requires SplitFrom.requires(head, body, tcp, size, at)
    requires at < |body| && next == Min(at + size, |body|)
    ensures SplitFrom(head, body, tcp, size, at)
            == [Segment(head, body[at..next], tcp, at)] + SplitFrom(head, body, tcp, size, next)
  {
  }

  lemma ChunkRestored(ps: seq<Packet>, size: nat, head: seq<byte>, k: nat)
    requires Chain(ps, size) && |ps| > 1 && k < |ps|
    requires CopiedFrom(head, ps[0]) && |head| + |Payloads(ps)| <= MAX_IP_TOTAL
    ensures var body, at, next := Payloads(ps), |Payloads(ps[..k])|, |Payloads(ps[..k + 1])|;
            && at < |body| && next == Min(at + size, |body|) && ps[k].WellFormed() && ps[k].Tcp() == ps[0].Tcp()
            && SameMeaning(ps[0].Tcp(), Segment(head, body[at..next], ps[0].Tcp(), at), Canonical(ps[k]))
  {
    hide SameHeaders, SameMeaning, Segment, Canonical, CopiedFrom;
    PayloadAt(ps, k);
    assert SameHeaders(ps[0], ps[k]);
    ProtoShared(ps[0], ps[k]);
    if ps[0].Tcp() {
      ChainNumbers(ps, size, k);
    }
    SegmentRestored(head, ps[0], ps[k], |Payloads(ps[..k])|);
  }

  lemma ProtoShared(a: Packet, b: Packet)
    requires |a.ip| == IPV4_LEN && |b.ip| == IPV4_LEN && SameHeaders(a, b)
    ensures a.Tcp() == b.Tcp() && |a.l4| == |b.l4|
  {
  }

  /** A finished run of two or more splits into the packets it was made of. */
  lemma RunSplits(run: Run, ps: seq<Packet>)
    requires Describes(run, ps) && run.count > 1
    ensures Finishable(FrameOf(ps), run)
    ensures var f := Finished(FrameOf(ps), run);
            && Splittable(HeaderOf(run), f)
            && Restored(ps[0].Tcp(), Split(HeaderOf(run), f), ps)
  {
    var h, hdrLen := HeaderOf(run), IPV4_LEN + run.l4Len;
    hide SameHeaders, Restored, CopiedFrom, Finished;
    RunFrame(run, ps);
    assert ps[..0] == [];
    var f := Finished(FrameOf(ps), run);
    HeaderSays(run);
    assert GetLe16(h, 2) == hdrLen && GetLe16(h, 4) == run.gsoSize;
    assert ps[0..] == ps;
    SplitRestores(ps, run.gsoSize, f[..hdrLen], 0);
  }

  /** A finished frame is still the first packet's headers and then every payload. */
  lemma RunFrame(run: Run, ps: seq<Packet>)
    requires Describes(run, ps)
    ensures Finishable(FrameOf(ps), run)
    ensures var f, hdrLen := Finished(FrameOf(ps), run), IPV4_LEN + run.l4Len;
            && |f| == hdrLen + |Payloads(ps)|
            && f[hdrLen..] == Payloads(ps)
            && CopiedFrom(f[..hdrLen], ps[0])
  {
    hide Finished, Uniform, Sized, Numbered, Payloads;
    var frame := FrameOf(ps);
    RunRoom(run, ps);
    var f := Finished(frame, run);
    forall i | 0 <= i < |f| && !Rewritten(ps[0].Tcp(), i) ensures f[i] == frame[i] {
      FinishedKeeps(frame, run, i);
    }
    FrameKept(f, ps);
  }

  lemma FrameKept(f: seq<byte>, ps: seq<Packet>)
    requires ps != [] && ps[0].WellFormed() && |f| == |FrameOf(ps)|
    requires forall i :: 0 <= i < |f| && !Rewritten(ps[0].Tcp(), i) ==> f[i] == FrameOf(ps)[i]
    ensures var hdrLen := IPV4_LEN + |ps[0].l4|;
            && |f| == hdrLen + |Payloads(ps)|
            && f[hdrLen..] == Payloads(ps)
            && CopiedFrom(f[..hdrLen], ps[0])
  {
    hide Payloads;
  }

  lemma RunRoom(run: Run, ps: seq<Packet>)
    requires Describes(run, ps)
    ensures ps != [] && ps[0].WellFormed() && run.l4Len == |ps[0].l4| && run.proto == ps[0].proto
    ensures run.proto == PROTO_TCP || run.proto == PROTO_UDP
    ensures run.l4Len + run.gsoSize <= 0xFFFF && UDP_LEN + run.payload <= 0xFFFF
    ensures |FrameOf(ps)| == IPV4_LEN + run.l4Len + run.payload
  {
    hide SameHeaders;
    PayloadAt(ps, 0);
    assert ps[..0] == [];
  }

  // ---- Checksums of a finished run -----------------------------------------------------------

  /** The rewritten IP header passes the check every router makes. */
  lemma FinishedIpVerifies(frame: seq<byte>, run: Run)
    requires Finishable(frame, run)
    ensures Ones(Words(Finished(frame, run)[..IPV4_LEN])) == 0xFFFF
  {
    var total: u16 := IPV4_LEN + run.l4Len + run.payload;
    FinishedHead(frame, run, FinishIp(frame, total));
    FinishIpVerifies(Patch(frame, 2, Be16(total)));
  }

  lemma FinishedHead(frame: seq<byte>, run: Run, ip: seq<byte>)
    requires Finishable(frame, run)
    requires ip == FinishIp(frame, IPV4_LEN + run.l4Len + run.payload)
    ensures Finished(frame, run)[..IPV4_LEN] == ip[..IPV4_LEN]
  {
    hide FinishIp, Partial;
    var udp := if run.proto == PROTO_UDP then Patch(ip, 24, Be16(UDP_LEN + run.payload)) else ip;
    PatchBeyond(udp, IPV4_LEN + CsumOffset(run.proto), Be16(Partial(udp, run)), IPV4_LEN);
    if run.proto == PROTO_UDP {
      PatchBeyond(ip, 24, Be16(UDP_LEN + run.payload), IPV4_LEN);
    }
  }

  lemma FinishIpVerifies(sized: seq<byte>)
    requires |sized| >= IPV4_LEN
    ensures var blank := Patch(sized, 10, [0, 0]);
            Ones(Words(Patch(blank, 10, Be16(Complement(Words(blank[..IPV4_LEN]))))[..IPV4_LEN])) == 0xFFFF
  {
    var blank := Patch(sized, 10, [0, 0]);
    assert Get16(blank, 10) == 0;
    BlankIpVerifies(blank);
  }

  lemma BlankIpVerifies(blank: seq<byte>)
    requires |blank| >= IPV4_LEN && Get16(blank, 10) == 0
    ensures Ones(Words(Patch(blank, 10, Be16(Complement(Words(blank[..IPV4_LEN]))))[..IPV4_LEN])) == 0xFFFF
  {
    hide Words, Ones;
    var header := blank[..IPV4_LEN];
    PatchInside(blank, 10, Be16(Complement(Words(header))), IPV4_LEN);
    FilledChecksumVerifies(0, header, 10);
  }

  /** What a receiver expects to find: computed from scratch, with the field itself zero. */
  function FromScratch(src: seq<byte>, dst: seq<byte>, proto: byte, l4: seq<byte>, payload: seq<byte>): u16
    requires |src| == 4 && |dst| == 4 && |l4| + |payload| <= 0xFFFF
    requires CsumOffset(proto) + 2 <= |l4|
  {
    Complement(Words(PseudoBytes(src, dst, proto, |l4| + |payload|) + Patch(l4, CsumOffset(proto), Be16(0)) + payload))
  }

  /** Summing an L4 header that carries the run's partial, and any full-size payload, then folding
      and complementing gives exactly the checksum computed from scratch. */
  lemma PartialCompletes(frame: seq<byte>, run: Run, l4: seq<byte>, payload: seq<byte>)
    requires Partial.requires(frame, run)
    requires |l4| == run.l4Len && |payload| == run.gsoSize && |l4| % 2 == 0
    requires CsumOffset(run.proto) + 2 <= |l4|
    requires Get16(l4, CsumOffset(run.proto)) == Partial(frame, run)
    ensures Complement(Words(l4 + payload))
            == FromScratch(frame[12..16], frame[16..20], run.proto, l4, payload)
  {
    hide Words, Ones, PseudoBytes, Patch, Get16, Be16;
    var at := CsumOffset(run.proto);
    var zeroed := Patch(l4, at, Be16(0));
    var pseudo := PseudoBytes(frame[12..16], frame[16..20], run.proto, |l4| + |payload|);
    WordsPatch(l4, at, 0);
    WordsAppend(l4, payload);
    WordsOfThree(pseudo, zeroed, payload);
    OnesAbsorbs(Words(zeroed) + Words(payload), Words(pseudo));
  }

  /** The frame a run is finished into carries that partial in its own L4 header. */
  lemma FinishedCarriesPartial(frame: seq<byte>, run: Run)
    requires Finishable(frame, run)
    requires run.proto == PROTO_TCP || run.proto == PROTO_UDP
    ensures var f := Finished(frame, run);
            Get16(f, IPV4_LEN + CsumOffset(run.proto)) == Partial(f, run)
  {
    hide FinishIp, Partial, Get16;
    var ip := FinishIp(frame, IPV4_LEN + run.l4Len + run.payload);
    var udp := if run.proto == PROTO_UDP then Patch(ip, 24, Be16(UDP_LEN + run.payload)) else ip;
    PartialInPlace(udp, run, IPV4_LEN + CsumOffset(run.proto));
  }

  lemma PartialInPlace(udp: seq<byte>, run: Run, at: nat)
    requires Partial.requires(udp, run) && IPV4_LEN <= at && at + 2 <= |udp|
    ensures var f := Patch(udp, at, Be16(Partial(udp, run)));
            Get16(f, at) == Partial(f, run) == Partial(udp, run)
  {
    hide Words, Ones, PseudoBytes;
    var partial := Partial(udp, run);
    var f := Patch(udp, at, Be16(partial));
    assert f[12..16] == udp[12..16] && f[16..20] == udp[16..20];
    assert f[at] == Be16(partial)[0] && f[at + 1] == Be16(partial)[1];
    Be16RoundTrip(partial);
  }

  /** Both checksums of a finished run: the IP header's verifies, and the L4 one completes over the
      frame's own L4 header and any full-size payload to what a receiver computes. */
  lemma RunChecksums(run: Run, ps: seq<Packet>, payload: seq<byte>)
    requires Describes(run, ps) && |payload| == run.gsoSize
    ensures Finishable(FrameOf(ps), run)
    ensures var f := Finished(FrameOf(ps), run);
            var l4 := f[IPV4_LEN..IPV4_LEN + run.l4Len];
            && Ones(Words(f[..IPV4_LEN])) == 0xFFFF
            && Complement(Words(l4 + payload)) == FromScratch(f[12..16], f[16..20], run.proto, l4, payload)
  {
    hide Describes, Finished, CopiedFrom, Words, Ones, Complement, Partial, Get16, FromScratch, FrameOf, Payloads;
    RunFrame(run, ps);
    RunRoom(run, ps);
    var f := Finished(FrameOf(ps), run);
    var l4 := f[IPV4_LEN..IPV4_LEN + run.l4Len];
    FinishedIpVerifies(FrameOf(ps), run);
    FinishedCarriesPartial(FrameOf(ps), run);
    SlicedWord(f, IPV4_LEN, IPV4_LEN + run.l4Len, CsumOffset(run.proto));
    PartialCompletes(f, run, l4, payload);
  }

  lemma SlicedWord(s: seq<byte>, from: nat, to: nat, at: nat)
    requires from + at + 2 <= to <= |s|
    ensures Get16(s[from..to], at) == Get16(s, from + at)
  {
  }

  // ---- Checksums as the written header asks for them ------------------------------------------

  /** Where a segment's own L4 checksum lies. */
  function ChecksumAt(seg: seq<byte>): nat
    requires |seg| > 9
  {
    if seg[9] == PROTO_TCP then 36 else 26
  }

  /** A full-size segment, its checksum completed where and from where the header says: summing from the
      start it gives, folding and complementing gives the checksum from scratch, and the place it gives
      is the segment's own checksum field. */
  predicate SegmentCompletes(header: seq<byte>, seg: seq<byte>)
    requires |header| == VNET_HDR_LEN
  {
    var hdrLen, start := GetLe16(header, 2), GetLe16(header, 6);
    |seg| == hdrLen + GetLe16(header, 4) && |seg| <= MAX_IP_TOTAL && hdrLen >= IPV4_LEN + 8 ==>
      && ChecksumAt(seg) + 2 <= hdrLen
      && start + GetLe16(header, 8) == ChecksumAt(seg)
      && start <= |seg|
      && Complement(Words(seg[start..]))
         == FromScratch(seg[12..16], seg[16..20], seg[9], seg[IPV4_LEN..hdrLen], seg[hdrLen..])
  }

  /** A frame that asks for its checksums to be completed, and whose every segment is so completed. */
  ghost predicate Completes(header: seq<byte>, frame: seq<byte>)
    requires Splittable(header, frame)
  {
    && header[0] == NEEDS_CSUM
    && (|frame| > 9 ==> header[1] == if frame[9] == PROTO_TCP then GSO_TCPV4 else GSO_UDP_L4)
    && AllComplete(header, Split(header, frame))
    && StatesLength(frame)
  }

  /** The frame is one packet a receiver would take whole: its IP length, and its UDP one, are its own. */
  predicate StatesLength(frame: seq<byte>) {
    && |frame| >= 28 && Get16(frame, 2) == |frame|
    && (frame[9] == PROTO_UDP ==> Get16(frame, 24) == |frame| - 20)
  }

  lemma FinishedStates(frame: seq<byte>, run: Run)
    requires Finishable(frame, run) && (run.proto == PROTO_TCP || run.proto == PROTO_UDP)
    ensures var f := Finished(frame, run);
            && Get16(f, 2) == IPV4_LEN + run.l4Len + run.payload
            && (run.proto == PROTO_UDP ==> Get16(f, 24) == UDP_LEN + run.payload)
  {
    hide Be16, Get16, Complement, Words, Partial;
    var f, total: u16 := Finished(frame, run), IPV4_LEN + run.l4Len + run.payload;
    assert f[2..4] == Be16(total);
    Halfword(f, 2, total);
    if run.proto == PROTO_UDP {
      assert f[24..26] == Be16(UDP_LEN + run.payload);
      Halfword(f, 24, UDP_LEN + run.payload);
    }
  }

  predicate AllComplete(header: seq<byte>, segs: seq<seq<byte>>)
    requires |header| == VNET_HDR_LEN
  {
    forall k :: 0 <= k < |segs| ==> SegmentCompletes(header, segs[k])
  }

  /** The headers of a finished frame, ready to be copied onto its segments. */
  predicate Ready(head: seq<byte>, run: Run) {
    && |head| == IPV4_LEN + run.l4Len && run.l4Len % 2 == 0 && head[9] == run.proto
    && (run.proto == PROTO_TCP || run.proto == PROTO_UDP)
    && (if run.proto == PROTO_TCP then 20 else UDP_LEN) <= run.l4Len
    && run.l4Len + run.gsoSize <= 0xFFFF
    && Get16(head, IPV4_LEN + CsumOffset(run.proto)) == Partial(head, run)
  }

  /** A segment's headers are the frame's, but for its lengths and number. */
  lemma SegmentHead(head: seq<byte>, chunk: seq<byte>, tcp: bool, offset: nat)
    requires IPV4_LEN + (if tcp then 20 else UDP_LEN) <= |head| && |head| + |chunk| <= MAX_IP_TOTAL
    ensures var seg := Segment(head, chunk, tcp, offset);
            && |seg| == |head| + |chunk| && seg[|head|..] == chunk && seg[9] == head[9]
            && seg[12..16] == head[12..16] && seg[16..20] == head[16..20]
            && (tcp ==> seg[36] == head[36] && seg[37] == head[37])
            && (!tcp ==> seg[26] == head[26] && seg[27] == head[27])
  {
    hide Be16, Be32, Wrap;
  }

  lemma SegmentIsCompleted(run: Run, head: seq<byte>, chunk: seq<byte>, offset: nat)
    requires Ready(head, run) && |head| + |chunk| <= MAX_IP_TOTAL
    ensures SegmentCompletes(HeaderOf(run), Segment(head, chunk, run.proto == PROTO_TCP, offset))
  {
    hide HeaderOf, Words, Complement, Partial, Get16, FromScratch, Segment;
    HeaderSays(run);
    HeaderSaysChecksum(run);
    var seg := Segment(head, chunk, run.proto == PROTO_TCP, offset);
    SegmentHead(head, chunk, run.proto == PROTO_TCP, offset);
    if |chunk| == run.gsoSize {
      var hdrLen := IPV4_LEN + run.l4Len;
      var l4 := seg[IPV4_LEN..hdrLen];
      assert seg[IPV4_LEN..] == l4 + seg[hdrLen..];
      PartialShared(head, seg, run);
      SameWord(head, seg, IPV4_LEN + CsumOffset(run.proto));
      SlicedWord(seg, IPV4_LEN, hdrLen, CsumOffset(run.proto));
      PartialCompletes(seg, run, l4, seg[hdrLen..]);
    }
  }

  lemma PartialShared(a: seq<byte>, b: seq<byte>, run: Run)
    requires |a| >= IPV4_LEN && |b| >= IPV4_LEN && run.l4Len + run.gsoSize <= 0xFFFF
    requires a[12..16] == b[12..16] && a[16..20] == b[16..20]
    ensures Partial(a, run) == Partial(b, run)
  {
  }

  lemma SameWord(a: seq<byte>, b: seq<byte>, at: nat)
    requires at + 2 <= |a| && at + 2 <= |b| && a[at] == b[at] && a[at + 1] == b[at + 1]
    ensures Get16(a, at) == Get16(b, at)
  {
  }

  lemma {:induction false} SplitCompletes(run: Run, head: seq<byte>, body: seq<byte>, at: nat)
    requires Ready(head, run) && |head| + |body| <= MAX_IP_TOTAL && run.gsoSize > 0
    ensures AllComplete(HeaderOf(run), SplitFrom(head, body, run.proto == PROTO_TCP, run.gsoSize, at))
    decreases |body| - at
  {
    hide SegmentCompletes, HeaderOf, Segment, Ready;
    RoomToSplit(run, head);
    if at < |body| {
      SegmentIsCompleted(run, head, body[at..Min(at + run.gsoSize, |body|)], at);
      SplitCompletes(run, head, body, at + run.gsoSize);
    }
  }

  lemma RoomToSplit(run: Run, head: seq<byte>)
    requires Ready(head, run)
    ensures IPV4_LEN + (if run.proto == PROTO_TCP then 20 else UDP_LEN) <= |head|
  {
  }

  /** The frame of every run of two or more asks for, and gets, the right checksum on every full segment. */
  lemma RunCompletes(run: Run, ps: seq<Packet>)
    requires Describes(run, ps) && run.count > 1
    ensures Finishable(FrameOf(ps), run)
    ensures var f := Finished(FrameOf(ps), run);
            Splittable(HeaderOf(run), f) && Completes(HeaderOf(run), f)
  {
    hide Finished, Restored, Completes, Splittable, HeaderOf, Chain, FrameOf, Split, Ready, Finishable;
    RunSplits(run, ps);
    RunRoom(run, ps);
    RunReady(run, ps);
    RunStates(run, ps);
    FrameCompletes(run, Finished(FrameOf(ps), run));
  }

  lemma RunStates(run: Run, ps: seq<Packet>)
    requires Describes(run, ps)
    ensures Finishable(FrameOf(ps), run) && StatesLength(Finished(FrameOf(ps), run))
  {
    hide Finished, SameHeaders, Get16, Payloads, FrameOf;
    RunRoom(run, ps);
    RunReady(run, ps);
    RunFrame(run, ps);
    FinishedStates(FrameOf(ps), run);
  }

  lemma FrameCompletes(run: Run, f: seq<byte>)
    requires Splittable(HeaderOf(run), f) && StatesLength(f)
    requires IPV4_LEN + run.l4Len <= |f| && f[9] == run.proto && Ready(f[..IPV4_LEN + run.l4Len], run)
    ensures Completes(HeaderOf(run), f)
  {
    hide AllComplete, HeaderOf, Partial, Get16;
    HeaderSays(run);
    HeaderSaysChecksum(run);
    var h, hdrLen := HeaderOf(run), IPV4_LEN + run.l4Len;
    SplitCompletes(run, f[..hdrLen], f[hdrLen..], 0);
    assert Split(h, f) == SplitFrom(f[..hdrLen], f[hdrLen..], run.proto == PROTO_TCP, run.gsoSize, 0);
  }

  lemma RunReady(run: Run, ps: seq<Packet>)
    requires Describes(run, ps)
    ensures Finishable(FrameOf(ps), run)
    ensures var f, hdrLen := Finished(FrameOf(ps), run), IPV4_LEN + run.l4Len;
            |f| >= hdrLen && f[9] == run.proto && Ready(f[..hdrLen], run)
  {
    hide SameHeaders, Finished, Partial, Get16, Payloads, Uniform, Sized, Numbered;
    RunRoom(run, ps);
    RunFrame(run, ps);
    var f, hdrLen := Finished(FrameOf(ps), run), IPV4_LEN + run.l4Len;
    var head := f[..hdrLen];
    FinishedCarriesPartial(FrameOf(ps), run);
    SlicedWord(f, 0, hdrLen, IPV4_LEN + CsumOffset(run.proto));
    assert f[0..hdrLen] == head;
    assert head[12..16] == f[12..16] && head[16..20] == f[16..20];
    PartialShared(f, head, run);
    ProtoInPlace(head, ps[0]);
  }

  lemma ProtoInPlace(head: seq<byte>, first: Packet)
    requires first.WellFormed() && CopiedFrom(head, first)
    ensures head[9] == first.proto
  {
    assert head[9] == (first.ip + first.l4)[9] == first.ip[9];
  }
}
