/** Path-MTU reports, from `toobig.rs`: ICMP "fragmentation needed", and the packet it quotes. */
module TooBig {
  import opened Bytes
  import opened Checksum
  import opened Segments
  import RawIp

  const PROTO_ICMP: byte := 1
  const DEST_UNREACHABLE: byte := 3
  const FRAGMENTATION_NEEDED: byte := 4
  const MIN_IPV4_MTU: u16 := 68
  const PROTO_UDP: byte := 17

  datatype Report = Report(
    mtu: u16, origin: Ip, destination: Ip, protocol: byte, size: u16, ports: Option<(u16, u16)>)

  /** `ipv4_header_len`. */
  function HeaderLen(packet: seq<byte>): (len: Option<nat>)
    ensures len.Some? ==> 20 <= len.value <= 60
  {
    if |packet| < 1 || packet[0] / 0x10 != 4 || packet[0] % 0x10 < 5 then None else Some(packet[0] % 0x10 * 4)
  }

  predicate HasPorts(protocol: byte) {
    protocol == PROTO_TCP || protocol == PROTO_UDP
  }

  /** What the quotation says of the packet that was too big. */
  function ParseQuoted(quoted: seq<byte>, mtu: u16): Option<Report> {
    var len :- HeaderLen(quoted);
    if |quoted| < 20 then None
    else
      var ports := if HasPorts(quoted[9]) && len + 4 <= |quoted|
                   then Some((Get16(quoted, len), Get16(quoted, len + 2))) else None;
      Some(Report(mtu, quoted[12..16], quoted[16..20], quoted[9], Get16(quoted, 2), ports))
  }

  function ParseReport(packet: seq<byte>): Option<Report> {
    var len :- HeaderLen(packet);
    if |packet| < 10 || packet[9] != PROTO_ICMP || !Whole(Get16(packet, 6)) || |packet| < len then None
    else
      var icmp := packet[len..];
      if |icmp| < 8 || icmp[0] != DEST_UNREACHABLE || icmp[1] != FRAGMENTATION_NEEDED then None
      else ParseQuoted(icmp[8..], Get16(icmp, 6))
  }

  function ParseFrame(frame: seq<byte>): Option<Report> {
    if |frame| < ETH_LEN || Get16(frame, 12) != 0x0800 then None else ParseReport(frame[ETH_LEN..])
  }

  predicate Describes(r: Report, from: Addr, to: Addr, protocol: byte) {
    && r.origin == from.ip && r.destination == to.ip && r.protocol == protocol
    && (r.ports.Some? ==> r.ports.value == (from.port, to.port))
  }

  function Usable(r: Report): Option<u16> {
    if r.mtu < MIN_IPV4_MTU then None else Some(r.mtu)
  }

  function Shortfall(r: Report): Option<u16> {
    var mtu :- Usable(r);
    if r.size > mtu then Some(r.size - mtu) else None
  }

  /** A hop's report, quoting the first `n` bytes of the packet it refused. */
  function ReportOn(ip: seq<byte>, ck: u16, unused: u16, mtu: u16, packet: seq<byte>, n: nat): seq<byte>
    requires n <= |packet|
  {
    ip + ([DEST_UNREACHABLE, FRAGMENTATION_NEEDED] + Be16(ck) + Be16(unused) + Be16(mtu)) + packet[..n]
  }

  /** The IPv4 header of a report, with any options. */
  predicate CarriesReport(ip: seq<byte>) {
    HeaderLen(ip) == Some(|ip|) && ip[9] == PROTO_ICMP && Whole(Get16(ip, 6))
  }

  lemma ReportOpens(ip: seq<byte>, ck: u16, unused: u16, mtu: u16, packet: seq<byte>, n: nat)
    requires CarriesReport(ip) && n <= |packet|
    ensures ParseReport(ReportOn(ip, ck, unused, mtu, packet, n)) == ParseQuoted(packet[..n], mtu)
  {
    hide ParseQuoted, Get16, Be16;
    var head := [DEST_UNREACHABLE, FRAGMENTATION_NEEDED] + Be16(ck) + Be16(unused) + Be16(mtu);
    var all := ReportOn(ip, ck, unused, mtu, packet, n);
    var icmp := all[|ip|..];
    assert icmp == head + packet[..n];
    assert all[6..8] == ip[6..8];
    SliceGet16(all, 6);
    SliceGet16(ip, 6);
    assert icmp[6..8] == Be16(mtu);
    SliceGet16(icmp, 6);
    Be16RoundTrip(mtu);
    assert icmp[8..] == packet[..n];
  }

  /** A report on a segment this end sent, quoting at least its IPv4 header: read back with the sizes it
      is about, it describes that connection and no other, as far as the quotation reaches, and the
      shortfall is how far the segment was over. */
  lemma ReportOnSegment(ip: seq<byte>, ck: u16, unused: u16, mtu: u16, n: nat,
                        kind: Kind, p: Profile, f: Fields, payload: seq<byte>, from: Addr, to: Addr, protocol: byte)
    requires CarriesReport(ip)
    requires Describable(kind, p) && PacketLen(kind, p, |payload|) <= 0xFFFF
    requires IPV4_LEN <= n <= PacketLen(kind, p, |payload|)
    ensures var packet := Packet(kind, p, f, payload);
            var r := ParseReport(ReportOn(ip, ck, unused, mtu, packet, n));
            && r.Some?
            && (Describes(r.value, from, to, protocol)
                <==> && from.ip == f.src.ip && to.ip == f.dst.ip && protocol == PROTO_TCP
                     && (n >= IPV4_LEN + 4 ==> from.port == f.src.port && to.port == f.dst.port))
            && Shortfall(r.value) == if MIN_IPV4_MTU <= mtu < |packet| then Some(|packet| - mtu) else None
  {
    hide ParseReport, ParseQuoted, Packet, ReportOn;
    ReportOpens(ip, ck, unused, mtu, Packet(kind, p, f, payload), n);
    QuotedSegment(mtu, n, kind, p, f, payload);
  }

  lemma QuotedSegment(mtu: u16, n: nat, kind: Kind, p: Profile, f: Fields, payload: seq<byte>)
    requires Describable(kind, p) && PacketLen(kind, p, |payload|) <= 0xFFFF
    requires IPV4_LEN <= n <= PacketLen(kind, p, |payload|)
    ensures ParseQuoted(Packet(kind, p, f, payload)[..n], mtu)
            == Some(Report(mtu, f.src.ip, f.dst.ip, PROTO_TCP, PacketLen(kind, p, |payload|),
                           if n >= IPV4_LEN + 4 then Some((f.src.port, f.dst.port)) else None))
  {
    hide Words, Complement, IpBlank, Get16, TcpSegment;
    var total: u16 := PacketLen(kind, p, |payload|);
    var quoted := Packet(kind, p, f, payload)[..n];
    var head := IpHeader(total, p, f);
    IpFields(head, total, p, f);
    assert quoted[..IPV4_LEN] == head;
    assert quoted[2..4] == head[2..4] && quoted[12..16] == head[12..16] && quoted[16..20] == head[16..20];
    SliceGet16(quoted, 2);
    SliceGet16(head, 2);
    if n >= IPV4_LEN + 4 {
      QuotedPorts(quoted, n, kind, p, f, payload);
    }
  }

  /** Past its IPv4 header, a quotation is the front of the segment. */
  lemma QuotedTcp(quoted: seq<byte>, n: nat, kind: Kind, p: Profile, f: Fields, payload: seq<byte>)
    requires Describable(kind, p) && PacketLen(kind, p, |payload|) <= 0xFFFF
    requires IPV4_LEN <= n <= PacketLen(kind, p, |payload|)
    requires quoted == Packet(kind, p, f, payload)[..n]
    ensures IPV4_LEN + |TcpUnsummed(kind, p, f, payload)| == PacketLen(kind, p, |payload|)
    ensures quoted[IPV4_LEN..] == TcpSegment(kind, p, f, payload)[..n - IPV4_LEN]
  {
    hide IpHeader, TcpSegment, TcpUnsummed;
    SegmentLen(kind, p, f, payload);
  }

  lemma QuotedPorts(quoted: seq<byte>, n: nat, kind: Kind, p: Profile, f: Fields, payload: seq<byte>)
    requires Describable(kind, p) && PacketLen(kind, p, |payload|) <= 0xFFFF
    requires IPV4_LEN + 4 <= n <= PacketLen(kind, p, |payload|)
    requires quoted == Packet(kind, p, f, payload)[..n]
    ensures Get16(quoted, IPV4_LEN) == f.src.port && Get16(quoted, IPV4_LEN + 2) == f.dst.port
  {
    hide Words, Complement, Packet, Get16, Be16, PseudoOf, TcpBlank, OptionBytes;
    SegmentLen(kind, p, f, payload);
    var tcp := TcpSegment(kind, p, f, payload);
    TcpFields(tcp, (TCP_LEN + OptionSize(kind, p)) / 4, kind, f);
    QuotedTcp(quoted, n, kind, p, f, payload);
    assert quoted[IPV4_LEN..][0..2] == quoted[IPV4_LEN..IPV4_LEN + 2] && quoted[IPV4_LEN..][2..4] == quoted[IPV4_LEN + 2..IPV4_LEN + 4];
    assert tcp[..n - IPV4_LEN][0..2] == tcp[0..2] && tcp[..n - IPV4_LEN][2..4] == tcp[2..4];
    SliceGet16(quoted, IPV4_LEN);
    SliceGet16(quoted, IPV4_LEN + 2);
    SliceGet16(tcp, 0);
    SliceGet16(tcp, 2);
  }

  // ---- Reports on raw-IP packets --------------------------------------------------------------

  /** What the quotation of a raw-IP packet says: ports are read only where the protocol is one that has them. */
  lemma QuotedCarried(mtu: u16, n: nat, w: RawIp.Wire, payload: seq<byte>)
    requires RawIp.CarriedLen(w, payload) <= 0xFFFF && IPV4_LEN <= n <= RawIp.CarriedLen(w, payload)
    ensures var quoted := RawIp.Carried(w, payload)[..n];
            ParseQuoted(quoted, mtu)
            == Some(Report(mtu, w.local, w.remote, w.shell.Protocol(), RawIp.CarriedLen(w, payload),
                           if (w.shell.Protocol() == 6 || w.shell.Protocol() == 17) && n >= IPV4_LEN + 4
                           then Some((Get16(quoted, IPV4_LEN), Get16(quoted, IPV4_LEN + 2))) else None))
  {
    hide Words, Complement, RawIp.IpUnsummed, RawIp.Body, Get16;
    var total: u16 := RawIp.CarriedLen(w, payload);
    var quoted, head := RawIp.Carried(w, payload)[..n], RawIp.OuterHeader(w, total);
    RawIp.IpFields(w, total, head);
    RawIp.TotalField(w, total);
    assert quoted[..IPV4_LEN] == head;
    assert quoted[2..4] == head[2..4] && quoted[12..16] == head[12..16] && quoted[16..20] == head[16..20];
    SliceGet16(quoted, 2);
    SliceGet16(head, 2);
  }

  /** A report on a packet a raw-IP carrier sent, quoting at least its IPv4 header: it describes that pair of
      addresses and that protocol and nothing else, whatever ports are asked about, unless the protocol is one
      of the two that have ports and the quotation reaches them; and the shortfall is how far the packet was
      over. */
  lemma ReportOnCarried(ip: seq<byte>, ck: u16, unused: u16, mtu: u16, n: nat, w: RawIp.Wire, payload: seq<byte>,
                        from: Addr, to: Addr, protocol: byte)
    requires CarriesReport(ip)
    requires RawIp.CarriedLen(w, payload) <= 0xFFFF && IPV4_LEN <= n <= RawIp.CarriedLen(w, payload)
    ensures var packet := RawIp.Carried(w, payload);
            var r := ParseReport(ReportOn(ip, ck, unused, mtu, packet, n));
            && r.Some?
            && (Describes(r.value, from, to, protocol)
                <==> && from.ip == w.local && to.ip == w.remote && protocol == w.shell.Protocol()
                     && ((protocol == 6 || protocol == 17) && n >= IPV4_LEN + 4 ==>
                           from.port == Get16(packet, IPV4_LEN) && to.port == Get16(packet, IPV4_LEN + 2)))
            && Shortfall(r.value) == if 68 <= mtu < |packet| then Some(|packet| - mtu) else None
  {
    hide ParseReport, ParseQuoted, RawIp.Carried, ReportOn, Get16;
    var packet := RawIp.Carried(w, payload);
    ReportOpens(ip, ck, unused, mtu, packet, n);
    QuotedCarried(mtu, n, w, payload);
    if n >= IPV4_LEN + 4 {
      FrontWord(packet, n, IPV4_LEN);
      FrontWord(packet, n, IPV4_LEN + 2);
    }
  }

  lemma FrontWord(packet: seq<byte>, n: nat, at: nat)
    requires at + 2 <= n <= |packet|
    ensures Get16(packet[..n], at) == Get16(packet, at)
  {
  }

  // ---- What is read at all -------------------------------------------------------------------

  predicate HasIpv4Header(b: seq<byte>) {
    |b| >= 1 && b[0] / 0x10 == 4 && b[0] % 0x10 >= 5
  }

  /** Exactly an unfragmented ICMP 3/4 message that quotes at least an IPv4 header's fixed part is a report. */
  lemma ReportExact(b: seq<byte>)
    ensures ParseReport(b).Some?
            <==> && HasIpv4Header(b) && |b| >= 10 && b[9] == 1 && (Get16(b, 6) == 0 || Get16(b, 6) == 0x4000)
                 && var at := b[0] % 0x10 * 4;
                    && at + 28 <= |b| && b[at] == 3 && b[at + 1] == 4 && HasIpv4Header(b[at + 8..])
  {
    hide Get16;
    if HasIpv4Header(b) {
      var at := b[0] % 0x10 * 4;
      if at + 8 <= |b| {
        assert b[at..][8..] == b[at + 8..];
      }
    }
  }
}
