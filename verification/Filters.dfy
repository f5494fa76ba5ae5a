/** The kernel's filter against the parsers behind it: nothing userspace would take is dropped. */
module Filters {
  import opened Bytes
  import Segments
  import RawIp
  import TooBig
  import opened Bpf

  /** What a filter is asked to let through. */
  datatype Match = Ports(ports: seq<u16>) | Protocol(proto: byte)

  /** `program`. */
  function Program(what: Match): seq<Insn> {
    match what
    case Ports(ports) => PortsCode(ports)
    case Protocol(proto) => ProtocolCode(proto)
  }

  predicate Accepted(what: Match, frame: seq<byte>) {
    Exec(Program(what), frame, 0, 0, 0) == Returned(ACCEPT)
  }

  /** The port lists the generator is right for. */
  predicate Expressible(what: Match) {
    what.Ports? ==> 1 <= |what.ports| <= 248
  }

  function Wanted(what: Match, frame: seq<byte>): bool {
    match what
    case Ports(ports) => WantedByPorts(ports, frame)
    case Protocol(proto) => WantedByProtocol(proto, frame)
  }

  lemma ProgramCorrect(what: Match, frame: seq<byte>)
    requires Expressible(what)
    ensures Accepted(what, frame) <==> Wanted(what, frame)
  {
    hide Exec, PortsCode, ProtocolCode, WantedByPorts, WantedByProtocol;
    match what
    case Ports(ports) => PortsProgramCorrect(ports, frame);
    case Protocol(proto) => ProtocolProgramCorrect(proto, frame);
  }

  /** What the parsers' header checks say of the whole frame. */
  lemma HeaderChecks(frame: seq<byte>, proto: byte)
    requires |frame| >= 14 && Get16(frame, 12) == 0x0800
    requires Segments.Ipv4Payload(frame[14..], proto).Some?
    ensures IsIpv4(frame) && IpProtocol(frame) == Some(proto) && FirstFragment(frame)
    ensures Segments.Ipv4Payload(frame[14..], proto).value.0 == Transport(frame) - 14
  {
    var packet := frame[14..];
    assert packet[6] == frame[20] && packet[7] == frame[21] && packet[9] == frame[23];
  }

  /** Every segment the carrier would parse for a listed port is accepted. */
  lemma SegmentsPass(ports: seq<u16>, frame: seq<byte>)
    requires Expressible(Ports(ports))
    requires var seg := Segments.ParseEthernet(frame); seg.Some? && seg.value.dst.port in ports
    ensures Accepted(Ports(ports), frame)
  {
    hide Segments.ParseEthernet, Segments.Ipv4Payload, Accepted, FirstFragment, IsIpv4, IpProtocol, Transport, Get16;
    SegmentRead(frame);
    HeaderChecks(frame, Segments.PROTO_TCP);
    var bounds := Segments.Ipv4Payload(frame[14..], Segments.PROTO_TCP).value;
    PortInPlace(frame, frame[14..], bounds.0, bounds.1);
    ProgramCorrect(Ports(ports), frame);
  }

  /** Where a parsed segment's destination port was read. */
  lemma SegmentRead(frame: seq<byte>)
    requires Segments.ParseEthernet(frame).Some?
    ensures |frame| >= 14 && Get16(frame, 12) == 0x0800
    ensures var packet := frame[14..];
            var bounds := Segments.Ipv4Payload(packet, Segments.PROTO_TCP);
            && bounds.Some? && bounds.value.0 + 4 <= bounds.value.1 <= |packet|
            && Segments.ParseEthernet(frame).value.dst.port == Get16(packet[bounds.value.0..bounds.value.1], 2)
  {
    hide Segments.TimestampFrom, Get16;
  }

  lemma PortInPlace(frame: seq<byte>, packet: seq<byte>, from: nat, to: nat)
    requires |frame| >= 14 && packet == frame[14..] && from + 4 <= to <= |packet|
    ensures At16(frame, 14 + from + 2) == Some(Get16(packet[from..to], 2))
  {
  }

  /** Every raw-IP packet the configured shell would parse is accepted. */
  lemma CarriedPass(shell: RawIp.Shell, frame: seq<byte>)
    requires RawIp.ParseEthernet(frame, shell).Some?
    ensures Accepted(Protocol(shell.Protocol()), frame)
  {
    hide Exec, Program, Segments.Ipv4Payload, RawIp.ParseShell;
    HeaderChecks(frame, shell.Protocol());
    ProgramCorrect(Protocol(shell.Protocol()), frame);
  }

  /** Every path-MTU report is accepted, whatever the filter is for. */
  lemma ReportsPass(what: Match, frame: seq<byte>)
    requires Expressible(what) && TooBig.ParseFrame(frame).Some?
    ensures Accepted(what, frame)
  {
    hide Exec, Program, TooBig.ParseQuoted;
    var packet := frame[14..];
    assert packet[6] == frame[20] && packet[7] == frame[21] && packet[9] == frame[23];
    var icmp := packet[TooBig.HeaderLen(packet).value..];
    assert icmp[0] == frame[Transport(frame)] && icmp[1] == frame[Transport(frame) + 1];
    ProgramCorrect(what, frame);
  }

  // ---- Which parser takes what ---------------------------------------------------------------

  /** On protocol 1 the carrier takes exactly echoes of code zero, whole enough to have their numbers. */
  lemma EchoesOnly(rest: seq<byte>)
    ensures RawIp.ParseShell(rest, RawIp.Icmp).Some? <==> |rest| >= 8 && (rest[0] == 8 || rest[0] == 0) && rest[1] == 0
  {
  }

  /** No path-MTU report is taken for a ping, so each falls through to its own parser. */
  lemma ReportsAreNotPings(frame: seq<byte>)
    requires TooBig.ParseFrame(frame).Some?
    ensures RawIp.ParseEthernet(frame, RawIp.Icmp).None?
  {
    hide TooBig.ParseQuoted, Get16, RawIp.ParseShell;
    var packet := frame[14..];
    var bounds := Segments.Ipv4Payload(packet, RawIp.PROTO_ICMP);
    if bounds.Some? {
      var rest := packet[bounds.value.0..bounds.value.1];
      EchoesOnly(rest);
      if |rest| >= 8 {
        assert rest[0] == packet[bounds.value.0..][0] == 3;
      }
    }
  }
}
