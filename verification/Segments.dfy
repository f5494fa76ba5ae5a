/** Segment construction and parsing of `segment.rs`. */
module Segments {
  import opened Bytes
  import opened Checksum

  const ETH_LEN: nat := 14
  const IPV4_LEN: nat := 20
  const TCP_LEN: nat := 20
  const PROTO_TCP: byte := 6
  const MAX_TCP_HEADER: nat := 60
  const DATA_OPTS_TS: nat := 12

  const FIN: byte := 0x01
  const SYN: byte := 0x02
  const RST: byte := 0x04
  const PSH: byte := 0x08
  const ACK: byte := 0x10

  type Ip = s: seq<byte> | |s| == 4 witness [0, 0, 0, 0]

  datatype Addr = Addr(ip: Ip, port: u16)

  /** One TCP option, in the order a stack writes them on a SYN. */
  datatype SynOption = Mss | SackPermitted | Timestamps | Nop | EndOfList | WindowScale {
    function Bytes(): nat {
      match this
      case Mss => 4
      case SackPermitted => 2
      case Timestamps => 10
      case Nop => 1
      case EndOfList => 1
      case WindowScale => 3
    }
  }

  /** The parts of an operating-system profile a segment depends on. */
  datatype Profile = Profile(
    ttl: byte, mss: u16, windowScale: Option<byte>, synWindow: u16, timestamps: bool, tsHz: u32,
    synOptions: seq<SynOption>)

  datatype Kind = Syn | SynAck | Ack | Data | Fin | Rst {
    function Flags(): byte {
      match this
      case Syn => SYN
      case SynAck => SYN + ACK
      case Ack => ACK
      case Data => ACK
      case Fin => FIN + ACK
      case Rst => RST
    }

    predicate IsSyn() { Syn? || SynAck? }
  }

  /** The volatile per-packet fields. */
  datatype Fields = Fields(
    src: Addr, dst: Addr, seqno: u32, ack: u32, window: u16, ipId: u16, tsVal: u32, tsEcr: u32,
    push: bool, mss: u16, dontFragment: bool)

  // ---- What a packet is ----------------------------------------------------------------------

  function SynOptionBytes(opt: SynOption, kind: Kind, p: Profile, f: Fields): (b: seq<byte>)
    ensures |b| == opt.Bytes()
  {
    match opt
    case Mss => [2, 4] + Be16(f.mss)
    case SackPermitted => [4, 2]
    case Timestamps => [8, 10] + Be32(f.tsVal) + Be32(if kind.SynAck? then f.tsEcr else 0)
    case Nop => [1]
    case EndOfList => [0]
    case WindowScale => [3, 3, p.windowScale.GetOr(0)]
  }

  function SynBytes(opts: seq<SynOption>, kind: Kind, p: Profile, f: Fields): seq<byte> {
    if opts == [] then []
    else SynBytes(opts[..|opts| - 1], kind, p, f) + SynOptionBytes(opts[|opts| - 1], kind, p, f)
  }

  function OptionBytes(kind: Kind, p: Profile, f: Fields): seq<byte> {
    if kind.IsSyn() then SynBytes(p.synOptions, kind, p, f)
    else if p.timestamps then [1, 1, 8, 10] + Be32(f.tsVal) + Be32(f.tsEcr)
    else []
  }

  function SynSize(opts: seq<SynOption>): nat {
    if opts == [] then 0 else SynSize(opts[..|opts| - 1]) + opts[|opts| - 1].Bytes()
  }

  function OptionSize(kind: Kind, p: Profile): nat {
    if kind.IsSyn() then SynSize(p.synOptions) else if p.timestamps then DATA_OPTS_TS else 0
  }

  lemma {:induction false} SynBytesSize(opts: seq<SynOption>, kind: Kind, p: Profile, f: Fields)
    ensures |SynBytes(opts, kind, p, f)| == SynSize(opts)
  {
    if opts != [] {
      SynBytesSize(opts[..|opts| - 1], kind, p, f);
    }
  }

  /** The length the header is sized by is the length the writer fills. */
  lemma OptionBytesSize(kind: Kind, p: Profile, f: Fields)
    ensures |OptionBytes(kind, p, f)| == OptionSize(kind, p)
  {
    if kind.IsSyn() {
      SynBytesSize(p.synOptions, kind, p, f);
    }
  }

  /** The IPv4 header, its checksum still zero. */
  function IpBlank(total: u16, p: Profile, f: Fields): (b: seq<byte>)
    ensures |b| == IPV4_LEN
  {
    [0x45, 0] + Be16(total) + Be16(f.ipId) + Be16(if f.dontFragment then 0x4000 else 0)
    + [p.ttl, PROTO_TCP] + [0, 0] + f.src.ip + f.dst.ip
  }

  function FlagsOf(kind: Kind, f: Fields): byte {
    kind.Flags() + if f.push && kind.Data? then PSH else 0
  }

  /** The TCP header without its options, its checksum still zero. */
  function TcpBlank(words: nat, kind: Kind, f: Fields): (b: seq<byte>)
    requires words <= 15
    ensures |b| == TCP_LEN
  {
    Be16(f.src.port) + Be16(f.dst.port) + Be32(f.seqno) + Be32(f.ack)
    + [words * 0x10, FlagsOf(kind, f)] + Be16(f.window) + [0, 0] + [0, 0]
  }

  /** The layout can be described at all: whole words, and a header within fifteen of them. */
  predicate Describable(kind: Kind, p: Profile) {
    OptionSize(kind, p) % 4 == 0 && TCP_LEN + OptionSize(kind, p) <= MAX_TCP_HEADER
  }

  function PacketLen(kind: Kind, p: Profile, payloadLen: nat): nat {
    IPV4_LEN + TCP_LEN + OptionSize(kind, p) + payloadLen
  }

  function IpHeader(total: u16, p: Profile, f: Fields): (b: seq<byte>)
    ensures |b| == IPV4_LEN
  {
    Patch(IpBlank(total, p, f), 10, Be16(Complement(Words(IpBlank(total, p, f)))))
  }

  function TcpUnsummed(kind: Kind, p: Profile, f: Fields, payload: seq<byte>): (b: seq<byte>)
    requires Describable(kind, p)
    ensures |b| >= TCP_LEN
  {
    TcpBlank((TCP_LEN + OptionSize(kind, p)) / 4, kind, f) + OptionBytes(kind, p, f) + payload
  }

  function PseudoOf(f: Fields, len: u16): nat {
    Words(PseudoBytes(f.src.ip, f.dst.ip, PROTO_TCP, len))
  }

  function TcpSegment(kind: Kind, p: Profile, f: Fields, payload: seq<byte>): (b: seq<byte>)
    requires Describable(kind, p) && |TcpUnsummed(kind, p, f, payload)| <= 0xFFFF
    ensures |b| == |TcpUnsummed(kind, p, f, payload)|
  {
    var blank := TcpUnsummed(kind, p, f, payload);
    Patch(blank, 16, Be16(Complement(PseudoOf(f, |blank|) + Words(blank))))
  }

  lemma SegmentLen(kind: Kind, p: Profile, f: Fields, payload: seq<byte>)
    requires Describable(kind, p)
    ensures IPV4_LEN + |TcpUnsummed(kind, p, f, payload)| == PacketLen(kind, p, |payload|)
  {
    OptionBytesSize(kind, p, f);
  }

  /** One whole packet. */
  function Packet(kind: Kind, p: Profile, f: Fields, payload: seq<byte>): (b: seq<byte>)
    requires Describable(kind, p) && PacketLen(kind, p, |payload|) <= 0xFFFF
    ensures |b| == PacketLen(kind, p, |payload|)
  {
    SegmentLen(kind, p, f, payload);
    IpHeader(PacketLen(kind, p, |payload|), p, f) + TcpSegment(kind, p, f, payload)
  }

  /** What `emit_parts` answers: the packet, or why there is none. */
  function Emitted(kind: Kind, p: Profile, f: Fields, payload: seq<byte>, room: nat): Result<seq<byte>> {
    var total := PacketLen(kind, p, |payload|);
    if !Describable(kind, p) then Err(Options(OptionSize(kind, p)))
    else if room < total then Err(Short(total, room))
    else if total > 0xFFFF then Err(TooLong(total))
    else Ok(Packet(kind, p, f, payload))
  }

  // ---- Checksums -----------------------------------------------------------------------------

  /** Both checksums of every packet verify, whatever its length. */
  lemma ChecksumsVerify(kind: Kind, p: Profile, f: Fields, payload: seq<byte>)
    requires Describable(kind, p) && PacketLen(kind, p, |payload|) <= 0xFFFF
    ensures var packet := Packet(kind, p, f, payload);
            && Complement(Words(packet[..IPV4_LEN])) == 0
            && Complement(PseudoOf(f, |packet| - IPV4_LEN) + Words(packet[IPV4_LEN..])) == 0
  {
    hide Words, Complement, PseudoOf;
    SegmentLen(kind, p, f, payload);
    var total: u16 := PacketLen(kind, p, |payload|);
    var packet, blank := Packet(kind, p, f, payload), TcpUnsummed(kind, p, f, payload);
    assert packet[..IPV4_LEN] == IpHeader(total, p, f);
    assert packet[IPV4_LEN..] == TcpSegment(kind, p, f, payload);
    BlankFields(total, p, f, kind, blank);
    FilledChecksumVerifies(0, IpBlank(total, p, f), 10);
    FilledChecksumVerifies(PseudoOf(f, |blank|), blank, 16);
  }

  lemma BlankFields(total: u16, p: Profile, f: Fields, kind: Kind, blank: seq<byte>)
    requires |blank| >= TCP_LEN && exists words: nat :: words <= 15 && blank[..TCP_LEN] == TcpBlank(words, kind, f)
    ensures Get16(IpBlank(total, p, f), 10) == 0 && Get16(blank, 16) == 0
  {
    assert blank[..TCP_LEN][16] == blank[16] && blank[..TCP_LEN][17] == blank[17];
  }

  // ---- Parsing -------------------------------------------------------------------------------

  datatype Segment = Segment(
    src: Addr, dst: Addr, seqno: u32, ack: u32, flags: byte, window: u16, tsVal: Option<u32>, payload: seq<byte>)
  {
    predicate Has(flag: byte) { HasFlag(flags, flag) }
  }

  /** `flags & flag != 0`, for a single-bit `flag`. */
  predicate HasFlag(flags: byte, flag: byte) {
    flag > 0 && flags / flag % 2 == 1
  }

  /** Where the timestamp option is looked for, from byte `i` of the option block. */
  function TimestampFrom(options: seq<byte>, i: nat): Option<u32>
    decreases |options| - i
  {
    if i >= |options| then None
    else if options[i] == 0 then None
    else if options[i] == 1 then TimestampFrom(options, i + 1)
    else if i + 1 >= |options| then None
    else
      var len := options[i + 1];
      if len < 2 || i + len > |options| then None
      else if options[i] == 8 && len == 10 then Some(Get32(options, i + 2))
      else TimestampFrom(options, i + len)
  }

  /** `find_timestamp`, the loop. */
  method FindTimestamp(options: seq<byte>) returns (ts: Option<u32>)
    ensures ts == TimestampFrom(options, 0)
  {
    var i := 0;
    while i < |options|
      invariant TimestampFrom(options, i) == TimestampFrom(options, 0)
    {
      var kind := options[i];
      if kind == 0 {
        return None;
      } else if kind == 1 {
        i := i + 1;
      } else {
        if i + 1 >= |options| {
          return None;
        }
        var len := options[i + 1];
        if len < 2 || i + len > |options| {
          return None;
        }
        if kind == 8 && len == 10 {
          return Some(Get32(options, i + 2));
        }
        i := i + len;
      }
    }
    return None;
  }

  function ParseTcp(tcp: seq<byte>, src: Ip, dst: Ip): Option<Segment> {
    if |tcp| < TCP_LEN then None
    else
      var headerLen := tcp[12] / 0x10 * 4;
      if headerLen < TCP_LEN || headerLen > |tcp| then None
      else
        Some(Segment(
          Addr(src, Get16(tcp, 0)), Addr(dst, Get16(tcp, 2)), Get32(tcp, 4), Get32(tcp, 8),
          tcp[13], Get16(tcp, 14), TimestampFrom(tcp[TCP_LEN..headerLen], 0), tcp[headerLen..]))
  }

  /** The fragment word of a whole datagram: at most Don't Fragment is set. */
  predicate Whole(frag: u16) {
    frag == 0 || frag == 0x4000
  }

  /** The header checks every IPv4 parser here makes: where its payload begins and ends. */
  function Ipv4Payload(packet: seq<byte>, proto: byte): Option<(nat, nat)> {
    if |packet| < 1 || packet[0] / 0x10 != 4 || packet[0] % 0x10 < 5 then None
    else
      var headerLen := packet[0] % 0x10 * 4;
      if |packet| < 10 || packet[9] != proto || !Whole(Get16(packet, 6)) then None
      else
        var total := Get16(packet, 2);
        if total < headerLen || total > |packet| then None
        else Some((headerLen, total))
  }

  function ParseIpv4(packet: seq<byte>): Option<Segment> {
    var bounds :- Ipv4Payload(packet, PROTO_TCP);
    if |packet| < 20 then None
    else ParseTcp(packet[bounds.0..bounds.1], packet[12..16], packet[16..20])
  }

  function ParseEthernet(frame: seq<byte>): Option<Segment> {
    if |frame| < ETH_LEN || Get16(frame, 12) != 0x0800 then None
    else ParseIpv4(frame[ETH_LEN..])
  }

  // ---- Round trip ----------------------------------------------------------------------------

  /** The timestamp a reader can find: the options before an end-of-list are all it reads. */
  function Findable(opts: seq<SynOption>): bool {
    opts != [] && (opts[0].Timestamps? || (!opts[0].EndOfList? && Findable(opts[1..])))
  }

  function ExpectedTimestamp(kind: Kind, p: Profile, f: Fields): Option<u32> {
    if (if kind.IsSyn() then Findable(p.synOptions) else p.timestamps) then Some(f.tsVal) else None
  }

  lemma {:induction false} SynBytesCons(opts: seq<SynOption>, kind: Kind, p: Profile, f: Fields)
    requires opts != []
    ensures SynBytes(opts, kind, p, f) == SynOptionBytes(opts[0], kind, p, f) + SynBytes(opts[1..], kind, p, f)
  {
    hide SynOptionBytes;
    if |opts| == 1 {
      assert opts[..0] == [] && opts[1..] == [];
    } else {
      var front := opts[..|opts| - 1];
      SynBytesCons(front, kind, p, f);
      assert front[1..] == opts[1..][..|opts| - 2];
      assert opts[1..][|opts| - 2] == opts[|opts| - 1];
    }
  }

  /** Reading on from byte `a` is reading what follows it. */
  lemma {:induction false} TimestampShift(s: seq<byte>, a: nat, i: nat)
    requires a <= |s|
    ensures TimestampFrom(s, a + i) == TimestampFrom(s[a..], i)
    decreases |s| - a - i
  {
    var t := s[a..];
    if i + 1 < |t| && t[i] > 1 && t[i + 1] >= 2 {
      assert s[a + i + 1] == t[i + 1];
      TimestampShift(s, a, i + t[i + 1]);
      if i + 10 <= |t| {
        assert s[a + i + 2..a + i + 6] == t[i + 2..i + 6];
        assert Get32(s, a + i + 2) == Get32(t, i + 2);
      }
    } else if i < |t| {
      TimestampShift(s, a, i + 1);
    }
  }

  /** Reading one option that is there, and then the rest. */
  lemma OneOption(opt: SynOption, rest: seq<byte>, kind: Kind, p: Profile, f: Fields)
    ensures TimestampFrom(SynOptionBytes(opt, kind, p, f) + rest, 0)
            == if opt.Timestamps? then Some(f.tsVal) else if opt.EndOfList? then None else TimestampFrom(rest, 0)
  {
    var head := SynOptionBytes(opt, kind, p, f);
    var all := head + rest;
    assert all[|head|..] == rest;
    TimestampShift(all, |head|, 0);
    if opt.Timestamps? {
      assert all[2..6] == Be32(f.tsVal);
      SliceGet32(all, 2);
      Be32RoundTrip(f.tsVal);
    }
  }

  lemma SliceGet32(s: seq<byte>, at: nat)
    requires at + 4 <= |s|
    ensures Get32(s[at..at + 4], 0) == Get32(s, at)
  {
  }

  /** The timestamp is found in a SYN's options exactly when no end-of-list comes before it. */
  lemma {:induction false} SynTimestamp(opts: seq<SynOption>, kind: Kind, p: Profile, f: Fields)
    ensures TimestampFrom(SynBytes(opts, kind, p, f), 0) == if Findable(opts) then Some(f.tsVal) else None
  {
    if opts != [] {
      hide SynOptionBytes;
      SynBytesCons(opts, kind, p, f);
      OneOption(opts[0], SynBytes(opts[1..], kind, p, f), kind, p, f);
      SynTimestamp(opts[1..], kind, p, f);
    }
  }

  lemma OptionsTimestamp(kind: Kind, p: Profile, f: Fields)
    ensures TimestampFrom(OptionBytes(kind, p, f), 0) == ExpectedTimestamp(kind, p, f)
  {
    if kind.IsSyn() {
      SynTimestamp(p.synOptions, kind, p, f);
    } else if p.timestamps {
      var b := OptionBytes(kind, p, f);
      assert b[4..8] == Be32(f.tsVal);
      SliceGet32(b, 4);
      Be32RoundTrip(f.tsVal);
      assert TimestampFrom(b, 0) == TimestampFrom(b, 1) == TimestampFrom(b, 2);
    }
  }

  /** What a reader makes of a packet this module wrote. */
  function AsRead(kind: Kind, p: Profile, f: Fields, payload: seq<byte>): Segment {
    Segment(f.src, f.dst, f.seqno, f.ack, FlagsOf(kind, f), f.window, ExpectedTimestamp(kind, p, f), payload)
  }

  lemma TcpFields(tcp: seq<byte>, words: nat, kind: Kind, f: Fields)
    requires words <= 15 && |tcp| >= TCP_LEN
    requires forall i :: 0 <= i < 16 ==> tcp[i] == TcpBlank(words, kind, f)[i]
    ensures Get16(tcp, 0) == f.src.port && Get16(tcp, 2) == f.dst.port
    ensures Get32(tcp, 4) == f.seqno && Get32(tcp, 8) == f.ack
    ensures tcp[12] == words * 0x10 && tcp[13] == FlagsOf(kind, f) && Get16(tcp, 14) == f.window
  {
    hide Get16, Get32, Be16, Be32;
    var b := TcpBlank(words, kind, f);
    Be16RoundTrip(f.src.port);
    Be16RoundTrip(f.dst.port);
    Be32RoundTrip(f.seqno);
    Be32RoundTrip(f.ack);
    Be16RoundTrip(f.window);
    assert tcp[0..2] == b[0..2] == Be16(f.src.port);
    assert tcp[2..4] == b[2..4] == Be16(f.dst.port);
    assert tcp[4..8] == b[4..8] == Be32(f.seqno);
    assert tcp[8..12] == b[8..12] == Be32(f.ack);
    assert tcp[14..16] == b[14..16] == Be16(f.window);
    SliceGet16(tcp, 0);
    SliceGet16(tcp, 2);
    SliceGet32(tcp, 4);
    SliceGet32(tcp, 8);
    SliceGet16(tcp, 14);
  }

  lemma SliceGet16(s: seq<byte>, at: nat)
    requires at + 2 <= |s|
    ensures Get16(s[at..at + 2], 0) == Get16(s, at)
  {
  }

  lemma TcpReadsBack(kind: Kind, p: Profile, f: Fields, payload: seq<byte>)
    requires Describable(kind, p) && |TcpUnsummed(kind, p, f, payload)| <= 0xFFFF
    ensures ParseTcp(TcpSegment(kind, p, f, payload), f.src.ip, f.dst.ip) == Some(AsRead(kind, p, f, payload))
  {
    hide Words, Complement, PseudoOf, OptionBytes, TcpBlank, TimestampFrom, Get16, Get32, ExpectedTimestamp;
    var blank, tcp := TcpUnsummed(kind, p, f, payload), TcpSegment(kind, p, f, payload);
    var words := (TCP_LEN + OptionSize(kind, p)) / 4;
    OptionBytesSize(kind, p, f);
    TcpFields(tcp, words, kind, f);
    assert tcp[TCP_LEN..words * 4] == blank[TCP_LEN..words * 4] == OptionBytes(kind, p, f);
    assert tcp[words * 4..] == blank[words * 4..] == payload;
    OptionsTimestamp(kind, p, f);
  }

  lemma IpFields(ip: seq<byte>, total: u16, p: Profile, f: Fields)
    requires |ip| == IPV4_LEN
    requires forall i :: 0 <= i < IPV4_LEN && !(10 <= i < 12) ==> ip[i] == IpBlank(total, p, f)[i]
    ensures ip[0] == 0x45 && ip[9] == PROTO_TCP && Get16(ip, 2) == total && Whole(Get16(ip, 6))
    ensures ip[12..16] == f.src.ip && ip[16..20] == f.dst.ip
  {
    hide Be16, Get16;
    var b := IpBlank(total, p, f);
    var frag: u16 := if f.dontFragment then 0x4000 else 0;
    Be16RoundTrip(total);
    Be16RoundTrip(frag);
    assert ip[2..4] == b[2..4] == Be16(total);
    assert ip[6..8] == b[6..8] == Be16(frag);
    SliceGet16(ip, 2);
    SliceGet16(ip, 6);
    assert ip[12..16] == b[12..16];
    assert ip[16..20] == b[16..20];
  }

  /** A whole datagram and whatever trails it. */
  lemma Ipv4ReadsBack(ip: seq<byte>, body: seq<byte>, padding: seq<byte>, proto: byte)
    requires |ip| == IPV4_LEN && ip[0] == 0x45 && ip[9] == proto && Whole(Get16(ip, 6))
    requires Get16(ip, 2) == IPV4_LEN + |body|
    ensures var packet := ip + body + padding;
            && Ipv4Payload(packet, proto) == Some((IPV4_LEN as nat, IPV4_LEN + |body|))
            && packet[IPV4_LEN..IPV4_LEN + |body|] == body
            && packet[12..16] == ip[12..16] && packet[16..20] == ip[16..20]
  {
    var packet := ip + body + padding;
    assert packet[2] == ip[2] && packet[3] == ip[3] && packet[6] == ip[6] && packet[7] == ip[7];
  }

  /** Printing then parsing: the same addresses, ports, numbers, flags, window, timestamp and
      payload, for every layout that can be described, whatever padding follows. */
  lemma RoundTrip(kind: Kind, p: Profile, f: Fields, payload: seq<byte>, padding: seq<byte>)
    requires Describable(kind, p) && PacketLen(kind, p, |payload|) <= 0xFFFF
    ensures ParseIpv4(Packet(kind, p, f, payload) + padding) == Some(AsRead(kind, p, f, payload))
  {
    hide IpBlank, TcpSegment, ParseTcp, Complement, Words, AsRead, Ipv4Payload;
    SegmentLen(kind, p, f, payload);
    var total: u16 := PacketLen(kind, p, |payload|);
    var ip, tcp := IpHeader(total, p, f), TcpSegment(kind, p, f, payload);
    IpFields(ip, total, p, f);
    Ipv4ReadsBack(ip, tcp, padding, PROTO_TCP);
    TcpReadsBack(kind, p, f, payload);
  }

  // ---- What is parsed at all -----------------------------------------------------------------

  /** A whole IPv4 datagram of this protocol, by its own header: the version, a sane header length, no fragment
      bit but Don't Fragment, and a length the packet has. */
  predicate IsDatagram(b: seq<byte>, proto: byte) {
    && |b| >= 20 && b[0] / 0x10 == 4 && b[0] % 0x10 >= 5 && b[9] == proto
    && (Get16(b, 6) == 0 || Get16(b, 6) == 0x4000)
    && b[0] % 0x10 * 4 <= Get16(b, 2) <= |b|
  }

  lemma DatagramExact(b: seq<byte>, proto: byte)
    ensures Ipv4Payload(b, proto).Some? <==> IsDatagram(b, proto)
    ensures IsDatagram(b, proto) ==> Ipv4Payload(b, proto).value == (b[0] % 0x10 * 4, Get16(b, 2) as nat)
  {
    hide Get16;
  }

  /** Exactly such a datagram with a whole TCP header is a segment, and each field of it is read where the two
      header lengths put it, IP options and all. */
  lemma ParseExact(b: seq<byte>)
    ensures ParseIpv4(b).Some?
            <==> && IsDatagram(b, 6) && b[0] % 0x10 * 4 + 20 <= Get16(b, 2)
                 && var at := b[0] % 0x10 * 4; 20 <= b[at + 12] / 0x10 * 4 <= Get16(b, 2) - at
    ensures ParseIpv4(b).Some? ==>
              var seg, at, end := ParseIpv4(b).value, b[0] % 0x10 * 4, Get16(b, 2);
              && at + 20 <= end <= |b|
              && seg.src == Addr(b[12..16], Get16(b, at)) && seg.dst == Addr(b[16..20], Get16(b, at + 2))
              && seg.seqno == Get32(b, at + 4) && seg.ack == Get32(b, at + 8)
              && seg.flags == b[at + 13] && seg.window == Get16(b, at + 14)
              && at + b[at + 12] / 0x10 * 4 <= end && seg.payload == b[at + b[at + 12] / 0x10 * 4..end]
  {
    hide Get16, Get32, Ipv4Payload, TimestampFrom;
    DatagramExact(b, 6);
    if IsDatagram(b, 6) {
      var at, end := b[0] % 0x10 * 4, Get16(b, 2);
      var tcp := b[at..end];
      if at + 20 <= end {
        assert tcp[12] == b[at + 12];
        SlicedWords(b, at, end);
      }
    }
  }

  lemma SlicedWords(b: seq<byte>, at: nat, end: nat)
    requires at + 20 <= end <= |b|
    ensures var t := b[at..end];
            && Get16(t, 0) == Get16(b, at) && Get16(t, 2) == Get16(b, at + 2) && Get16(t, 14) == Get16(b, at + 14)
            && Get32(t, 4) == Get32(b, at + 4) && Get32(t, 8) == Get32(b, at + 8)
  {
  }
}
