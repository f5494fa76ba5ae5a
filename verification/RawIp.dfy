/** The raw-IP carriers of `rawip.rs`: an IPv4 header, a small shell, and the payload. */
module RawIp {
  import opened Bytes
  import opened Checksum
  import opened Segments
  import opened Emission

  const PROTO_GRE: byte := 47
  const PROTO_ICMP: byte := 1
  const GRE_LEN: nat := 4
  const ICMP_LEN: nat := 8
  const ECHO_REQUEST: byte := 8
  const ECHO_REPLY: byte := 0
  const PROTO_TYPE_IPV4: u16 := 0x0800

  /** What sits between the IPv4 header and the payload. */
  datatype Shell = Gre | Bare(proto: byte) | Icmp {
    function Protocol(): byte {
      match this
      case Gre => PROTO_GRE
      case Bare(proto) => proto
      case Icmp => PROTO_ICMP
    }

    function Len(): nat {
      match this
      case Gre => GRE_LEN
      case Bare(_) => 0
      case Icmp => ICMP_LEN
    }
  }

  /** Which half of a ping an end sends, under which identifier, and what it answers with. */
  datatype Echo = Echo(reply: bool, id: u16, seqno: u16)

  /** A carrier as a value. `ipId` stands for the hash of the counter that picks the Identification. */
  datatype Wire = Wire(
    local: Ip, remote: Ip, ttl: byte, shell: Shell, dontFragment: bool, ipId: u32 -> u16, echo: Echo, counter: u32)

  // ---- What a packet is ----------------------------------------------------------------------

  function IpUnsummed(w: Wire, total: u16): (b: seq<byte>)
    ensures |b| == IPV4_LEN
  {
    [0x45, 0] + Be16(total) + Be16(w.ipId(w.counter)) + Be16(if w.dontFragment then 0x4000 else 0)
    + [w.ttl, w.shell.Protocol()] + [0, 0] + w.local + w.remote
  }

  /** The sequence number a ping goes out under: quoted by the replying end, counted by the asking one. */
  function EchoSeq(w: Wire): u16 {
    if w.echo.reply then w.echo.seqno else w.counter % 0x1_0000
  }

  function ShellUnsummed(w: Wire): (b: seq<byte>)
    ensures |b| == w.shell.Len()
  {
    match w.shell
    case Gre => [0, 0] + Be16(PROTO_TYPE_IPV4)
    case Bare(_) => []
    case Icmp => [if w.echo.reply then ECHO_REPLY else ECHO_REQUEST, 0, 0, 0] + Be16(w.echo.id) + Be16(EchoSeq(w))
  }

  function Body(w: Wire, payload: seq<byte>): (b: seq<byte>)
    ensures |b| == w.shell.Len() + |payload|
  {
    var plain := ShellUnsummed(w) + payload;
    if w.shell.Icmp? then Patch(plain, 2, Be16(Complement(Words(plain)))) else plain
  }

  function OuterHeader(w: Wire, total: u16): (b: seq<byte>)
    ensures |b| == IPV4_LEN
  {
    Patch(IpUnsummed(w, total), 10, Be16(Complement(Words(IpUnsummed(w, total)))))
  }

  function CarriedLen(w: Wire, payload: seq<byte>): nat {
    IPV4_LEN + w.shell.Len() + |payload|
  }

  /** One packet, written by a carrier whose counter already counts it. */
  function Carried(w: Wire, payload: seq<byte>): (b: seq<byte>)
    requires CarriedLen(w, payload) <= 0xFFFF
    ensures |b| == CarriedLen(w, payload)
  {
    OuterHeader(w, CarriedLen(w, payload)) + Body(w, payload)
  }

  datatype Outcome = Outcome(state: Wire, wrote: Result<seq<byte>>)

  /** `data`. */
  function DataStep(w: Wire, payload: seq<byte>, room: nat): Outcome {
    var total := CarriedLen(w, payload);
    if room < total then Outcome(w, Err(Short(total, room)))
    else if total > 0xFFFF then Outcome(w, Err(TooLong(total)))
    else
      var counted := w.(counter := Wrap(w.counter + 1));
      Outcome(counted, Ok(Carried(counted, payload)))
  }

  /** `answer_as`: only the replying end is moved. */
  function AnswerAs(w: Wire, id: u16, seqno: u16): Wire {
    if w.echo.reply then w.(echo := Echo(true, id, seqno)) else w
  }

  // ---- The carrier ---------------------------------------------------------------------------

  class Carrier {
    const local: Ip
    var remote: Ip
    const ttl: byte
    const shell: Shell
    const dontFragment: bool
    const ipId: u32 -> u16
    var echo: Echo
    var counter: u32

    function View(): Wire
      reads this
    {
      Wire(local, remote, ttl, shell, dontFragment, ipId, echo, counter)
    }

    constructor (local: Ip, remote: Ip, ttl: byte, shell: Shell, dontFragment: bool, ipId: u32 -> u16, echo: Echo)
      ensures View() == Wire(local, remote, ttl, shell, dontFragment, ipId, echo, 0)
    {
      this.local, this.remote, this.ttl, this.shell := local, remote, ttl, shell;
      this.dontFragment, this.ipId, this.echo, counter := dontFragment, ipId, echo, 0;
    }

    method SetRemote(remote: Ip)
      modifies this
      ensures View() == old(View()).(remote := remote)
    {
      this.remote := remote;
    }

    method Answer(id: u16, seqno: u16)
      modifies this
      ensures View() == AnswerAs(old(View()), id, seqno)
    {
      if echo.reply {
        echo := echo.(id := id, seqno := seqno);
      }
    }

    /** `data`. */
    method Data(payload: seq<byte>, out: array<byte>) returns (r: Result<nat>)
      modifies this, out
      ensures var o := DataStep(old(View()), payload, out.Length);
              View() == o.state && Written(o.wrote, r, old(out[..]), out[..])
    {
      hide Patch, IpUnsummed, ShellUnsummed, Words, Complement, Body, OuterHeader;
      var total := IPV4_LEN + shell.Len() + |payload|;
      if out.Length < total {
        return Err(Short(total, out.Length));
      }
      if total > 0xFFFF {
        return Err(TooLong(total));
      }
      counter := Wrap(counter + 1);
      var w := View();
      var wrote := WriteUnsummed(w, total, payload, out);
      SumCarried(w, total, payload, out);
      assert out[..] == Carried(w, payload) + old(out[..])[total..];
      return Ok(total);
    }
  }

  method WriteUnsummed(w: Wire, total: u16, payload: seq<byte>, out: array<byte>) returns (r: Wrote)
    requires total == CarriedLen(w, payload) <= out.Length
    modifies out
    ensures r.Fine?
    ensures out[..] == IpUnsummed(w, total) + (ShellUnsummed(w) + payload) + old(out[..])[total..]
  {
    hide Cursor.Valid, Patch, IpUnsummed, ShellUnsummed;
    var c := new Cursor(out, 0);
    :- WriteOuter(c, w, total);
    :- WriteShell(c, w);
    :- c.Put(payload);
    Holds(c);
    PatchedFront(c.before, IpUnsummed(w, total), ShellUnsummed(w), payload);
    return Fine;
  }

  method WriteOuter(c: Cursor, w: Wire, total: u16) returns (r: Wrote)
    requires c.Valid() && c.written == []
    requires c.base + IPV4_LEN <= c.buf.Length
    modifies c, c.buf
    ensures c.Valid() && r.Fine?
    ensures c.written == IpUnsummed(w, total)
  {
    hide Cursor.Valid, Patch, IpUnsummed, Be16, Shell.Protocol;
    :- c.Put([0x45]);
    :- c.Put([0]);
    :- c.Put(Be16(total));
    :- c.Put(Be16(w.ipId(w.counter)));
    :- c.Put(Be16(if w.dontFragment then 0x4000 else 0));
    :- c.Put([w.ttl]);
    :- c.Put([w.shell.Protocol()]);
    :- c.Put([0, 0]);
    :- c.Put(w.local);
    :- c.Put(w.remote);
    IpPieces(w, total, c.written);
    return Fine;
  }

  lemma IpPieces(w: Wire, total: u16, written: seq<byte>)
    requires written == [] + [0x45] + [0] + Be16(total) + Be16(w.ipId(w.counter))
                        + Be16(if w.dontFragment then 0x4000 else 0) + [w.ttl] + [w.shell.Protocol()] + [0, 0]
                        + w.local + w.remote
    ensures written == IpUnsummed(w, total)
  {
  }

  lemma PatchedFront(before: seq<byte>, a: seq<byte>, b: seq<byte>, payload: seq<byte>)
    requires |a| + |b| + |payload| <= |before|
    ensures Patch(before, 0, a + b + payload) == a + (b + payload) + before[|a| + |b| + |payload|..]
  {
  }

  /** The shell's own header, field by field. */
  method WriteShell(c: Cursor, w: Wire) returns (r: Wrote)
    requires c.Valid()
    requires c.base + |c.written| + w.shell.Len() <= c.buf.Length
    modifies c, c.buf
    ensures c.Valid() && r.Fine?
    ensures c.written == old(c.written) + ShellUnsummed(w)
  {
    hide Cursor.Valid, Patch, Be16;
    match w.shell
    case Gre =>
      :- c.Put([0, 0]);
      :- c.Put(Be16(PROTO_TYPE_IPV4));
      return Fine;
    case Icmp =>
      :- c.Put([if w.echo.reply then ECHO_REPLY else ECHO_REQUEST]);
      :- c.Put([0]);
      :- c.Put([0, 0]);
      :- c.Put(Be16(w.echo.id));
      :- c.Put(Be16(if w.echo.reply then w.echo.seqno else w.counter % 0x1_0000));
      return Fine;
    case Bare(_) =>
      assert c.written + ShellUnsummed(w) == c.written;
      return Fine;
  }

  /** The IPv4 header's sum, and the ping's over its header and everything it carries. */
  method SumCarried(w: Wire, total: u16, payload: seq<byte>, out: array<byte>)
    requires total == CarriedLen(w, payload) <= out.Length
    requires out[..total] == IpUnsummed(w, total) + (ShellUnsummed(w) + payload)
    modifies out
    ensures out[..] == OuterHeader(w, total) + Body(w, payload) + old(out[..])[total..]
  {
    hide IpUnsummed, ShellUnsummed, Words, Ones, Be16;
    var ip, body := out[..IPV4_LEN], out[IPV4_LEN..total];
    ghost var tail := out[total..];
    Parts(IpUnsummed(w, total), ShellUnsummed(w) + payload, out[..]);
    var ipSum := Sum(ip, 0);
    var ipCk := FoldComplement(ipSum);
    var wrote := WriteAt(out, 10, Be16(ipCk));
    assert out[..] == OuterHeader(w, total) + body + tail;
    if w.shell.Icmp? {
      var sum := Sum(out[IPV4_LEN..total], 0);
      var ck := FoldComplement(sum);
      wrote := WriteAt(out, IPV4_LEN + 2, Be16(ck));
      PatchMiddle(OuterHeader(w, total), body, tail, Be16(ck));
    }
  }

  lemma Parts(ip: seq<byte>, body: seq<byte>, all: seq<byte>)
    requires |ip| == IPV4_LEN && |ip| + |body| <= |all| && all[..|ip| + |body|] == ip + body
    ensures all[..IPV4_LEN] == ip && all[IPV4_LEN..|ip| + |body|] == body
    ensures all == ip + body + all[|ip| + |body|..]
  {
    assert all == all[..|ip| + |body|] + all[|ip| + |body|..];
    assert all[..IPV4_LEN] == all[..|ip| + |body|][..IPV4_LEN];
    assert all[IPV4_LEN..|ip| + |body|] == all[..|ip| + |body|][IPV4_LEN..];
  }

  lemma PatchMiddle(ip: seq<byte>, body: seq<byte>, tail: seq<byte>, b: seq<byte>)
    requires |ip| == IPV4_LEN && |body| >= 4 && |b| == 2
    ensures Patch(ip + body + tail, IPV4_LEN + 2, b) == ip + Patch(body, 2, b) + tail
  {
  }

  // ---- Checksums -----------------------------------------------------------------------------

  /** The IPv4 header always verifies, and so does a ping with everything it carries. */
  lemma ChecksumsVerify(w: Wire, payload: seq<byte>)
    requires CarriedLen(w, payload) <= 0xFFFF
    ensures var packet := Carried(w, payload);
            && Complement(Words(packet[..IPV4_LEN])) == 0
            && (w.shell.Icmp? ==> Complement(Words(packet[IPV4_LEN..])) == 0)
  {
    hide Words, Complement;
    var total: u16 := CarriedLen(w, payload);
    var packet, plain := Carried(w, payload), ShellUnsummed(w) + payload;
    assert packet[..IPV4_LEN] == OuterHeader(w, total) && packet[IPV4_LEN..] == Body(w, payload);
    assert Get16(IpUnsummed(w, total), 10) == 0;
    FilledChecksumVerifies(0, IpUnsummed(w, total), 10);
    if w.shell.Icmp? {
      assert plain[2] == 0 && plain[3] == 0;
      FilledChecksumVerifies(0, plain, 2);
    }
  }

  /** The fields the parser does not keep: service, Identification, Don't Fragment and nothing else of the
      fragment word, and TTL; and which half of a ping a packet is. */
  lemma OuterShows(w: Wire, payload: seq<byte>)
    requires CarriedLen(w, payload) <= 0xFFFF
    ensures var packet := Carried(w, payload);
            && packet[1] == 0 && packet[8] == w.ttl
            && Get16(packet, 4) == w.ipId(w.counter) && Get16(packet, 6) == (if w.dontFragment then 0x4000 else 0)
            && (w.shell.Icmp? ==> packet[20] == (if w.echo.reply then ECHO_REPLY else ECHO_REQUEST) && packet[21] == 0)
  {
    hide Words, Complement, Be16, Get16, OuterHeader;
    var packet, total: u16 := Carried(w, payload), CarriedLen(w, payload);
    var ip := OuterHeader(w, total);
    OuterFields(w, total);
    assert packet[4..6] == ip[4..6] && packet[6..8] == ip[6..8];
    SliceGet16(packet, 4);
    SliceGet16(ip, 4);
    SliceGet16(packet, 6);
    SliceGet16(ip, 6);
  }

  lemma OuterFields(w: Wire, total: u16)
    ensures var ip := OuterHeader(w, total);
            && ip[1] == 0 && ip[8] == w.ttl
            && Get16(ip, 4) == w.ipId(w.counter) && Get16(ip, 6) == (if w.dontFragment then 0x4000 else 0)
  {
    hide Words, Complement, Be16, Get16;
    var ip, b := OuterHeader(w, total), IpUnsummed(w, total);
    var frag: u16 := if w.dontFragment then 0x4000 else 0;
    assert ip[4..6] == b[4..6] == Be16(w.ipId(w.counter));
    assert ip[6..8] == b[6..8] == Be16(frag);
    Halfword(ip, 4, w.ipId(w.counter));
    Halfword(ip, 6, frag);
  }

  // ---- Parsing -------------------------------------------------------------------------------

  datatype Received = Received(src: Ip, dst: Ip, protocol: u16, id: u16, seqno: u16, payload: seq<byte>)

  /** `payload_offset`: the flags say how many optional words follow the header. */
  function PayloadOffset(flags: u16): (len: nat)
    ensures GRE_LEN <= len <= GRE_LEN + 12
  {
    GRE_LEN + (if flags / 0x8000 % 2 == 1 then 4 else 0) + (if flags / 0x2000 % 2 == 1 then 4 else 0)
    + (if flags / 0x1000 % 2 == 1 then 4 else 0)
  }

  /** The shell's part of `parse_ipv4`: what it says it carries, the ping's numbers, and the payload. */
  function ParseShell(rest: seq<byte>, shell: Shell): Option<(u16, u16, u16, seq<byte>)> {
    match shell
    case Gre =>
      if |rest| < GRE_LEN || |rest| < PayloadOffset(Get16(rest, 0)) then None
      else Some((Get16(rest, 2), 0, 0, rest[PayloadOffset(Get16(rest, 0))..]))
    case Icmp =>
      if |rest| < ICMP_LEN || !(rest[0] == ECHO_REQUEST || rest[0] == ECHO_REPLY) || rest[1] != 0 then None
      else Some((PROTO_TYPE_IPV4, Get16(rest, 4), Get16(rest, 6), rest[ICMP_LEN..]))
    case Bare(_) => Some((PROTO_TYPE_IPV4, 0, 0, rest))
  }

  function ParseIpv4(packet: seq<byte>, shell: Shell): Option<Received> {
    var bounds :- Ipv4Payload(packet, shell.Protocol());
    if |packet| < 20 then None
    else
      var inner :- ParseShell(packet[bounds.0..bounds.1], shell);
      Some(Received(packet[12..16], packet[16..20], inner.0, inner.1, inner.2, inner.3))
  }

  function ParseEthernet(frame: seq<byte>, shell: Shell): Option<Received> {
    if |frame| < ETH_LEN || Get16(frame, 12) != 0x0800 then None
    else ParseIpv4(frame[ETH_LEN..], shell)
  }

  // ---- Round trips ---------------------------------------------------------------------------

  /** What a reader makes of a packet. */
  function AsRead(w: Wire, payload: seq<byte>): Received {
    if w.shell.Icmp? then Received(w.local, w.remote, PROTO_TYPE_IPV4, w.echo.id, EchoSeq(w), payload)
    else Received(w.local, w.remote, PROTO_TYPE_IPV4, 0, 0, payload)
  }

  lemma IpFields(w: Wire, total: u16, ip: seq<byte>)
    requires |ip| == IPV4_LEN
    requires forall i :: 0 <= i < IPV4_LEN && !(2 <= i < 4) && !(10 <= i < 12) ==> ip[i] == IpUnsummed(w, total)[i]
    ensures ip[0] == 0x45 && ip[9] == w.shell.Protocol() && Whole(Get16(ip, 6))
    ensures ip[12..16] == w.local && ip[16..20] == w.remote
  {
    hide Be16, Get16;
    var b := IpUnsummed(w, total);
    var frag: u16 := if w.dontFragment then 0x4000 else 0;
    Be16RoundTrip(frag);
    assert ip[6..8] == b[6..8] == Be16(frag);
    SliceGet16(ip, 6);
    assert ip[12..16] == b[12..16];
    assert ip[16..20] == b[16..20];
  }

  lemma TotalField(w: Wire, total: u16)
    ensures Get16(OuterHeader(w, total), 2) == total
  {
    hide Get16, Be16, Words, Complement;
    var ip := OuterHeader(w, total);
    assert ip[2..4] == Be16(total);
    SliceGet16(ip, 2);
    Be16RoundTrip(total);
  }

  lemma ShellReadsBack(w: Wire, payload: seq<byte>)
    ensures var r := AsRead(w, payload);
            ParseShell(Body(w, payload), w.shell) == Some((r.protocol, r.id, r.seqno, r.payload))
  {
    hide Words, Complement, Get16, Be16;
    var body := Body(w, payload);
    match w.shell
    case Gre =>
      Be16RoundTrip(PROTO_TYPE_IPV4);
      Be16RoundTrip(0);
      assert body[2..4] == Be16(PROTO_TYPE_IPV4);
      SliceGet16(body, 2);
      ZeroAt(body);
      assert body[GRE_LEN..] == payload;
    case Icmp =>
      Be16RoundTrip(w.echo.id);
      Be16RoundTrip(EchoSeq(w));
      assert body[4..6] == Be16(w.echo.id) && body[6..8] == Be16(EchoSeq(w));
      SliceGet16(body, 4);
      SliceGet16(body, 6);
      assert body[ICMP_LEN..] == payload;
    case Bare(_) =>
      assert body == payload;
  }

  lemma ZeroAt(body: seq<byte>)
    requires |body| >= 2 && body[0] == 0 && body[1] == 0
    ensures Get16(body, 0) == 0
  {
  }

  /** Printing then parsing, for every shell, payload and trailing padding. */
  lemma RoundTrip(w: Wire, payload: seq<byte>, padding: seq<byte>)
    requires CarriedLen(w, payload) <= 0xFFFF
    ensures ParseIpv4(Carried(w, payload) + padding, w.shell) == Some(AsRead(w, payload))
  {
    hide IpUnsummed, Body, ParseShell, Words, Complement, Ipv4Payload, Get16;
    var total: u16 := CarriedLen(w, payload);
    var ip, body := OuterHeader(w, total), Body(w, payload);
    IpFields(w, total, ip);
    TotalField(w, total);
    Ipv4ReadsBack(ip, body, padding, w.shell.Protocol());
    ShellReadsBack(w, payload);
  }

  /** A GRE packet with optional words put in behind its header: new flags, a new length, any header
      checksum, and the words the flags announce. */
  function Spliced(packet: seq<byte>, flags: u16, words: seq<byte>, ck: u16): seq<byte>
    requires |packet| >= IPV4_LEN + GRE_LEN && |packet| + |words| <= 0xFFFF
  {
    SplicedIp(packet, |packet| + |words|, ck)
    + (Be16(flags) + packet[IPV4_LEN + 2..IPV4_LEN + GRE_LEN] + words + packet[IPV4_LEN + GRE_LEN..])
  }

  function SplicedIp(packet: seq<byte>, total: u16, ck: u16): (ip: seq<byte>)
    requires |packet| >= IPV4_LEN
    ensures |ip| == IPV4_LEN
  {
    packet[..2] + Be16(total) + packet[4..10] + Be16(ck) + packet[12..IPV4_LEN]
  }

  /** Whatever optional words a hop adds, and whatever else it sets in the flags, the packet reads as it
      did. */
  lemma SplicedReadsAlike(w: Wire, payload: seq<byte>, flags: u16, words: seq<byte>, ck: u16, padding: seq<byte>)
    requires w.shell.Gre? && CarriedLen(w, payload) + |words| <= 0xFFFF
    requires |words| == PayloadOffset(flags) - GRE_LEN
    ensures ParseIpv4(Spliced(Carried(w, payload), flags, words, ck) + padding, Gre) == Some(AsRead(w, payload))
  {
    hide IpUnsummed, ParseShell, Words, Complement, Ipv4Payload, Get16, Be16, PayloadOffset;
    var total: u16 := CarriedLen(w, payload);
    var packet, longer: u16 := Carried(w, payload), total + |words|;
    var ip := SplicedIp(packet, longer, ck);
    var body := Be16(flags) + packet[IPV4_LEN + 2..IPV4_LEN + GRE_LEN] + words + packet[IPV4_LEN + GRE_LEN..];
    SplicedKeeps(packet, longer, ck);
    assert forall i :: 0 <= i < IPV4_LEN ==> packet[i] == OuterHeader(w, total)[i];
    IpFields(w, total, ip);
    Ipv4ReadsBack(ip, body, padding, PROTO_GRE);
    assert packet[IPV4_LEN..] == Body(w, payload) == ShellUnsummed(w) + payload;
    assert packet[IPV4_LEN + 2..IPV4_LEN + GRE_LEN] == Body(w, payload)[2..4] == Be16(PROTO_TYPE_IPV4);
    assert packet[IPV4_LEN + GRE_LEN..] == Body(w, payload)[GRE_LEN..] == payload;
    SplicedShell(flags, words, payload);
  }

  lemma SplicedKeeps(packet: seq<byte>, total: u16, ck: u16)
    requires |packet| >= IPV4_LEN
    ensures var ip := SplicedIp(packet, total, ck);
            && Get16(ip, 2) == total
            && forall i :: 0 <= i < IPV4_LEN && !(2 <= i < 4) && !(10 <= i < 12) ==> ip[i] == packet[i]
  {
    hide Be16, Get16;
    var ip := SplicedIp(packet, total, ck);
    assert ip[2..4] == Be16(total);
    SliceGet16(ip, 2);
    Be16RoundTrip(total);
  }

  lemma SplicedShell(flags: u16, words: seq<byte>, payload: seq<byte>)
    requires |words| == PayloadOffset(flags) - GRE_LEN
    ensures ParseShell(Be16(flags) + Be16(PROTO_TYPE_IPV4) + words + payload, Gre) == Some((PROTO_TYPE_IPV4, 0 as u16, 0 as u16, payload))
  {
    hide Be16, Get16, PayloadOffset;
    var body := Be16(flags) + Be16(PROTO_TYPE_IPV4) + words + payload;
    assert body[0..2] == Be16(flags) && body[2..4] == Be16(PROTO_TYPE_IPV4);
    SliceGet16(body, 0);
    SliceGet16(body, 2);
    Be16RoundTrip(flags);
    Be16RoundTrip(PROTO_TYPE_IPV4);
    assert body[PayloadOffset(flags)..] == payload;
  }

  type OptionalWord = w: seq<byte> | |w| == 0 || |w| == 4 witness []

  /** The flags of a header with these optional words: checksum, key and sequence number by section 2 of RFC 2784
      and its extensions, and any of the other bits. */
  function FlagsFor(checksum: OptionalWord, key: OptionalWord, seqno: OptionalWord, routing: bool, low: nat): u16
    requires low < 0x1000
  {
    (if checksum == [] then 0 else 0x8000) + (if routing then 0x4000 else 0)
    + (if key == [] then 0 else 0x2000) + (if seqno == [] then 0 else 0x1000) + low
  }

  lemma OffsetOf(checksum: OptionalWord, key: OptionalWord, seqno: OptionalWord, routing: bool, low: nat)
    requires low < 0x1000
    ensures PayloadOffset(FlagsFor(checksum, key, seqno, routing, low)) == 4 + |checksum| + |key| + |seqno|
  {
    var f := FlagsFor(checksum, key, seqno, routing, low);
    assert f / 0x1000 % 2 == if seqno == [] then 0 else 1;
    assert f / 0x2000 % 2 == if key == [] then 0 else 1;
    assert f / 0x8000 % 2 == if checksum == [] then 0 else 1;
  }

  /** A checksum, a key and a sequence number, each there or not, announced by their own bits: read past. */
  lemma OptionalWordsReadPast(w: Wire, payload: seq<byte>, checksum: OptionalWord, key: OptionalWord, seqno: OptionalWord,
                              routing: bool, low: nat, ck: u16, padding: seq<byte>)
    requires w.shell.Gre? && low < 0x1000 && CarriedLen(w, payload) + |checksum + key + seqno| <= 0xFFFF
    ensures ParseIpv4(Spliced(Carried(w, payload), FlagsFor(checksum, key, seqno, routing, low), checksum + key + seqno, ck) + padding, Gre)
            == Some(AsRead(w, payload))
  {
    hide ParseIpv4, Spliced, Carried, PayloadOffset, FlagsFor, AsRead;
    OffsetOf(checksum, key, seqno, routing, low);
    SplicedReadsAlike(w, payload, FlagsFor(checksum, key, seqno, routing, low), checksum + key + seqno, ck, padding);
  }

  // ---- Histories -----------------------------------------------------------------------------

  datatype Event = Send(payload: seq<byte>, room: nat) | Told(id: u16, seqno: u16) | Moved(remote: Ip)

  function Act(w: Wire, e: Event): Wire {
    match e
    case Send(payload, room) => DataStep(w, payload, room).state
    case Told(id, seqno) => AnswerAs(w, id, seqno)
    case Moved(remote) => w.(remote := remote)
  }

  function After(w: Wire, es: seq<Event>): Wire {
    if es == [] then w else Act(After(w, es[..|es| - 1]), es[|es| - 1])
  }

  /** The identifier and sequence last told, or those the carrier started with. */
  function LastTold(es: seq<Event>, start: Echo): (u16, u16) {
    if es == [] then (start.id, start.seqno)
    else
      match es[|es| - 1]
      case Told(id, seqno) => (id, seqno)
      case _ => LastTold(es[..|es| - 1], start)
  }

  /** Whether a packet goes out: it fits the buffer and an IPv4 length. */
  predicate Goes(w: Wire, e: Event) {
    e.Send? && CarriedLen(w, e.payload) <= Min(e.room, 0xFFFF)
  }

  /** How many packets went out. */
  function SentCount(w: Wire, es: seq<Event>): nat {
    if es == [] then 0
    else
      SentCount(w, es[..|es| - 1]) + if Goes(w, es[|es| - 1]) then 1 else 0
  }

  /** `t` is `w` after sending `n` packets and last being told `told`: the shape never changes, a replying
      end holds what it was told, an asking end what it started with, and the counter counts. */
  ghost predicate Kept(w: Wire, t: Wire, n: nat, told: (u16, u16)) {
    && t == w.(remote := t.remote, echo := t.echo, counter := t.counter)
    && t.counter == Wrap(w.counter + n)
    && t.echo == if w.echo.reply then Echo(true, told.0, told.1) else w.echo
  }

  lemma ActKeeps(w: Wire, t: Wire, n: nat, told: (u16, u16), e: Event)
    requires Kept(w, t, n, told)
    ensures Kept(w, Act(t, e), n + (if Goes(w, e) then 1 else 0), if e.Told? then (e.id, e.seqno) else told)
  {
    hide Carried, Wrap;
    WrapCarries(w.counter + n, if Goes(w, e) then 1 else 0);
    WrapSmall(t.counter);
  }

  lemma {:induction false} HistoryKeeps(w: Wire, es: seq<Event>)
    ensures Kept(w, After(w, es), SentCount(w, es), LastTold(es, w.echo))
  {
    if es != [] {
      hide Act, Kept, Goes;
      HistoryKeeps(w, es[..|es| - 1]);
      ActKeeps(w, After(w, es[..|es| - 1]), SentCount(w, es[..|es| - 1]), LastTold(es[..|es| - 1], w.echo), es[|es| - 1]);
    } else {
      WrapSmall(w.counter);
    }
  }

  lemma WrapSmall(n: u32)
    ensures Wrap(n) == n
  {
  }

  lemma WrapCarries(n: nat, k: nat)
    ensures Wrap(Wrap(n) + k) == Wrap(n + k)
  {
  }

  /** The next ping after any history: a replying end quotes what it was last told, whatever it has sent
      since; an asking end keeps its identifier and counts. */
  lemma NextPing(w: Wire, es: seq<Event>, payload: seq<byte>, room: nat)
    requires w.shell.Icmp? && w.counter == 0
    requires DataStep(After(w, es), payload, room).wrote.Ok?
    ensures var told := LastTold(es, w.echo);
            var read := ParseIpv4(DataStep(After(w, es), payload, room).wrote.value, Icmp);
            && read.Some? && read.value.payload == payload
            && (w.echo.reply ==> read.value.id == told.0 && read.value.seqno == told.1)
            && (!w.echo.reply ==> read.value.id == w.echo.id && read.value.seqno == (SentCount(w, es) + 1) % 0x1_0000)
  {
    hide Carried, ParseIpv4;
    HistoryKeeps(w, es);
    var t := After(w, es);
    var counted := t.(counter := Wrap(t.counter + 1));
    RoundTrip(counted, payload, []);
    assert Carried(counted, payload) + [] == Carried(counted, payload);
    CountLow(SentCount(w, es));
  }

  lemma CountLow(n: nat)
    ensures Wrap(Wrap(n) + 1) % 0x1_0000 == (n + 1) % 0x1_0000
  {
    var q := n / 0x1_0000_0000;
    assert n == 0x1_0000 * (0x1_0000 * q) + Wrap(n);
    Low(Wrap(n) + 1, 0x1_0000 * q);
    if Wrap(n) + 1 == 0x1_0000_0000 {
      assert (Wrap(n) + 1) % 0x1_0000 == 0;
    }
  }

  lemma Low(a: nat, k: nat)
    ensures (a + 0x1_0000 * k) % 0x1_0000 == a % 0x1_0000
  {
  }

  /** Exactly the datagrams of the shell's protocol that hold its whole header are taken. */
  lemma ParseExact(b: seq<byte>, shell: Shell)
    ensures ParseIpv4(b, shell).Some?
            <==> && IsDatagram(b, shell.Protocol())
                 && var rest := b[b[0] % 0x10 * 4..Get16(b, 2)];
                    match shell
                    case Gre => |rest| >= 4 && |rest| >= PayloadOffset(Get16(rest, 0))
                    case Icmp => |rest| >= 8 && (rest[0] == 8 || rest[0] == 0) && rest[1] == 0
                    case Bare(_) => true
  {
    hide Get16, Ipv4Payload, PayloadOffset;
    DatagramExact(b, shell.Protocol());
  }

  /** The protocol number each shell declares, and what it costs beside the IPv4 header. */
  lemma ShellsAre(proto: byte)
    ensures Gre.Protocol() == 47 && Gre.Len() == 4
    ensures Icmp.Protocol() == 1 && Icmp.Len() == 8
    ensures Bare(proto).Protocol() == proto && Bare(proto).Len() == 0
  {
  }
}
