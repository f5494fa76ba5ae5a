/** What the header fields and options of an emitted packet say to a reader that looks at all of them,
    not only at what `parse_ipv4` keeps. */
module Layouts {
  import opened Bytes
  import opened Checksum
  import opened Segments

  /** A TCP option: its kind and what its length covers. */
  datatype Opt = Opt(kind: byte, body: seq<byte>)

  /** Reading options by their own lengths, padding and end-of-list being one byte each. */
  function ReadOptions(b: seq<byte>): Option<seq<Opt>> {
    if b == [] then Some([])
    else if b[0] <= 1 then Led(Opt(b[0], []), ReadOptions(b[1..]))
    else if |b| < 2 || b[1] < 2 || b[1] > |b| then None
    else Led(Opt(b[0], b[2..b[1]]), ReadOptions(b[b[1]..]))
  }

  function Led(first: Opt, rest: Option<seq<Opt>>): Option<seq<Opt>> {
    if rest.Some? then Some([first] + rest.value) else None
  }

  /** What each entry of a layout announces. */
  function Announced(opt: SynOption, kind: Kind, p: Profile, f: Fields): Opt {
    match opt
    case Mss => Opt(2, Be16(f.mss))
    case SackPermitted => Opt(4, [])
    case Timestamps => Opt(8, Be32(f.tsVal) + Be32(if kind.SynAck? then f.tsEcr else 0))
    case Nop => Opt(1, [])
    case EndOfList => Opt(0, [])
    case WindowScale => Opt(3, [p.windowScale.GetOr(0)])
  }

  function AllAnnounced(opts: seq<SynOption>, kind: Kind, p: Profile, f: Fields): seq<Opt> {
    if opts == [] then [] else [Announced(opts[0], kind, p, f)] + AllAnnounced(opts[1..], kind, p, f)
  }

  /** The options a packet of this kind is to carry. */
  function Layout(kind: Kind, p: Profile, f: Fields): seq<Opt> {
    if kind.IsSyn() then AllAnnounced(p.synOptions, kind, p, f)
    else if p.timestamps then [Opt(1, []), Opt(1, []), Opt(8, Be32(f.tsVal) + Be32(f.tsEcr))]
    else []
  }

  lemma OneRead(opt: SynOption, rest: seq<byte>, kind: Kind, p: Profile, f: Fields)
    ensures ReadOptions(SynOptionBytes(opt, kind, p, f) + rest) == Led(Announced(opt, kind, p, f), ReadOptions(rest))
  {
    hide Be16, Be32;
    var head := SynOptionBytes(opt, kind, p, f);
    var b := head + rest;
    assert b[|head|..] == rest;
    if b[0] > 1 {
      assert b[1] == |head|;
      assert b[2..|head|] == head[2..] == Announced(opt, kind, p, f).body;
    }
  }

  lemma {:induction false} SynRead(opts: seq<SynOption>, kind: Kind, p: Profile, f: Fields)
    ensures ReadOptions(SynBytes(opts, kind, p, f)) == Some(AllAnnounced(opts, kind, p, f))
  {
    if opts != [] {
      hide SynOptionBytes, ReadOptions, Announced;
      SynBytesCons(opts, kind, p, f);
      OneRead(opts[0], SynBytes(opts[1..], kind, p, f), kind, p, f);
      SynRead(opts[1..], kind, p, f);
    }
  }

  /** Every option block reads back as its layout, in order, with the values it announces. */
  lemma OptionsRead(kind: Kind, p: Profile, f: Fields)
    ensures ReadOptions(OptionBytes(kind, p, f)) == Some(Layout(kind, p, f))
  {
    hide Be32;
    if kind.IsSyn() {
      SynRead(p.synOptions, kind, p, f);
    } else if p.timestamps {
      var b := OptionBytes(kind, p, f);
      var ts := Be32(f.tsVal) + Be32(f.tsEcr);
      assert b[1..][1..] == [8, 10] + ts;
      TimestampsRead(ts);
      assert ReadOptions(b[1..]) == Led(Opt(1, []), ReadOptions([8, 10] + ts));
      assert ReadOptions(b) == Led(Opt(1, []), ReadOptions(b[1..]));
      assert [Opt(1, [])] + ([Opt(1, [])] + [Opt(8, ts)]) == Layout(kind, p, f);
    }
  }

  lemma TimestampsRead(ts: seq<byte>)
    requires |ts| == 8
    ensures ReadOptions([8, 10] + ts) == Some([Opt(8, ts)])
  {
    var b := [8, 10] + ts;
    assert b[2..10] == ts && b[10..] == [];
    assert ReadOptions(b) == Led(Opt(8, ts), ReadOptions(b[10..]));
    assert [Opt(8, ts)] + [] == [Opt(8, ts)];
  }

  /** An emitted packet's option block, found by its own header length, is its layout. */
  lemma PacketOptions(kind: Kind, p: Profile, f: Fields, payload: seq<byte>)
    requires Describable(kind, p) && PacketLen(kind, p, |payload|) <= 0xFFFF
    ensures var packet := Packet(kind, p, f, payload);
            var end := IPV4_LEN + packet[IPV4_LEN + 12] / 0x10 * 4;
            && IPV4_LEN + TCP_LEN <= end <= |packet|
            && ReadOptions(packet[IPV4_LEN + TCP_LEN..end]) == Some(Layout(kind, p, f))
  {
    hide Words, Complement, PseudoOf, OptionBytes, IpHeader, ReadOptions, Layout;
    SegmentLen(kind, p, f, payload);
    OptionBytesSize(kind, p, f);
    OptionsRead(kind, p, f);
    var packet, blank := Packet(kind, p, f, payload), TcpUnsummed(kind, p, f, payload);
    var words := (TCP_LEN + OptionSize(kind, p)) / 4;
    assert packet[IPV4_LEN..] == TcpSegment(kind, p, f, payload);
    assert packet[IPV4_LEN + 12] == blank[12] == words * 0x10;
    var end := IPV4_LEN + words * 4;
    assert packet[IPV4_LEN + TCP_LEN..end] == blank[TCP_LEN..words * 4] == OptionBytes(kind, p, f);
  }

  /** The fields no parser here keeps: service, Identification, Don't Fragment and nothing else of the
      fragment word, TTL, and no urgent data. */
  lemma HeaderShows(kind: Kind, p: Profile, f: Fields, payload: seq<byte>)
    requires Describable(kind, p) && PacketLen(kind, p, |payload|) <= 0xFFFF
    ensures var packet := Packet(kind, p, f, payload);
            && packet[1] == 0 && packet[8] == p.ttl
            && Get16(packet, 4) == f.ipId && Get16(packet, 6) == (if f.dontFragment then 0x4000 else 0)
            && packet[38] == 0 && packet[39] == 0
  {
    hide Words, Complement, PseudoOf, OptionBytes, Be16, Get16;
    SegmentLen(kind, p, f, payload);
    var packet, total: u16 := Packet(kind, p, f, payload), PacketLen(kind, p, |payload|);
    var frag: u16 := if f.dontFragment then 0x4000 else 0;
    assert packet[..IPV4_LEN] == IpHeader(total, p, f);
    assert packet[4..6] == IpHeader(total, p, f)[4..6] == IpBlank(total, p, f)[4..6] == Be16(f.ipId);
    assert packet[6..8] == IpHeader(total, p, f)[6..8] == IpBlank(total, p, f)[6..8] == Be16(frag);
    Halfword(packet, 4, f.ipId);
    Halfword(packet, 6, frag);
  }
}
