/** Writing a packet into a caller's buffer: the `Cursor` and `emit_parts` of `segment.rs`. */
module Emission {
  import opened Bytes
  import opened Checksum
  import opened Segments

  /** The result of one bounds-checked write, for `:-`. */
  datatype Wrote = Fine | Failed(error: Error) {
    predicate IsFailure() { Failed? }
    function PropagateFailure(): Wrote { this }
  }

  /** A forward writer over the part of a buffer from `base` on. */
  class Cursor {
    const buf: array<byte>
    const base: nat
    var pos: nat
    /** The buffer as it was, and everything put since. */
    ghost const before: seq<byte>
    ghost var written: seq<byte>

    ghost predicate Valid()
      reads this, buf
    {
      && pos == |written|
      && |before| == buf.Length
      && base + pos <= buf.Length
      && buf[..] == Patch(before, base, written)
    }

    constructor (buf: array<byte>, base: nat)
      requires base <= buf.Length
      ensures Valid() && this.buf == buf && this.base == base
      ensures before == buf[..] && written == []
    {
      this.buf, this.base, pos := buf, base, 0;
      before, written := buf[..], [];
    }

    method Put(bytes: seq<byte>) returns (r: Wrote)
      requires Valid()
      modifies this, buf
      ensures Valid()
      ensures r.Fine? <==> base + |old(written)| + |bytes| <= buf.Length
      ensures r.Fine? ==> written == old(written) + bytes
      ensures r.Failed? ==> written == old(written) && r.error == Short(old(pos) + |bytes|, buf.Length - base)
    {
      var end := pos + |bytes|;
      if base + end > buf.Length {
        return Failed(Short(end, buf.Length - base));
      }
      for i := 0 to |bytes|
        invariant pos == |written| && written == old(written)
        invariant forall j :: 0 <= j < buf.Length ==>
                    buf[j] == if base + pos <= j < base + pos + i then bytes[j - base - pos] else old(buf[j])
      {
        buf[base + pos + i] := bytes[i];
      }
      pos := end;
      written := written + bytes;
      return Fine;
    }
  }

  lemma Holds(c: Cursor)
    requires c.Valid()
    ensures |c.before| == c.buf.Length && c.base + |c.written| <= c.buf.Length
    ensures c.pos == |c.written| && c.buf[..] == Patch(c.before, c.base, c.written)
  {
  }

  /** `write_options`: the option block, walked in the profile's order. */
  method WriteOptions(c: Cursor, kind: Kind, p: Profile, f: Fields) returns (r: Wrote)
    requires c.Valid()
    modifies c, c.buf
    ensures c.Valid()
    ensures r.Fine? <==> c.base + |old(c.written)| + |OptionBytes(kind, p, f)| <= c.buf.Length
    ensures r.Fine? ==> c.written == old(c.written) + OptionBytes(kind, p, f)
  {
    hide Cursor.Valid, Patch, SynOptionBytes, Be32;
    if kind.IsSyn() {
      r := WriteSynOptions(c, kind, p, f);
    } else if p.timestamps {
      r := WriteTimestamps(c, f);
    } else {
      r := Fine;
      assert c.written + OptionBytes(kind, p, f) == c.written;
      Holds(c);
    }
  }

  method WriteSynOptions(c: Cursor, kind: Kind, p: Profile, f: Fields) returns (r: Wrote)
    requires c.Valid()
    modifies c, c.buf
    ensures c.Valid()
    ensures r.Fine? <==> c.base + |old(c.written)| + |SynBytes(p.synOptions, kind, p, f)| <= c.buf.Length
    ensures r.Fine? ==> c.written == old(c.written) + SynBytes(p.synOptions, kind, p, f)
  {
    hide Cursor.Valid, Patch, SynOptionBytes, SynBytes;
    var opts := p.synOptions;
    SynBytesStep(opts, 0, kind, p, f);
    for i := 0 to |opts|
      invariant c.Valid() && c.written == old(c.written) + SynBytes(opts[..i], kind, p, f)
    {
      SynBytesStep(opts, i, kind, p, f);
      :- c.Put(SynOptionBytes(opts[i], kind, p, f));
    }
    assert opts[..|opts|] == opts;
    Holds(c);
    return Fine;
  }

  lemma SynBytesStep(opts: seq<SynOption>, i: nat, kind: Kind, p: Profile, f: Fields)
    requires i <= |opts|
    ensures SynBytes(opts[..0], kind, p, f) == []
    ensures i < |opts| ==>
              var grown := SynBytes(opts[..i], kind, p, f) + SynOptionBytes(opts[i], kind, p, f);
              SynBytes(opts[..i + 1], kind, p, f) == grown && |grown| <= |SynBytes(opts, kind, p, f)|
  {
    hide SynOptionBytes;
    if i < |opts| {
      assert opts[..i + 1][..i] == opts[..i];
      SynBytesGrow(opts, i + 1, kind, p, f);
    }
  }

  method WriteTimestamps(c: Cursor, f: Fields) returns (r: Wrote)
    requires c.Valid()
    modifies c, c.buf
    ensures c.Valid()
    ensures r.Fine? <==> c.base + |old(c.written)| + DATA_OPTS_TS <= c.buf.Length
    ensures r.Fine? ==> c.written == old(c.written) + ([1, 1, 8, 10] + Be32(f.tsVal) + Be32(f.tsEcr))
  {
    hide Cursor.Valid, Patch, Be32;
    :- c.Put([1]);
    :- c.Put([1]);
    :- c.Put([8]);
    :- c.Put([10]);
    :- c.Put(Be32(f.tsVal));
    :- c.Put(Be32(f.tsEcr));
    return Fine;
  }

  lemma {:induction false} SynBytesGrow(opts: seq<SynOption>, i: nat, kind: Kind, p: Profile, f: Fields)
    requires i <= |opts|
    ensures |SynBytes(opts[..i], kind, p, f)| <= |SynBytes(opts, kind, p, f)|
    decreases |opts| - i
  {
    if i == |opts| {
      assert opts[..i] == opts;
    } else {
      SynBytesGrow(opts, i + 1, kind, p, f);
      assert opts[..i + 1][..i] == opts[..i];
    }
  }

  /** `option_len`, the loop over the profile's layout. */
  method OptionLen(kind: Kind, p: Profile) returns (total: nat)
    ensures total == OptionSize(kind, p)
  {
    if kind.IsSyn() {
      total := 0;
      var i := 0;
      while i < |p.synOptions|
        invariant i <= |p.synOptions| && total == SynSize(p.synOptions[..i])
      {
        assert p.synOptions[..i + 1][..i] == p.synOptions[..i];
        total := total + p.synOptions[i].Bytes();
        i := i + 1;
      }
      assert p.synOptions[..i] == p.synOptions;
    } else if p.timestamps {
      return DATA_OPTS_TS;
    } else {
      return 0;
    }
  }

  function Joined(parts: seq<seq<byte>>): seq<byte> {
    if parts == [] then [] else Joined(parts[..|parts| - 1]) + parts[|parts| - 1]
  }

  method WriteIpv4(out: array<byte>, total: u16, p: Profile, f: Fields) returns (r: Wrote)
    requires out.Length >= IPV4_LEN
    modifies out
    ensures r.Fine? && out[..] == Patch(old(out[..]), 0, IpBlank(total, p, f))
  {
    hide Cursor.Valid, Patch, IpBlank, Be16;
    var c := new Cursor(out, 0);
    :- c.Put([0x45]);
    :- c.Put([0]);
    :- c.Put(Be16(total));
    :- c.Put(Be16(f.ipId));
    :- c.Put(Be16(if f.dontFragment then 0x4000 else 0));
    :- c.Put([p.ttl]);
    :- c.Put([PROTO_TCP]);
    :- c.Put([0, 0]);
    :- c.Put(f.src.ip);
    :- c.Put(f.dst.ip);
    Ipv4Pieces(total, p, f, c.written);
    Holds(c);
    return Fine;
  }

  lemma Ipv4Pieces(total: u16, p: Profile, f: Fields, written: seq<byte>)
    requires written == [] + [0x45] + [0] + Be16(total) + Be16(f.ipId)
                        + Be16(if f.dontFragment then 0x4000 else 0) + [p.ttl] + [PROTO_TCP] + [0, 0] + f.src.ip + f.dst.ip
    ensures written == IpBlank(total, p, f)
  {
  }

  method WriteTcp(out: array<byte>, kind: Kind, p: Profile, f: Fields, parts: seq<seq<byte>>) returns (r: Wrote)
    requires Describable(kind, p)
    requires IPV4_LEN + |TcpUnsummed(kind, p, f, Joined(parts))| <= out.Length
    modifies out
    ensures r.Fine? && out[..] == Patch(old(out[..]), IPV4_LEN, TcpUnsummed(kind, p, f, Joined(parts)))
  {
    hide Cursor.Valid, Patch, Be16, Be32, TcpBlank, OptionBytes, FlagsOf, Joined;
    OptionBytesSize(kind, p, f);
    var opts := OptionLen(kind, p);
    var words := (TCP_LEN + opts) / 4;
    var c := new Cursor(out, IPV4_LEN);
    :- c.Put(Be16(f.src.port));
    :- c.Put(Be16(f.dst.port));
    :- c.Put(Be32(f.seqno));
    :- c.Put(Be32(f.ack));
    :- c.Put([words * 0x10]);
    :- c.Put([FlagsOf(kind, f)]);
    :- c.Put(Be16(f.window));
    :- c.Put([0, 0]);
    :- c.Put([0, 0]);
    TcpPieces(words, kind, f, c.written);
    :- WriteOptions(c, kind, p, f);
    r := WriteParts(c, parts);
    Holds(c);
  }

  lemma TcpPieces(words: nat, kind: Kind, f: Fields, written: seq<byte>)
    requires words <= 15
    requires written == [] + Be16(f.src.port) + Be16(f.dst.port) + Be32(f.seqno) + Be32(f.ack)
                        + [words * 0x10] + [FlagsOf(kind, f)] + Be16(f.window) + [0, 0] + [0, 0]
    ensures written == TcpBlank(words, kind, f)
  {
  }

  method WriteParts(c: Cursor, parts: seq<seq<byte>>) returns (r: Wrote)
    requires c.Valid()
    modifies c, c.buf
    ensures c.Valid()
    ensures r.Fine? <==> c.base + |old(c.written)| + |Joined(parts)| <= c.buf.Length
    ensures r.Fine? ==> c.written == old(c.written) + Joined(parts)
  {
    hide Cursor.Valid, Patch;
    for i := 0 to |parts|
      invariant c.Valid() && c.written == old(c.written) + Joined(parts[..i])
    {
      assert parts[..i + 1][..i] == parts[..i];
      JoinedGrow(parts, i + 1);
      :- c.Put(parts[i]);
    }
    assert parts[..|parts|] == parts;
    Holds(c);
    return Fine;
  }

  lemma {:induction false} JoinedGrow(parts: seq<seq<byte>>, i: nat)
    requires i <= |parts|
    ensures |Joined(parts[..i])| <= |Joined(parts)|
    decreases |parts| - i
  {
    if i == |parts| {
      assert parts[..i] == parts;
    } else {
      JoinedGrow(parts, i + 1);
      assert parts[..i + 1][..i] == parts[..i];
    }
  }

  /** `write_at`: those bytes overwritten and no others, or nothing for a place past the end. */
  method WriteAt(buf: array<byte>, offset: nat, bytes: seq<byte>) returns (r: Wrote)
    modifies buf
    ensures offset + |bytes| <= buf.Length ==> r.Fine? && buf[..] == Patch(old(buf[..]), offset, bytes)
    ensures offset + |bytes| > buf.Length ==>
              r == Failed(Short(offset + |bytes|, buf.Length)) && buf[..] == old(buf[..])
  {
    if offset + |bytes| > buf.Length {
      return Failed(Short(offset + |bytes|, buf.Length));
    }
    for i := 0 to |bytes|
      invariant forall j :: 0 <= j < buf.Length ==>
                  buf[j] == if offset <= j < offset + i then bytes[j - offset] else old(buf[j])
    {
      buf[offset + i] := bytes[i];
    }
    return Fine;
  }

  /** What an operation reports and leaves in the buffer, for the segment it was to write: a refusal
      touches nothing, and a segment goes to the front with everything past it untouched. */
  ghost predicate Written(e: Result<seq<byte>>, r: Result<nat>, before: seq<byte>, after: seq<byte>) {
    match e
    case Err(error) => r == Err(error) && after == before
    case Ok(packet) => r == Ok(|packet|) && |packet| <= |before| && after == packet + before[|packet|..]
  }

  /** `emit_parts`: one packet into `out`, and nothing past it touched. */
  method EmitParts(kind: Kind, p: Profile, f: Fields, parts: seq<seq<byte>>, out: array<byte>) returns (r: Result<nat>)
    modifies out
    ensures Written(Emitted(kind, p, f, Joined(parts), out.Length), r, old(out[..]), out[..])
  {
    hide Patch, IpBlank, TcpUnsummed, Words, Complement, PseudoOf, Be16, Joined, Packet, OptionSize, PseudoBytes;
    var payload := Joined(parts);
    var opts := OptionLen(kind, p);
    if opts % 4 != 0 || TCP_LEN + opts > MAX_TCP_HEADER {
      return Err(Options(opts));
    }
    var total := IPV4_LEN + TCP_LEN + opts + |payload|;
    if out.Length < total {
      return Err(Short(total, out.Length));
    }
    if total > 0xFFFF {
      return Err(TooLong(total));
    }
    SegmentLen(kind, p, f, payload);
    ghost var before := out[..];
    var w := WriteIpv4(out, total, p, f);
    w := WriteTcp(out, kind, p, f, parts);
    Laid(before, IpBlank(total, p, f), TcpUnsummed(kind, p, f, payload), out[..]);
    FillChecksums(out, total, f);
    Packed(kind, p, f, payload, before[total..]);
    assert out[..] == Packet(kind, p, f, payload) + before[total..];
    return Ok(total);
  }

  lemma Laid(before: seq<byte>, ip: seq<byte>, tcp: seq<byte>, after: seq<byte>)
    requires |ip| == IPV4_LEN && IPV4_LEN + |tcp| <= |before|
    requires after == Patch(Patch(before, 0, ip), IPV4_LEN, tcp)
    ensures after == ip + tcp + before[IPV4_LEN + |tcp|..]
    ensures after[..IPV4_LEN] == ip && after[IPV4_LEN..IPV4_LEN + |tcp|] == tcp
    ensures after[IPV4_LEN + |tcp|..] == before[IPV4_LEN + |tcp|..]
  {
  }

  /** The two sums, over what has been written, into their fields. */
  method FillChecksums(out: array<byte>, total: u16, f: Fields)
    requires IPV4_LEN + TCP_LEN <= total <= out.Length
    modifies out
    ensures var was := old(out[..]);
            var ip, tcp := was[..IPV4_LEN], was[IPV4_LEN..total];
            out[..] == Patch(ip, 10, Be16(Complement(Words(ip))))
                       + Patch(tcp, 16, Be16(Complement(PseudoOf(f, |tcp|) + Words(tcp)))) + was[total..]
  {
    hide Words, Complement, Be16, Ceiling, PseudoBytes, Patch;
    var ip, tcp := out[..IPV4_LEN], out[IPV4_LEN..total];
    ghost var tail := out[total..];
    assert out[..] == ip + tcp + tail;
    CeilingFits(IPV4_LEN);
    CeilingFits(12);
    CeilingFits(|tcp|);
    var ipSum := Sum(ip, 0);
    var ipCk := FoldComplement(ipSum);
    var wrote := WriteAt(out, 10, Be16(ipCk));
    FirstFilled(ip, tcp, tail, Be16(ipCk), out[..]);
    var pseudo := PseudoHeader(f.src.ip, f.dst.ip, PROTO_TCP, |tcp|);
    WordsBound(PseudoBytes(f.src.ip, f.dst.ip, PROTO_TCP, |tcp|));
    var tcpSum := Sum(out[IPV4_LEN..total], pseudo);
    var tcpCk := FoldComplement(tcpSum);
    wrote := WriteAt(out, IPV4_LEN + 16, Be16(tcpCk));
    TwoFilled(ip, tcp, tail, Be16(ipCk), Be16(tcpCk));
  }

  lemma FirstFilled(ip: seq<byte>, tcp: seq<byte>, tail: seq<byte>, a: seq<byte>, out: seq<byte>)
    requires |ip| == IPV4_LEN && |a| == 2 && out == Patch(ip + tcp + tail, 10, a)
    ensures |out| == IPV4_LEN + |tcp| + |tail| && out[IPV4_LEN..IPV4_LEN + |tcp|] == tcp
  {
  }

  lemma TwoFilled(ip: seq<byte>, tcp: seq<byte>, tail: seq<byte>, a: seq<byte>, b: seq<byte>)
    requires |ip| == IPV4_LEN && |tcp| >= TCP_LEN && |a| == 2 && |b| == 2
    ensures Patch(Patch(ip + tcp + tail, 10, a), IPV4_LEN + 16, b) == Patch(ip, 10, a) + Patch(tcp, 16, b) + tail
  {
  }

  lemma Packed(kind: Kind, p: Profile, f: Fields, payload: seq<byte>, tail: seq<byte>)
    requires Describable(kind, p) && PacketLen(kind, p, |payload|) <= 0xFFFF
    ensures var total: u16 := PacketLen(kind, p, |payload|);
            var ip, tcp := IpBlank(total, p, f), TcpUnsummed(kind, p, f, payload);
            && IPV4_LEN + |tcp| == total
            && Patch(ip, 10, Be16(Complement(Words(ip))))
               + Patch(tcp, 16, Be16(Complement(PseudoOf(f, |tcp|) + Words(tcp)))) + tail
               == Packet(kind, p, f, payload) + tail
  {
    hide Patch, IpBlank, TcpUnsummed, Words, Complement, PseudoOf, Be16;
    SegmentLen(kind, p, f, payload);
  }
}
