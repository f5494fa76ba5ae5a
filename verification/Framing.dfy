/** Transport framing of `framing.rs`: a masked header, a sealed body, and the tag the mask is keyed on. */
module Framing {
  import opened Bytes

  const HEADER_LEN: nat := 12
  const TAG_LEN: nat := 16
  const OVERHEAD: nat := HEADER_LEN + TAG_LEN

  datatype Header = Header(counter: u64, index: u32)

  /** The mask key, as the keystream it gives for each tag. */
  datatype HeaderMask = HeaderMask(keystream: (seq<byte>, nat) -> byte)

  // ---- Little-endian integers ----------------------------------------------------------------

  function ToLe(n: nat, k: nat): (b: seq<byte>)
    ensures |b| == k
  {
    if k == 0 then [] else [n % 0x100] + ToLe(n / 0x100, k - 1)
  }

  function FromLe(b: seq<byte>): nat {
    if b == [] then 0 else b[0] + 0x100 * FromLe(b[1..])
  }

  lemma ByteRange(k: nat)
    requires k > 0
    ensures Pow2(8 * k) == 0x100 * Pow2(8 * (k - 1))
  {
    Pow2OfWidths();
    Pow2Sum(8, 8 * (k - 1));
  }

  lemma {:induction false} FromToLe(n: nat, k: nat)
    requires n < Pow2(8 * k)
    ensures FromLe(ToLe(n, k)) == n
  {
    if k > 0 {
      ByteRange(k);
      FromToLe(n / 0x100, k - 1);
      assert ToLe(n, k)[1..] == ToLe(n / 0x100, k - 1);
    }
  }

  lemma {:induction false} ToFromLe(b: seq<byte>)
    ensures FromLe(b) < Pow2(8 * |b|)
    ensures ToLe(FromLe(b), |b|) == b
  {
    if b != [] {
      ToFromLe(b[1..]);
      ByteRange(|b|);
      var rest := FromLe(b[1..]);
      LowByte(b[0], rest);
      assert b == [b[0]] + b[1..];
    }
  }

  lemma LowByte(low: byte, rest: nat)
    ensures (low + 0x100 * rest) % 0x100 == low && (low + 0x100 * rest) / 0x100 == rest
  {
  }

  // ---- Masking -------------------------------------------------------------------------------

  function XorByte(a: byte, k: byte): byte {
    Pow2OfWidths();
    Xor(a, k, 8)
  }

  lemma XorByteUndoes(a: byte, k: byte)
    ensures XorByte(XorByte(a, k), k) == a
  {
    Pow2OfWidths();
    XorUndoes(a, k, 8);
  }

  /** `bytes` xored with the keystream for `tag`. */
  function Masked(mask: HeaderMask, tag: seq<byte>, bytes: seq<byte>): (out: seq<byte>)
    ensures |out| == |bytes|
    ensures forall i :: 0 <= i < |bytes| ==> out[i] == XorByte(bytes[i], mask.keystream(tag, i))
  {
    seq<byte>(|bytes|, i requires 0 <= i < |bytes| => XorByte(bytes[i], mask.keystream(tag, i)))
  }

  function HeaderBytes(h: Header): (b: seq<byte>)
    ensures |b| == HEADER_LEN
  {
    ToLe(h.counter, 8) + ToLe(h.index, 4)
  }

  function HeaderOf(b: seq<byte>): Header
    requires |b| == HEADER_LEN
  {
    Pow2OfWidths();
    ToFromLe(b[..8]);
    ToFromLe(b[8..]);
    Header(FromLe(b[..8]), FromLe(b[8..]))
  }

  /** `HeaderMask::mask`. */
  method Mask(mask: HeaderMask, tag: seq<byte>, header: Header) returns (out: seq<byte>)
    ensures out == Masked(mask, tag, HeaderBytes(header))
  {
    var plain := HeaderBytes(header);
    out := plain;
    for i := 0 to HEADER_LEN
      invariant |out| == HEADER_LEN
      invariant forall j :: 0 <= j < HEADER_LEN ==>
                  out[j] == if j < i then XorByte(plain[j], mask.keystream(tag, j)) else plain[j]
    {
      out := out[i := XorByte(out[i], mask.keystream(tag, i))];
    }
  }

  /** `HeaderMask::unmask`: any twelve bytes decode to some header. */
  function UnmaskedHeader(mask: HeaderMask, tag: seq<byte>, masked: seq<byte>): Header
    requires |masked| == HEADER_LEN
  {
    HeaderOf(Masked(mask, tag, masked))
  }

  method Unmask(mask: HeaderMask, tag: seq<byte>, masked: seq<byte>) returns (header: Header)
    requires |masked| == HEADER_LEN
    ensures header == UnmaskedHeader(mask, tag, masked)
  {
    var plain := Zeros(HEADER_LEN);
    for i := 0 to HEADER_LEN
      invariant |plain| == HEADER_LEN
      invariant forall j :: 0 <= j < i ==> plain[j] == XorByte(masked[j], mask.keystream(tag, j))
    {
      plain := plain[i := XorByte(masked[i], mask.keystream(tag, i))];
    }
    assert plain == Masked(mask, tag, masked);
    header := HeaderOf(plain);
  }

  lemma HeaderRoundTrip(h: Header)
    ensures HeaderOf(HeaderBytes(h)) == h
  {
    Pow2OfWidths();
    FromToLe(h.counter, 8);
    FromToLe(h.index, 4);
    var b := HeaderBytes(h);
    assert b[..8] == ToLe(h.counter, 8) && b[8..] == ToLe(h.index, 4);
  }

  lemma BytesRoundTrip(b: seq<byte>)
    requires |b| == HEADER_LEN
    ensures HeaderBytes(HeaderOf(b)) == b
  {
    ToFromLe(b[..8]);
    ToFromLe(b[8..]);
    assert b == b[..8] + b[8..];
  }

  /** Masking and unmasking undo each other, whatever the keystream. */
  lemma MaskRoundTrip(mask: HeaderMask, tag: seq<byte>, h: Header)
    ensures UnmaskedHeader(mask, tag, Masked(mask, tag, HeaderBytes(h))) == h
  {
    MaskedTwice(mask, tag, HeaderBytes(h));
    HeaderRoundTrip(h);
  }

  lemma UnmaskRoundTrip(mask: HeaderMask, tag: seq<byte>, masked: seq<byte>)
    requires |masked| == HEADER_LEN
    ensures Masked(mask, tag, HeaderBytes(UnmaskedHeader(mask, tag, masked))) == masked
  {
    BytesRoundTrip(Masked(mask, tag, masked));
    MaskedTwice(mask, tag, masked);
  }

  lemma MaskedTwice(mask: HeaderMask, tag: seq<byte>, bytes: seq<byte>)
    ensures Masked(mask, tag, Masked(mask, tag, bytes)) == bytes
  {
    forall i | 0 <= i < |bytes| ensures Masked(mask, tag, Masked(mask, tag, bytes))[i] == bytes[i] {
      XorByteUndoes(bytes[i], mask.keystream(tag, i));
    }
  }

  // ---- Packets -------------------------------------------------------------------------------

  datatype Parts = Parts(masked: seq<byte>, body: seq<byte>, tag: seq<byte>)

  /** `split`: header, ciphertext with its tag, and a copy of the tag. */
  function Split(packet: seq<byte>): (r: Result<Parts>)
    ensures r.Ok? ==> |r.value.masked| == HEADER_LEN && packet == r.value.masked + r.value.body
  {
    if |packet| < HEADER_LEN || |packet| - HEADER_LEN < TAG_LEN then Err(Short(OVERHEAD, |packet|))
    else Ok(Parts(packet[..HEADER_LEN], packet[HEADER_LEN..], packet[|packet| - TAG_LEN..]))
  }

  /** The packet a header and a sealed body travel as. */
  function Packet(mask: HeaderMask, h: Header, body: seq<byte>): seq<byte>
    requires |body| >= TAG_LEN
  {
    Masked(mask, body[|body| - TAG_LEN..], HeaderBytes(h)) + body
  }

  /** `peek_header`. */
  function PeekHeader(mask: HeaderMask, packet: seq<byte>): Result<Header> {
    match Split(packet)
    case Err(e) => Err(e)
    case Ok(p) => Ok(UnmaskedHeader(mask, p.tag, p.masked))
  }

  /** Every packet and its header and body determine each other. */
  lemma PacketRoundTrip(mask: HeaderMask, h: Header, body: seq<byte>)
    requires |body| >= TAG_LEN
    ensures var packet := Packet(mask, h, body);
            Split(packet).Ok? && Split(packet).value.body == body && PeekHeader(mask, packet) == Ok(h)
  {
    hide UnmaskedHeader, HeaderBytes;
    var tag := body[|body| - TAG_LEN..];
    var packet := Packet(mask, h, body);
    assert packet[|packet| - TAG_LEN..] == tag;
    assert packet[HEADER_LEN..] == body;
    assert packet[..HEADER_LEN] == Masked(mask, tag, HeaderBytes(h));
    MaskRoundTrip(mask, tag, h);
  }

  lemma SplitRoundTrip(mask: HeaderMask, packet: seq<byte>)
    requires |packet| >= OVERHEAD
    ensures Packet(mask, PeekHeader(mask, packet).value, Split(packet).value.body) == packet
  {
    hide UnmaskedHeader, HeaderBytes;
    var p := Split(packet).value;
    assert p.body[|p.body| - TAG_LEN..] == p.tag;
    UnmaskRoundTrip(mask, p.tag, p.masked);
  }

  /** The counter first and then the index, each low byte first. */
  lemma HeaderLayout(h: Header)
    ensures var b := HeaderBytes(h);
            && b[0] == h.counter % 0x100 && b[1] == h.counter / 0x100 % 0x100
            && b[8] == h.index % 0x100 && b[9] == h.index / 0x100 % 0x100
  {
    LowBytes(h.counter, 8);
    LowBytes(h.index, 4);
  }

  lemma LowBytes(n: nat, k: nat)
    requires k >= 2
    ensures ToLe(n, k)[0] == n % 0x100 && ToLe(n, k)[1] == n / 0x100 % 0x100
  {
    assert ToLe(n, k) == [n % 0x100] + ToLe(n / 0x100, k - 1);
    assert ToLe(n / 0x100, k - 1) == [n / 0x100 % 0x100] + ToLe(n / 0x100 / 0x100, k - 2);
  }

  /** What is sent is the header with exactly the bits of the keystream flipped. */
  lemma MaskFlips(mask: HeaderMask, tag: seq<byte>, h: Header, i: nat, bit: nat)
    requires i < 12 && bit < 8
    ensures BitOf(Masked(mask, tag, HeaderBytes(h))[i], bit)
            <==> BitOf(HeaderBytes(h)[i], bit) != BitOf(mask.keystream(tag, i), bit)
  {
    hide HeaderBytes;
    XorBits(HeaderBytes(h)[i], mask.keystream(tag, i), 8, bit);
  }
}
