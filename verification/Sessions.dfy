/** Transport sessions of `noise.rs`: what sealing and opening do, and what any run of two sessions
    over an arbitrary network delivers when the AEAD is ideal. */
module Sessions {
  import opened Bytes
  import opened Framing
  import opened Replay

  const REKEY_AFTER_TIME: nat := 120_000
  const REJECT_AFTER_TIME: nat := 180_000
  const REKEY_AFTER_MESSAGES: nat := 0x1000_0000_0000_0000
  const REJECT_AFTER_MESSAGES: u64 := 0xFFFF_FFFF_FFFF_FFFF - 0x2000

  /** The stateless cipher of one direction: sealing under a counter, and opening into some room. */
  datatype Transport = Transport(
    write: (u64, seq<byte>) -> Option<seq<byte>>,
    read: (u64, seq<byte>, nat) -> Option<seq<byte>>)
  {
    /** Sealing adds a tag; opening writes no more than there is room for. */
    ghost predicate Sound() {
      && (forall n: u64, p: seq<byte> :: write(n, p).Some? ==> |write(n, p).value| == |p| + TAG_LEN)
      && (forall n: u64, b: seq<byte>, room: nat :: read(n, b, room).Some? ==> |read(n, b, room).value| <= room)
    }
  }

  datatype State = State(
    mask: HeaderMask, localIndex: u32, remoteIndex: u32, sendCounter: u64, window: Window,
    established: u64, isInitiator: bool)
  {
    /** `is_expired`: a clock that went backwards is age zero. */
    predicate IsExpired(now: u64) {
      Max(now - established, 0) >= REJECT_AFTER_TIME
    }

    /** `needs_rekey`. */
    predicate NeedsRekey(now: u64) {
      isInitiator && (Max(now - established, 0) >= REKEY_AFTER_TIME || sendCounter >= REKEY_AFTER_MESSAGES)
    }
  }

  /** What `seal` writes, or why not. */
  function Sealed(s: State, plaintext: seq<byte>, room: nat, now: u64, t: Transport): Result<seq<byte>> {
    if room < |plaintext| + OVERHEAD then Err(Short(|plaintext| + OVERHEAD, room))
    else if s.IsExpired(now) || s.sendCounter >= REJECT_AFTER_MESSAGES then Err(Expired)
    else
      match t.write(s.sendCounter, plaintext)
      case None => Err(Noise)
      case Some(body) =>
        if |body| < TAG_LEN then Err(Short(OVERHEAD, HEADER_LEN + |body|))
        else Ok(Packet(s.mask, Header(s.sendCounter, s.remoteIndex), body))
  }

  /** The initiator asks for new keys before its session refuses anything, and the responder never asks. */
  lemma RekeyComesFirst(s: State, plaintext: seq<byte>, room: nat, now: u64, t: Transport)
    ensures s.isInitiator && Sealed(s, plaintext, room, now, t) == Err(Expired) ==> s.NeedsRekey(now)
    ensures !s.isInitiator ==> !s.NeedsRekey(now)
  {
    hide Packet;
  }

  /** With room enough, `seal` refuses as expired exactly at 180 seconds, or with its counters spent. */
  lemma SealExpiredExact(s: State, plaintext: seq<byte>, room: nat, now: u64, t: Transport)
    requires room >= |plaintext| + OVERHEAD
    ensures Sealed(s, plaintext, room, now, t) == Err(Expired)
            <==> now - s.established >= 180_000 || s.sendCounter >= 0xFFFF_FFFF_FFFF_FFFF - 0x2000
  {
    hide Packet;
  }

  /** Without it, `seal` refuses as too short before it looks at anything else. */
  lemma SealShortExact(s: State, plaintext: seq<byte>, room: nat, now: u64, t: Transport)
    requires t.Sound()
    ensures (var r := Sealed(s, plaintext, room, now, t); r.Err? && r.error.Short?) <==> room < |plaintext| + OVERHEAD
  {
    hide Packet;
  }

  /** New keys are asked for by the initiator, at 120 seconds or 2^60 messages. */
  lemma NeedsRekeyExact(s: State, now: u64)
    ensures s.NeedsRekey(now)
            <==> s.isInitiator && (now - s.established >= 120_000 || s.sendCounter >= 0x1000_0000_0000_0000)
  {
  }

  function AfterSeal(s: State, sealed: Result<seq<byte>>): State
    requires sealed.Ok? ==> s.sendCounter < REJECT_AFTER_MESSAGES
  {
    if sealed.Ok? then s.(sendCounter := s.sendCounter + 1) else s
  }

  /** What `open` recovers, or why not. */
  function Opened(s: State, packet: seq<byte>, room: nat, now: u64, t: Transport): Result<seq<byte>> {
    if s.IsExpired(now) then Err(Expired)
    else
      match Split(packet)
      case Err(e) => Err(e)
      case Ok(parts) =>
        var header := UnmaskedHeader(s.mask, parts.tag, parts.masked);
        if header.index != s.localIndex then Err(Rejected)
        else if !s.window.Admits(header.counter) then Err(Replayed)
        else
          match t.read(header.counter, parts.body, room)
          case None => Err(Rejected)
          case Some(p) => Ok(p)
  }

  /** `open` reports `Short` exactly for a packet too short to be one, and never for the room it is given. */
  lemma OpenShortExact(s: State, packet: seq<byte>, room: nat, now: u64, t: Transport)
    ensures (var got := Opened(s, packet, room, now, t); got.Err? && got.error.Short?)
            <==> !s.IsExpired(now) && |packet| < OVERHEAD
  {
    hide UnmaskedHeader;
  }

  /** `open` refuses as expired exactly at 180 seconds, whatever the packet. */
  lemma OpenExpiredExact(s: State, packet: seq<byte>, room: nat, now: u64, t: Transport)
    ensures Opened(s, packet, room, now, t) == Err(Expired) <==> now - s.established >= 180_000
  {
    hide UnmaskedHeader;
  }

  /** And as replayed exactly when it is live, the packet is long enough and its own, and the window does not
      admit its counter. */
  lemma OpenReplayedExact(s: State, packet: seq<byte>, room: nat, now: u64, t: Transport)
    ensures Opened(s, packet, room, now, t) == Err(Replayed)
            <==> && now - s.established < 180_000 && |packet| >= OVERHEAD
                 && var h := PeekHeader(s.mask, packet).value; h.index == s.localIndex && !s.window.Admits(h.counter)
  {
    hide UnmaskedHeader;
  }

  /** And as rejected exactly when it is live and the packet long enough, but not its own, or admitted and not
      decrypted. */
  lemma OpenRejectedExact(s: State, packet: seq<byte>, room: nat, now: u64, t: Transport)
    ensures Opened(s, packet, room, now, t) == Err(Rejected)
            <==> && now - s.established < 180_000 && |packet| >= OVERHEAD
                 && var h := PeekHeader(s.mask, packet).value;
                    || h.index != s.localIndex
                    || (s.window.Admits(h.counter) && t.read(h.counter, packet[12..], room).None?)
  {
    hide UnmaskedHeader;
    if |packet| >= OVERHEAD {
      assert Split(packet).value.body == packet[12..];
    }
  }

  function AfterOpen(s: State, packet: seq<byte>, got: Result<seq<byte>>): State
    requires got.Ok? ==> |packet| >= OVERHEAD
  {
    if got.Ok? then s.(window := s.window.Commit(PeekHeader(s.mask, packet).value.counter)) else s
  }

  class Session {
    const mask: HeaderMask
    const localIndex: u32
    const remoteIndex: u32
    const established: u64
    const isInitiator: bool
    var sendCounter: u64
    const replay: ReplayWindow
    const bits: array<u64>

    ghost predicate Valid()
      reads this, replay, bits
    {
      replay.bitmap == bits && replay.Valid()
    }

    ghost function View(): State
      reads this, replay
    {
      State(mask, localIndex, remoteIndex, sendCounter, replay.View(), established, isInitiator)
    }

    constructor (mask: HeaderMask, localIndex: u32, remoteIndex: u32, now: u64, isInitiator: bool)
      ensures Valid() && fresh(replay) && fresh(bits)
      ensures View() == State(mask, localIndex, remoteIndex, 0, EMPTY, now, isInitiator)
    {
      this.mask, this.localIndex, this.remoteIndex := mask, localIndex, remoteIndex;
      this.established, this.isInitiator, this.sendCounter := now, isInitiator, 0;
      var w := new ReplayWindow();
      replay, bits := w, w.bitmap;
    }

    /** `seal`: encrypts one inner packet into `out`. */
    method Seal(plaintext: seq<byte>, out: array<byte>, now: u64, t: Transport) returns (r: Result<nat>)
      requires Valid() && t.Sound()
      requires out as object != replay && out as object != bits && out as object != this
      modifies this`sendCounter, out
      ensures Valid()
      ensures var sealed := Sealed(old(View()), plaintext, out.Length, now, t);
              && View() == AfterSeal(old(View()), sealed)
              && (sealed.Ok? ==>
                    && r == Ok(|sealed.value|)
                    && |sealed.value| <= out.Length
                    && out[..] == sealed.value + old(out[|sealed.value|..]))
              && (sealed.Err? ==> r == Err(sealed.error) && (sealed.error != Noise ==> out[..] == old(out[..])))
    {
      hide Masked, HeaderBytes, Patch;
      var need := |plaintext| + OVERHEAD;
      if out.Length < need {
        return Err(Short(need, out.Length));
      }
      if IsExpired(now) || sendCounter >= REJECT_AFTER_MESSAGES {
        return Err(Expired);
      }
      var counter := sendCounter;
      var written := t.write(counter, plaintext);
      if written.None? {
        return Err(Noise);
      }
      var body := written.value;
      CopyInto(out, HEADER_LEN, body);
      var total := HEADER_LEN + |body|;
      var tag := body[|body| - TAG_LEN..];
      var header := Mask(mask, tag, Header(counter, remoteIndex));
      CopyInto(out, 0, header);
      Assembled(old(out[..]), header, body);
      sendCounter := sendCounter + 1;
      return Ok(total);
    }

    predicate IsExpired(now: u64)
      reads this
    {
      Max(now - established, 0) >= REJECT_AFTER_TIME
    }

    /** `open`: decrypts one transport packet into `out`. Only success touches the window. */
    method Open(packet: seq<byte>, out: array<byte>, now: u64, t: Transport) returns (r: Result<nat>)
      requires Valid() && t.Sound()
      requires out as object != replay && out as object != bits && out as object != this
      modifies replay, bits, out
      ensures Valid()
      ensures var got := Opened(old(View()), packet, out.Length, now, t);
              && (got.Ok? ==>
                    && r == Ok(|got.value|)
                    && |got.value| <= out.Length && |packet| >= OVERHEAD
                    && out[..] == got.value + old(out[|got.value|..])
                    && View() == AfterOpen(old(View()), packet, got))
              && (got.Err? ==>
                    && r == Err(got.error) && View() == old(View())
                    && (got.error != Rejected ==> out[..] == old(out[..])))
    {
      hide Masked, HeaderBytes, Patch, Packet;
      if IsExpired(now) {
        return Err(Expired);
      }
      var parts := Split(packet);
      if parts.Err? {
        return Err(parts.error);
      }
      var header := Unmask(mask, parts.value.tag, parts.value.masked);
      if header.index != localIndex {
        return Err(Rejected);
      }
      var admitted := replay.Check(header.counter);
      if !admitted {
        return Err(Replayed);
      }
      var plain := t.read(header.counter, parts.value.body, out.Length);
      if plain.None? {
        return Err(Rejected);
      }
      CopyInto(out, 0, plain.value);
      replay.Commit(header.counter);
      return Ok(|plain.value|);
    }
  }

  lemma Assembled(out: seq<byte>, header: seq<byte>, body: seq<byte>)
    requires |header| == HEADER_LEN && HEADER_LEN + |body| <= |out|
    ensures Patch(Patch(out, HEADER_LEN, body), 0, header) == header + body + out[HEADER_LEN + |body|..]
  {
  }

  method CopyInto(out: array<byte>, at: nat, bytes: seq<byte>)
    requires at + |bytes| <= out.Length
    modifies out
    ensures out[..] == Patch(old(out[..]), at, bytes)
  {
    for i := 0 to |bytes|
      invariant forall j :: 0 <= j < out.Length ==>
                  out[j] == if at <= j < at + i then bytes[j - at] else old(out[j])
    {
      out[at + i] := bytes[i];
    }
  }
}
