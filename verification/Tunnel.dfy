/** Two sessions and a network that may drop, delay, reorder, repeat or invent packets.

    The cipher is ideal: opening under a counter succeeds only on the very body that was sealed under
    that counter, and then gives back what was sealed. Nothing else is assumed of it. */
module Tunnel {
  import opened Bytes
  import opened Framing
  import opened Replay
  import opened Sessions

  type Cipher = (u64, seq<byte>) -> seq<byte>

  ghost predicate AddsTag(enc: Cipher) {
    forall n: u64, p: seq<byte> :: |enc(n, p)| == |p| + TAG_LEN
  }

  /** The cipher an end holds: it seals with its own key and opens what its peer has sealed so far. */
  function Ideal(own: Cipher, peer: Cipher, log: seq<seq<byte>>): Transport {
    Transport(
      (n: u64, p: seq<byte>) => Some(own(n, p)),
      (n: u64, b: seq<byte>, room: nat) =>
        if n < |log| && b == peer(n, log[n]) && |log[n]| <= room then Some(log[n]) else None)
  }

  lemma IdealIsSound(own: Cipher, peer: Cipher, log: seq<seq<byte>>)
    requires AddsTag(own)
    ensures Ideal(own, peer, log).Sound()
  {
  }

  /** One end: its session, every plaintext it sealed (the counter is the index), and every
      delivery it made upward, with the counter that carried it. */
  datatype End = End(state: State, sealed: seq<seq<byte>>, got: seq<(u64, seq<byte>)>)

  datatype Net = Net(left: End, right: End)

  datatype Event =
    | Send(byLeft: bool, plaintext: seq<byte>, room: nat, now: u64)
    | Arrive(atLeft: bool, packet: seq<byte>, room: nat, now: u64)

  function SendStep(me: End, plaintext: seq<byte>, room: nat, now: u64, t: Transport): End {
    var r := Sealed(me.state, plaintext, room, now, t);
    if r.Err? then me
    else me.(state := AfterSeal(me.state, r), sealed := me.sealed + [plaintext])
  }

  function ArriveStep(me: End, packet: seq<byte>, room: nat, now: u64, t: Transport): End {
    var r := Opened(me.state, packet, room, now, t);
    if r.Err? then me
    else
      me.(state := AfterOpen(me.state, packet, r),
          got := me.got + [(PeekHeader(me.state.mask, packet).value.counter, r.value)])
  }

  function Step(net: Net, e: Event, left: Cipher, right: Cipher): Net {
    match e
    case Send(true, p, room, now) =>
      net.(left := SendStep(net.left, p, room, now, Ideal(left, right, net.right.sealed)))
    case Send(false, p, room, now) =>
      net.(right := SendStep(net.right, p, room, now, Ideal(right, left, net.left.sealed)))
    case Arrive(true, packet, room, now) =>
      net.(left := ArriveStep(net.left, packet, room, now, Ideal(left, right, net.right.sealed)))
    case Arrive(false, packet, room, now) =>
      net.(right := ArriveStep(net.right, packet, room, now, Ideal(right, left, net.left.sealed)))
  }

  function Run(net: Net, es: seq<Event>, left: Cipher, right: Cipher): Net {
    if es == [] then net else Step(Run(net, es[..|es| - 1], left, right), es[|es| - 1], left, right)
  }

  /** Two sessions just established with each other, each by its own clock. */
  function Established(mask: HeaderMask, i: u32, j: u32, since: (u64, u64)): Net {
    Net(End(State(mask, i, j, 0, EMPTY, since.0, true), [], []),
        End(State(mask, j, i, 0, EMPTY, since.1, false), [], []))
  }

  // ---- Safety --------------------------------------------------------------------------------

  ghost function Counters(got: seq<(u64, seq<byte>)>): set<u64> {
    set i | 0 <= i < |got| :: got[i].0
  }

  /** Everything `to` delivered, `from` sealed, and no counter was delivered twice. */
  ghost predicate Link(from: End, to: End) {
    && from.state.sendCounter == |from.sealed|
    && from.state.remoteIndex == to.state.localIndex && from.state.mask == to.state.mask
    && Represents(to.state.window, Counters(to.got))
    && (forall i :: 0 <= i < |to.got| ==> to.got[i].0 < |from.sealed| && to.got[i].1 == from.sealed[to.got[i].0])
    && (forall i, j :: 0 <= i < j < |to.got| ==> to.got[i].0 != to.got[j].0)
  }

  lemma SendKeepsLink(from: End, to: End, p: seq<byte>, room: nat, now: u64, t: Transport)
    requires Link(from, to)
    ensures Link(SendStep(from, p, room, now, t), to)
  {
    hide Represents;
  }

  lemma SendKeepsReverse(from: End, to: End, p: seq<byte>, room: nat, now: u64, t: Transport)
    requires Link(from, to)
    ensures Link(from, SendStep(to, p, room, now, t))
  {
    hide Represents;
  }

  lemma ArriveKeepsReverse(from: End, to: End, packet: seq<byte>, room: nat, now: u64, t: Transport)
    requires Link(from, to)
    ensures Link(ArriveStep(from, packet, room, now, t), to)
  {
    hide Represents;
  }

  lemma ArriveKeepsLink(from: End, to: End, packet: seq<byte>, room: nat, now: u64, own: Cipher, peer: Cipher)
    requires Link(from, to)
    ensures Link(from, ArriveStep(to, packet, room, now, Ideal(own, peer, from.sealed)))
  {
    var t := Ideal(own, peer, from.sealed);
    var r := Opened(to.state, packet, room, now, t);
    if r.Ok? {
      var after := ArriveStep(to, packet, room, now, t);
      var c := PeekHeader(to.state.mask, packet).value.counter;
      Accepted(to, packet, room, now, own, peer, from.sealed);
      assert after.got == to.got + [(c, from.sealed[c])];
      CountersGrow(to.got, (c, from.sealed[c]));
      CommitRepresents(to.state.window, Counters(to.got), c);
      RepresentsAnswers(to.state.window, Counters(to.got), c);
      assert c !in Counters(to.got);
      forall i | 0 <= i < |to.got| ensures to.got[i].0 != c {
        assert to.got[i].0 in Counters(to.got);
      }
    }
  }

  /** What the ideal cipher lets through. */
  lemma Accepted(to: End, packet: seq<byte>, room: nat, now: u64, own: Cipher, peer: Cipher, log: seq<seq<byte>>)
    requires Opened(to.state, packet, room, now, Ideal(own, peer, log)).Ok?
    ensures |packet| >= OVERHEAD
    ensures var c := PeekHeader(to.state.mask, packet).value.counter;
            && to.state.window.Admits(c)
            && c < |log|
            && Opened(to.state, packet, room, now, Ideal(own, peer, log)).value == log[c]
            && Split(packet).value.body == peer(c, log[c])
  {
    hide UnmaskedHeader;
  }

  lemma CountersGrow(got: seq<(u64, seq<byte>)>, d: (u64, seq<byte>))
    ensures Counters(got + [d]) == Counters(got) + {d.0}
  {
    var more := got + [d];
    forall c | c in Counters(got) + {d.0} ensures c in Counters(more) {
      if c == d.0 {
        assert more[|got|].0 == c;
      } else {
        var i :| 0 <= i < |got| && got[i].0 == c;
        assert more[i].0 == c;
      }
    }
  }

  /** Every run: each sealed plaintext is delivered at most once, and nothing else is delivered. */
  lemma {:induction false} AtMostOnce(mask: HeaderMask, i: u32, j: u32, since: (u64, u64), es: seq<Event>,
                                      left: Cipher, right: Cipher)
    ensures var net := Run(Established(mask, i, j, since), es, left, right);
            Link(net.left, net.right) && Link(net.right, net.left)
  {
    if es == [] {
      assert Counters([]) == {};
    } else {
      hide Link, SendStep, ArriveStep, Ideal;
      AtMostOnce(mask, i, j, since, es[..|es| - 1], left, right);
      var net := Run(Established(mask, i, j, since), es[..|es| - 1], left, right);
      match es[|es| - 1]
      case Send(true, p, room, now) =>
        SendKeepsLink(net.left, net.right, p, room, now, Ideal(left, right, net.right.sealed));
        SendKeepsReverse(net.right, net.left, p, room, now, Ideal(left, right, net.right.sealed));
      case Send(false, p, room, now) =>
        SendKeepsLink(net.right, net.left, p, room, now, Ideal(right, left, net.left.sealed));
        SendKeepsReverse(net.left, net.right, p, room, now, Ideal(right, left, net.left.sealed));
      case Arrive(true, packet, room, now) =>
        ArriveKeepsLink(net.right, net.left, packet, room, now, left, right);
        ArriveKeepsReverse(net.left, net.right, packet, room, now, Ideal(left, right, net.right.sealed));
      case Arrive(false, packet, room, now) =>
        ArriveKeepsLink(net.left, net.right, packet, room, now, right, left);
        ArriveKeepsReverse(net.right, net.left, packet, room, now, Ideal(right, left, net.left.sealed));
    }
  }

  function Plaintexts(got: seq<(u64, seq<byte>)>): (ps: seq<seq<byte>>)
    ensures |ps| == |got| && forall i :: 0 <= i < |got| ==> ps[i] == got[i].1
  {
    seq(|got|, i requires 0 <= i < |got| => got[i].1)
  }

  /** The same, counting copies: what came out is a sub-multiset of what went in. */
  lemma NothingInvented(from: End, to: End)
    requires Link(from, to)
    ensures multiset(Plaintexts(to.got)) <= multiset(from.sealed)
  {
    var cs := seq(|to.got|, i requires 0 <= i < |to.got| => to.got[i].0 as nat);
    Picked(from.sealed, cs, Plaintexts(to.got));
  }

  /** Values picked at distinct positions are a sub-multiset of the whole. */
  lemma {:induction false} Picked<T>(log: seq<T>, cs: seq<nat>, ps: seq<T>)
    requires |cs| == |ps|
    requires forall i :: 0 <= i < |cs| ==> cs[i] < |log| && ps[i] == log[cs[i]]
    requires forall i, j :: 0 <= i < j < |cs| ==> cs[i] != cs[j]
    ensures multiset(ps) <= multiset(log)
  {
    if ps != [] {
      assert cs[0] < |log|;
      var last, front := |log| - 1, log[..|log| - 1];
      assert log == front + [log[last]];
      if i :| 0 <= i < |cs| && cs[i] == last {
        var cs', ps' := Without(cs, i), Without(ps, i);
        forall k | 0 <= k < |cs'| ensures cs'[k] < |front| && ps'[k] == front[cs'[k]] {
          assert cs'[k] != last;
        }
        Picked(front, cs', ps');
        WithoutOne(ps, i);
      } else {
        Picked(front, cs, ps);
      }
    }
  }

  function Without<T>(s: seq<T>, i: nat): (t: seq<T>)
    requires i < |s|
    ensures |t| == |s| - 1
    ensures forall k :: 0 <= k < |t| ==> t[k] == if k < i then s[k] else s[k + 1]
  {
    s[..i] + s[i + 1..]
  }

  lemma WithoutOne<T>(s: seq<T>, i: nat)
    requires i < |s|
    ensures multiset(s) == multiset(Without(s, i)) + multiset{s[i]}
  {
    assert s == s[..i] + [s[i]] + s[i + 1..];
  }

  // ---- Rejected packets ----------------------------------------------------------------------

  /** Whether an event changes nothing: an arrival the session refuses, or a send it cannot make. */
  predicate Refused(net: Net, e: Event, left: Cipher, right: Cipher) {
    match e
    case Send(true, p, room, now) => Sealed(net.left.state, p, room, now, Ideal(left, right, net.right.sealed)).Err?
    case Send(false, p, room, now) => Sealed(net.right.state, p, room, now, Ideal(right, left, net.left.sealed)).Err?
    case Arrive(true, q, room, now) => Opened(net.left.state, q, room, now, Ideal(left, right, net.right.sealed)).Err?
    case Arrive(false, q, room, now) => Opened(net.right.state, q, room, now, Ideal(right, left, net.left.sealed)).Err?
  }

  /** The run without what was refused. */
  function Kept(net: Net, es: seq<Event>, left: Cipher, right: Cipher): seq<Event> {
    if es == [] then []
    else
      var front := es[..|es| - 1];
      Kept(net, front, left, right)
      + (if Refused(Run(net, front, left, right), es[|es| - 1], left, right) then [] else [es[|es| - 1]])
  }

  /** Forged, stale, repeated or undecryptable packets might as well never have arrived. */
  lemma {:induction false} RefusedLeavesNoTrace(net: Net, es: seq<Event>, left: Cipher, right: Cipher)
    ensures Run(net, Kept(net, es, left, right), left, right) == Run(net, es, left, right)
  {
    if es != [] {
      var front, e := es[..|es| - 1], es[|es| - 1];
      RefusedLeavesNoTrace(net, front, left, right);
      var kept := Kept(net, front, left, right);
      if Refused(Run(net, front, left, right), e, left, right) {
        assert Kept(net, es, left, right) == kept;
      } else {
        assert Kept(net, es, left, right) == kept + [e];
        assert (kept + [e])[..|kept|] == kept;
      }
    }
  }

  // ---- Expiry --------------------------------------------------------------------------------

  function ClockOf(e: Event): u64 { e.now }

  predicate AtLeft(e: Event) {
    if e.Send? then e.byLeft else e.atLeft
  }

  /** Nothing changes when a session was established. */
  lemma {:induction false} AgeKept(net: Net, es: seq<Event>, left: Cipher, right: Cipher)
    ensures var after := Run(net, es, left, right);
            && after.left.state.established == net.left.state.established
            && after.right.state.established == net.right.state.established
  {
    hide Ideal;
    if es != [] {
      AgeKept(net, es[..|es| - 1], left, right);
    }
  }

  /** After any run, an event at an end 180 seconds or more past its own beginning leaves everything as it
      was: it neither seals nor opens. */
  lemma ExpiredEndsDoNothing(mask: HeaderMask, i: u32, j: u32, since: (u64, u64), es: seq<Event>, e: Event,
                             left: Cipher, right: Cipher)
    requires ClockOf(e) - (if AtLeft(e) then since.0 else since.1) >= 180_000
    ensures var net := Run(Established(mask, i, j, since), es, left, right);
            Step(net, e, left, right) == net
  {
    hide Ideal, Run;
    AgeKept(Established(mask, i, j, since), es, left, right);
    var net := Run(Established(mask, i, j, since), es, left, right);
    var me := if AtLeft(e) then net.left else net.right;
    var t := if AtLeft(e) then Ideal(left, right, net.right.sealed) else Ideal(right, left, net.left.sealed);
    match e
    case Send(_, p, room, now) => ExpiredSends(me, p, room, now, t);
    case Arrive(_, packet, room, now) => OpenExpiredExact(me.state, packet, room, now, t);
  }

  lemma ExpiredSends(me: End, p: seq<byte>, room: nat, now: u64, t: Transport)
    requires now - me.state.established >= 180_000
    ensures SendStep(me, p, room, now, t) == me
  {
    if room >= |p| + OVERHEAD {
      SealExpiredExact(me.state, p, room, now, t);
    }
  }

  // ---- Delivery ------------------------------------------------------------------------------

  /** The packet that carried the plaintext sealed under counter `c`. */
  function PacketOf(from: End, c: u64, enc: Cipher): seq<byte>
    requires c < |from.sealed| && |enc(c, from.sealed[c])| >= TAG_LEN
  {
    Packet(from.state.mask, Header(c, from.state.remoteIndex), enc(c, from.sealed[c]))
  }

  /** A packet that does arrive, within the window and in time, is opened to what was sealed. */
  lemma FirstArrivalDelivers(from: End, to: End, c: u64, room: nat, now: u64, own: Cipher, peer: Cipher)
    requires Link(from, to) && AddsTag(peer) && c < |from.sealed|
    requires !to.state.IsExpired(now) && |from.sealed[c]| <= room
    ensures var r := Opened(to.state, PacketOf(from, c, peer), room, now, Ideal(own, peer, from.sealed));
            && (Accepts(Counters(to.got), c) ==> r == Ok(from.sealed[c]))
            && (!Accepts(Counters(to.got), c) ==> r == Err(Replayed))
  {
    hide UnmaskedHeader, Represents, Packet;
    PacketRoundTrip(from.state.mask, Header(c, from.state.remoteIndex), peer(c, from.sealed[c]));
    RepresentsAnswers(to.state.window, Counters(to.got), c);
  }

  /** A packet the window admits, arriving where there is no room for what it holds, is refused as though
      it had been forged, and not as `Short`. */
  lemma SmallBufferRejects(from: End, to: End, c: u64, room: nat, now: u64, own: Cipher, peer: Cipher)
    requires Link(from, to) && AddsTag(peer) && c < |from.sealed|
    requires !to.state.IsExpired(now) && Accepts(Counters(to.got), c)
    ensures var r := Opened(to.state, PacketOf(from, c, peer), room, now, Ideal(own, peer, from.sealed));
            r == if |from.sealed[c]| <= room then Ok(from.sealed[c]) else Err(Rejected)
  {
    hide UnmaskedHeader, Represents, Packet;
    PacketRoundTrip(from.state.mask, Header(c, from.state.remoteIndex), peer(c, from.sealed[c]));
    RepresentsAnswers(to.state.window, Counters(to.got), c);
  }

  /** One byte sealed, sent, and opened into an empty buffer: `Rejected`. */
  lemma EmptyBufferRejects(mask: HeaderMask, i: u32, j: u32, since: (u64, u64), left: Cipher, right: Cipher)
    requires AddsTag(left)
    ensures var net := Run(Established(mask, i, j, since), [Send(true, [7], 100, since.0)], left, right);
            && |net.left.sealed| == 1
            && Opened(net.right.state, PacketOf(net.left, 0, left), 0, since.1, Ideal(right, left, net.left.sealed))
               == Err(Rejected)
  {
    var start, es := Established(mask, i, j, since), [Send(true, [7], 100, since.0)];
    assert |es| == 1 && es[..0] == [];
    assert Run(start, es[..0], left, right) == start;
    var net := Run(start, es, left, right);
    assert net == Step(start, es[0], left, right);
    AtMostOnce(mask, i, j, since, es, left, right);
    assert Counters(net.right.got) == {};
    SmallBufferRejects(net.left, net.right, 0, 0, since.1, right, left);
  }

  /** Sealing produces that packet, under a counter never used before. */
  lemma SealingProduces(from: End, to: End, p: seq<byte>, room: nat, now: u64, own: Cipher, peer: Cipher)
    requires Link(from, to) && AddsTag(own)
    requires Sealed(from.state, p, room, now, Ideal(own, peer, to.sealed)).Ok?
    ensures var t := Ideal(own, peer, to.sealed);
            var after := SendStep(from, p, room, now, t);
            && after.sealed == from.sealed + [p]
            && Sealed(from.state, p, room, now, t).value == PacketOf(after, |from.sealed|, own)
  {
    hide Packet;
  }
}
