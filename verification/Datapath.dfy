/** The loop of `tunnel.rs` that writes inner packets to the device: one coalescer for the life of the
    tunnel, flushed at the end of every batch, and passed by for what no run could hold. */
module Datapath {
  import opened Bytes
  import opened Gso
  import opened Coalescing

  /** The writes carry everything but what is still held. */
  ghost predicate Puts(writes: seq<Written>, packets: seq<seq<byte>>, left: seq<seq<byte>>) {
    && |left| <= |packets|
    && packets[|packets| - |left|..] == left
    && Covers(writes, packets[..|packets| - |left|])
  }

  /** `write_held`: what is held, if anything. */
  method WriteHeld(c: Coalescer) returns (writes: seq<Written>)
    requires c.Valid()
    modifies c
    ensures c.Valid() && c.held == [] && !c.pending
    ensures Covers(writes, old(c.held))
  {
    hide Carries, Covers, Parse;
    CoversNothing();
    var count := HeldCount(c);
    var taken := c.Take();
    if taken.None? {
      return [];
    }
    var w := Written(count, taken.value.0, taken.value.1, false);
    CoversOne(w, old(c.held));
    return [w];
  }

  /** How many packets are held, from the run that holds them. */
  function HeldCount(c: Coalescer): (n: nat)
    requires c.Valid()
    reads c
    ensures n == |c.held|
  {
    if !c.pending then 0 else if c.run.Some? then c.run.value.count else 1
  }

  lemma CoversOne(w: Written, packets: seq<seq<byte>>)
    requires Carries(w, packets)
    ensures Covers([w], packets)
  {
    hide Carries;
    CoversNothing();
    CarriesCount(w, packets);
    assert packets[..0] == [] && packets[0..] == packets;
    assert [w][..0] == [];
  }

  lemma CarriesCount(w: Written, packets: seq<seq<byte>>)
    requires Carries(w, packets)
    ensures w.count == |packets|
  {
  }

  /** `write_inner`: the run a packet cannot join goes out first; the packet is then held, or, if it can
      be part of no run, written as it is. */
  method WriteInner(c: Coalescer, packet: seq<byte>) returns (writes: seq<Written>)
    requires c.Valid()
    modifies c
    ensures c.Valid()
    ensures Puts(writes, old(c.held) + [packet], c.held)
  {
    hide Carries, Covers, Parse, CanHold, MayJoin, Holds;
    ghost var before := c.held;
    writes := [];
    CoversNothing();
    CanJoinCanHold(c, packet);
    if !c.Joins(packet) {
      writes := WriteHeld(c);
    }
    ghost var held := c.held;
    assert Covers(writes, before[..|before| - |held|]) && before[|before| - |held|..] == held by {
      assert before[..|before|] == before && before[..0] == [];
    }
    if CanHold(packet) {
      c.Hold(packet);
      HeldOn(writes, before, held, packet);
    } else {
      WrittenAlone(writes, before, packet);
      writes := writes + [Written(1, Zeros(VNET_HDR_LEN), packet, true)];
    }
  }

  lemma CanJoinCanHold(c: Coalescer, packet: seq<byte>)
    requires c.Valid()
    ensures c.Joins(packet) ==> CanHold(packet)
  {
    if c.pending {
      HoldExact(c.run, c.frame, c.held, true, packet);
    }
    CanHoldExact(c.run, c.pending, packet);
  }

  lemma HeldOn(writes: seq<Written>, before: seq<seq<byte>>, held: seq<seq<byte>>, packet: seq<byte>)
    requires |held| <= |before| && before[|before| - |held|..] == held && Covers(writes, before[..|before| - |held|])
    ensures Puts(writes, before + [packet], held + [packet])
  {
    hide Covers;
    var all, left := before + [packet], held + [packet];
    assert all[..|all| - |left|] == before[..|before| - |held|];
    assert all[|all| - |left|..] == left;
  }

  lemma WrittenAlone(writes: seq<Written>, before: seq<seq<byte>>, packet: seq<byte>)
    requires Covers(writes, before)
    ensures Puts(writes + [Written(1, Zeros(VNET_HDR_LEN), packet, true)], before + [packet], [])
  {
    hide Covers;
    var all := before + [packet];
    assert all[..|before|] == before && all[|before|..] == [packet];
    CoversMore(writes, Written(1, Zeros(VNET_HDR_LEN), packet, true), all, |before|);
    assert all[..|all|] == all && all[|all|..] == [];
  }

  lemma {:induction false} CoversJoin(a: seq<Written>, ps: seq<seq<byte>>, b: seq<Written>, qs: seq<seq<byte>>)
    requires Covers(a, ps) && Covers(b, qs)
    ensures Covers(a + b, ps + qs)
    decreases |b|
  {
    hide Carries;
    if b == [] {
      assert a + b == a && ps + qs == ps;
    } else {
      var last, at := b[|b| - 1], |qs| - b[|b| - 1].count;
      CoversJoin(a, ps, b[..|b| - 1], qs[..at]);
      assert (a + b)[..|a + b| - 1] == a + b[..|b| - 1];
      assert (ps + qs)[..|ps| + at] == ps + qs[..at] && (ps + qs)[|ps| + at..] == qs[at..];
    }
  }

  function Flat(batches: seq<seq<seq<byte>>>): seq<seq<byte>> {
    if batches == [] then [] else Flat(batches[..|batches| - 1]) + batches[|batches| - 1]
  }

  /** One batch from the wire: every packet written or held, and then what is held flushed. */
  method WriteBatch(c: Coalescer, packets: seq<seq<byte>>) returns (out: seq<Written>)
    requires c.Valid() && c.held == []
    modifies c
    ensures c.Valid() && c.held == []
    ensures Covers(out, packets)
  {
    hide Carries, Covers, Parse;
    out := [];
    CoversNothing();
    for i := 0 to |packets|
      invariant c.Valid() && Puts(out, packets[..i], c.held)
    {
      ghost var held := c.held;
      var writes := WriteInner(c, packets[i]);
      PutsMore(out, packets, i, held, writes, c.held);
      out := out + writes;
    }
    assert packets[..|packets|] == packets;
    ghost var held := c.held;
    var last := WriteHeld(c);
    CoversJoin(out, packets[..|packets| - |held|], last, held);
    assert packets[..|packets| - |held|] + held == packets;
    out := out + last;
  }

  lemma PutsMore(out: seq<Written>, packets: seq<seq<byte>>, i: nat, held: seq<seq<byte>>, writes: seq<Written>, left: seq<seq<byte>>)
    requires i < |packets| && Puts(out, packets[..i], held) && Puts(writes, held + [packets[i]], left)
    ensures Puts(out + writes, packets[..i + 1], left)
  {
    hide Covers;
    var all, some := packets[..i + 1], held + [packets[i]];
    var done := packets[..i][..i - |held|];
    assert all == done + some;
    CoversJoin(out, done, writes, some[..|some| - |left|]);
    assert all[..|all| - |left|] == done + some[..|some| - |left|];
    assert all[|all| - |left|..] == some[|some| - |left|..];
  }

  /** What comes out is the packet to the byte, or the packet as a receiver reads it. */
  ghost predicate Arrives(packet: seq<byte>, out: seq<byte>) {
    out == packet || Preserves(packet, out)
  }

  ghost predicate AllArrive(packets: seq<seq<byte>>, segs: seq<seq<byte>>) {
    |segs| == |packets| && forall i :: 0 <= i < |packets| ==> Arrives(packets[i], segs[i])
  }

  lemma CarriesArrives(w: Written, packets: seq<seq<byte>>)
    requires Carries(w, packets)
    ensures Splittable(w.header, w.frame) && AllArrive(packets, Split(w.header, w.frame))
  {
    hide Preserves, Parse;
    if w.direct {
      assert Split(w.header, w.frame) == [w.frame] && packets == [packets[0]];
    } else {
      CarriesPreserves(w, packets);
    }
  }

  /** Splitting every write gives back every packet, once, in order. */
  lemma {:induction false} CoversArrives(writes: seq<Written>, packets: seq<seq<byte>>)
    requires Covers(writes, packets)
    ensures forall i :: 0 <= i < |writes| ==> Splittable(writes[i].header, writes[i].frame)
    ensures AllArrive(packets, AllSegments(writes))
  {
    hide Arrives, Split, Splittable, Carries;
    if writes != [] {
      var last, front := writes[|writes| - 1], writes[..|writes| - 1];
      var at := |packets| - last.count;
      CoversArrives(front, packets[..at]);
      CarriesArrives(last, packets[at..]);
      assert packets == packets[..at] + packets[at..];
      ArriveJoin(packets[..at], AllSegments(front), packets[at..], Split(last.header, last.frame));
    }
  }

  lemma ArriveJoin(ps: seq<seq<byte>>, ss: seq<seq<byte>>, qs: seq<seq<byte>>, ts: seq<seq<byte>>)
    requires AllArrive(ps, ss) && AllArrive(qs, ts)
    ensures AllArrive(ps + qs, ss + ts)
  {
    hide Arrives;
  }

  /** Over any batches, with the one object reused: every packet in exactly one write, in order, and
      splitting the writes gives every packet back; nothing is left over from one batch to the next. */
  method Pump(batches: seq<seq<seq<byte>>>) returns (out: seq<Written>)
    ensures Covers(out, Flat(batches))
    ensures forall i :: 0 <= i < |out| ==> Splittable(out[i].header, out[i].frame)
    ensures AllArrive(Flat(batches), AllSegments(out))
  {
    hide Carries, Covers, AllArrive, AllSegments, Splittable, Parse;
    var c := new Coalescer();
    out := [];
    CoversNothing();
    for i := 0 to |batches|
      invariant c.Valid() && fresh(c) && c.held == []
      invariant Covers(out, Flat(batches[..i]))
    {
      var writes := WriteBatch(c, batches[i]);
      CoversJoin(out, Flat(batches[..i]), writes, batches[i]);
      assert batches[..i + 1][..i] == batches[..i];
      out := out + writes;
    }
    assert batches[..|batches|] == batches;
    CoversArrives(out, Flat(batches));
  }
}
