/** The capture filters of `bpf.rs`: programs with computed one-byte jumps, and the interpreter of the
    module's tests as their semantics. */
module Bpf {
  import opened Bytes

  const LD_H_ABS: u16 := 0x28
  const LD_B_ABS: u16 := 0x30
  const LD_H_IND: u16 := 0x48
  const LDX_B_MSH: u16 := 0xB1
  const JEQ_K: u16 := 0x15
  const JSET_K: u16 := 0x45
  const RET_K: u16 := 0x06

  const ETHERTYPE_IPV4: u32 := 0x0800
  const PROTO_TCP: u32 := 6
  const PROTO_ICMP: u32 := 1
  const FRAGMENT_OFFSET_MASK: u32 := 0x1FFF
  const ICMP_FRAGMENTATION_NEEDED: u32 := 0x0304
  const ACCEPT: u32 := 262144
  const MTU_TAIL_LEN: nat := 8
  const FIXED_LEN: nat := 10 + MTU_TAIL_LEN
  const PROTOCOL_LEN: nat := 8 + MTU_TAIL_LEN
  /** The most ports the callers name. */
  const MAX_PORTS: nat := 240

  datatype Insn = Insn(code: u16, jt: byte, jf: byte, k: u32)

  /** How a run ends: a return, or the panic of running off the program or meeting an unknown opcode. */
  datatype Outcome = Returned(k: u32) | Panicked

  // ---- The machine ---------------------------------------------------------------------------

  /** Whether two words share a set bit among their low `n`. */
  predicate Meets(a: nat, mask: nat, n: nat) {
    n > 0 && ((a % 2 == 1 && mask % 2 == 1) || Meets(a / 2, mask / 2, n - 1))
  }

  /** What the program does from `pc` with these registers. */
  function Exec(prog: seq<Insn>, frame: seq<byte>, pc: nat, a: u32, x: u32): Outcome
    decreases |prog| - pc
  {
    if pc >= |prog| then Panicked
    else
      var i := prog[pc];
      if i.code == LD_H_ABS then
        if i.k + 2 <= |frame| then Exec(prog, frame, pc + 1, Get16(frame, i.k), x) else Returned(0)
      else if i.code == LD_B_ABS then
        if i.k < |frame| then Exec(prog, frame, pc + 1, frame[i.k], x) else Returned(0)
      else if i.code == LD_H_IND then
        if x + i.k >= 0x1_0000_0000 then Panicked
        else if x + i.k + 2 <= |frame| then Exec(prog, frame, pc + 1, Get16(frame, x + i.k), x)
        else Returned(0)
      else if i.code == LDX_B_MSH then
        if i.k < |frame| then Exec(prog, frame, pc + 1, a, frame[i.k] % 0x10 * 4) else Returned(0)
      else if i.code == JEQ_K then
        Exec(prog, frame, pc + 1 + (if a == i.k then i.jt else i.jf), a, x)
      else if i.code == JSET_K then
        Exec(prog, frame, pc + 1 + (if Meets(a, i.k, 32) then i.jt else i.jf), a, x)
      else if i.code == RET_K then Returned(i.k)
      else Panicked
  }

  /** `run`, the interpreter loop. Jumps only go forward, so it ends on every program. */
  method Run(prog: seq<Insn>, frame: seq<byte>) returns (outcome: Outcome)
    ensures outcome == Exec(prog, frame, 0, 0, 0)
  {
    var pc: nat, a: u32, x: u32 := 0, 0, 0;
    while pc < |prog|
      invariant Exec(prog, frame, pc, a, x) == Exec(prog, frame, 0, 0, 0)
      decreases |prog| - pc
    {
      var i := prog[pc];
      pc := pc + 1;
      if i.code == LD_H_ABS {
        if i.k + 2 > |frame| { return Returned(0); }
        a := Get16(frame, i.k);
      } else if i.code == LD_B_ABS {
        if i.k >= |frame| { return Returned(0); }
        a := frame[i.k];
      } else if i.code == LD_H_IND {
        if x + i.k >= 0x1_0000_0000 { return Panicked; }
        if x + i.k + 2 > |frame| { return Returned(0); }
        a := Get16(frame, x + i.k);
      } else if i.code == LDX_B_MSH {
        if i.k >= |frame| { return Returned(0); }
        x := frame[i.k] % 0x10 * 4;
      } else if i.code == JEQ_K {
        pc := pc + if a == i.k then i.jt else i.jf;
      } else if i.code == JSET_K {
        pc := pc + if Meets(a, i.k, 32) then i.jt else i.jf;
      } else if i.code == RET_K {
        return Returned(i.k);
      } else {
        return Panicked;
      }
    }
    return Panicked;
  }

  // ---- The programs --------------------------------------------------------------------------

  /** `u8::try_from(n).unwrap_or(u8::MAX)`. */
  function Clamp(n: nat): byte { if n <= 0xFF then n else 0xFF }

  function MtuTail(): (t: seq<Insn>)
    ensures |t| == MTU_TAIL_LEN
  {
    [ Insn(JEQ_K, 0, 6, PROTO_ICMP),
      Insn(LD_H_ABS, 0, 0, 20),
      Insn(JSET_K, 4, 0, FRAGMENT_OFFSET_MASK),
      Insn(LDX_B_MSH, 0, 0, 14),
      Insn(LD_H_IND, 0, 0, 14),
      Insn(JEQ_K, 0, 1, ICMP_FRAGMENTATION_NEEDED),
      Insn(RET_K, 0, 0, ACCEPT),
      Insn(RET_K, 0, 0, 0) ]
  }

  function ToFail(n: nat, i: nat): byte
    requires i <= 8
  {
    Clamp(9 + n - i - 1)
  }

  function ToIcmp(n: nat, i: nat): byte
    requires i <= 9
  {
    Clamp(10 + n - i - 1)
  }

  function Preamble(n: nat): (p: seq<Insn>)
    ensures |p| == 8
  {
    [ Insn(LD_H_ABS, 0, 0, 12),
      Insn(JEQ_K, 0, ToFail(n, 1), ETHERTYPE_IPV4),
      Insn(LD_B_ABS, 0, 0, 23),
      Insn(JEQ_K, 0, ToIcmp(n, 3), PROTO_TCP),
      Insn(LD_H_ABS, 0, 0, 20),
      Insn(JSET_K, ToFail(n, 5), 0, FRAGMENT_OFFSET_MASK),
      Insn(LDX_B_MSH, 0, 0, 14),
      Insn(LD_H_IND, 0, 0, 16) ]
  }

  function Compare(ports: seq<u16>, i: nat): Insn
    requires i < |ports|
  {
    Insn(JEQ_K, Clamp(|ports| - 1 - i), if i + 1 == |ports| then 1 else 0, ports[i])
  }

  function Compares(ports: seq<u16>): (c: seq<Insn>)
    ensures |c| == |ports|
  {
    seq(|ports|, i requires 0 <= i < |ports| => Compare(ports, i))
  }

  const ENDINGS: seq<Insn> := [Insn(RET_K, 0, 0, ACCEPT), Insn(RET_K, 0, 0, 0)]

  function PortsCode(ports: seq<u16>): (p: seq<Insn>)
    ensures |p| == FIXED_LEN + |ports|
  {
    Preamble(|ports|) + Compares(ports) + ENDINGS + MtuTail()
  }

  function ProtocolCode(proto: byte): (p: seq<Insn>)
    ensures |p| == PROTOCOL_LEN
  {
    [ Insn(LD_H_ABS, 0, 0, 12),
      Insn(JEQ_K, 0, 5, ETHERTYPE_IPV4),
      Insn(LD_B_ABS, 0, 0, 23),
      Insn(JEQ_K, 0, 4, proto),
      Insn(LD_H_ABS, 0, 0, 20),
      Insn(JSET_K, 1, 0, FRAGMENT_OFFSET_MASK),
      Insn(RET_K, 0, 0, ACCEPT),
      Insn(RET_K, 0, 0, 0) ] + MtuTail()
  }

  /** `ports_program`: the program, pushed instruction by instruction. */
  method PortsProgram(ports: seq<u16>) returns (prog: seq<Insn>)
    ensures prog == PortsCode(ports) && |prog| == FIXED_LEN + |ports|
  {
    var n := |ports|;
    prog := [];
    prog := prog + [Insn(LD_H_ABS, 0, 0, 12)];
    prog := prog + [Insn(JEQ_K, 0, ToFail(n, 1), ETHERTYPE_IPV4)];
    prog := prog + [Insn(LD_B_ABS, 0, 0, 23)];
    prog := prog + [Insn(JEQ_K, 0, ToIcmp(n, 3), PROTO_TCP)];
    prog := prog + [Insn(LD_H_ABS, 0, 0, 20)];
    prog := prog + [Insn(JSET_K, ToFail(n, 5), 0, FRAGMENT_OFFSET_MASK)];
    prog := prog + [Insn(LDX_B_MSH, 0, 0, 14)];
    prog := prog + [Insn(LD_H_IND, 0, 0, 16)];
    assert prog == Preamble(n);
    for i := 0 to n
      invariant prog == Preamble(n) + Compares(ports)[..i]
    {
      var jt := Clamp(n - 1 - i);
      var jf := if i + 1 == n then 1 else 0;
      prog := prog + [Insn(JEQ_K, jt, jf, ports[i])];
      assert Compares(ports)[..i + 1] == Compares(ports)[..i] + [Compare(ports, i)];
    }
    assert Compares(ports)[..n] == Compares(ports);
    prog := prog + [Insn(RET_K, 0, 0, ACCEPT)];
    prog := prog + [Insn(RET_K, 0, 0, 0)];
    assert prog == Preamble(n) + Compares(ports) + ENDINGS;
    prog := PushMtuTail(prog);
  }

  /** `protocol_program`. */
  method ProtocolProgram(proto: byte) returns (prog: seq<Insn>)
    ensures prog == ProtocolCode(proto) && |prog| == PROTOCOL_LEN
  {
    prog := [Insn(LD_H_ABS, 0, 0, 12)];
    prog := prog + [Insn(JEQ_K, 0, 5, ETHERTYPE_IPV4)];
    prog := prog + [Insn(LD_B_ABS, 0, 0, 23)];
    prog := prog + [Insn(JEQ_K, 0, 4, proto)];
    prog := prog + [Insn(LD_H_ABS, 0, 0, 20)];
    prog := prog + [Insn(JSET_K, 1, 0, FRAGMENT_OFFSET_MASK)];
    prog := prog + [Insn(RET_K, 0, 0, ACCEPT)];
    prog := prog + [Insn(RET_K, 0, 0, 0)];
    prog := PushMtuTail(prog);
  }

  method PushMtuTail(before: seq<Insn>) returns (prog: seq<Insn>)
    ensures prog == before + MtuTail()
  {
    prog := before + [Insn(JEQ_K, 0, 6, PROTO_ICMP)];
    prog := prog + [Insn(LD_H_ABS, 0, 0, 20)];
    prog := prog + [Insn(JSET_K, 4, 0, FRAGMENT_OFFSET_MASK)];
    prog := prog + [Insn(LDX_B_MSH, 0, 0, 14)];
    prog := prog + [Insn(LD_H_IND, 0, 0, 14)];
    prog := prog + [Insn(JEQ_K, 0, 1, ICMP_FRAGMENTATION_NEEDED)];
    prog := prog + [Insn(RET_K, 0, 0, ACCEPT)];
    prog := prog + [Insn(RET_K, 0, 0, 0)];
  }

  // ---- What the programs are for -------------------------------------------------------------

  predicate IsIpv4(frame: seq<byte>) {
    At16(frame, 12) == Some(0x0800)
  }

  /** The IP protocol of an Ethernet frame, when it reaches that far. */
  function IpProtocol(frame: seq<byte>): Option<byte> { At(frame, 23) }

  /** Not a later fragment: the thirteen offset bits are zero. */
  predicate FirstFragment(frame: seq<byte>) {
    |frame| >= 22 && Get16(frame, 20) % 0x2000 == 0
  }

  /** Where the IP payload begins: past the options the header length counts. */
  function Transport(frame: seq<byte>): nat
    requires |frame| > 14
  {
    14 + frame[14] % 0x10 * 4
  }

  predicate TcpToPort(ports: seq<u16>, frame: seq<byte>) {
    && IpProtocol(frame) == Some(6)
    && FirstFragment(frame)
    && var port := At16(frame, Transport(frame) + 2); port.Some? && port.value in ports
  }

  /** A router's "fragmentation needed" report. */
  predicate MtuReport(frame: seq<byte>) {
    && IpProtocol(frame) == Some(1)
    && FirstFragment(frame)
    && At16(frame, Transport(frame)) == Some(0x0304)
  }

  predicate WantedByPorts(ports: seq<u16>, frame: seq<byte>) {
    IsIpv4(frame) && (TcpToPort(ports, frame) || MtuReport(frame))
  }

  predicate WantedByProtocol(proto: byte, frame: seq<byte>) {
    IsIpv4(frame) && ((IpProtocol(frame) == Some(proto) && FirstFragment(frame)) || MtuReport(frame))
  }

  function Verdict(wanted: bool): Outcome {
    Returned(if wanted then ACCEPT else 0)
  }

  // ---- Correctness ---------------------------------------------------------------------------

  lemma {:induction false} MeetsOnes(a: nat, m: nat, n: nat)
    requires m <= n
    ensures Meets(a, Pow2(m) - 1, n) <==> a % Pow2(m) != 0
  {
    if m == 0 {
      MeetsNothing(a, n);
    } else {
      var p := Pow2(m - 1);
      MeetsOnes(a / 2, m - 1, n - 1);
      HalvesModulo(a, p);
      MeetsHalves(a, p, n);
    }
  }

  lemma MeetsHalves(a: nat, p: nat, n: nat)
    requires p > 0 && n > 0
    ensures Meets(a, 2 * p - 1, n) <==> a % 2 == 1 || Meets(a / 2, p - 1, n - 1)
  {
    assert (2 * p - 1) / 2 == p - 1;
  }

  lemma {:induction false} MeetsNothing(a: nat, n: nat)
    ensures !Meets(a, 0, n)
  {
    if n > 0 {
      MeetsNothing(a / 2, n - 1);
    }
  }

  lemma HalvesModulo(a: nat, p: nat)
    requires p > 0
    ensures a % (2 * p) == 0 <==> a % 2 == 0 && (a / 2) % p == 0
  {
    var q, r := a / 2 / p, a / 2 % p;
    assert a == 2 * (p * q + r) + a % 2 == (2 * p) * q + (2 * r + a % 2);
    assert 0 <= 2 * r + a % 2 < 2 * p;
    RemainderUnique(a, 2 * p, q, 2 * r + a % 2);
  }

  lemma RemainderUnique(a: nat, d: nat, q: nat, r: nat)
    requires d > 0 && a == d * q + r && r < d
    ensures a % d == r
  {
    var q', r' := a / d, a % d;
    assert a == d * q' + r';
    assert d * (q - q') == d * q - d * q' && d * (q' - q) == d * q' - d * q;
    if q > q' {
      Multiple(d, q - q');
    } else if q < q' {
      Multiple(d, q' - q);
    }
  }

  lemma {:induction false} Multiple(d: nat, k: nat)
    requires k > 0
    ensures d * k >= d
  {
    if k > 1 {
      Multiple(d, k - 1);
      assert d * k == d * (k - 1) + d;
    }
  }

  lemma MaskTest(a: u32)
    ensures Meets(a, FRAGMENT_OFFSET_MASK, 32) <==> a % 0x2000 != 0
  {
    MeetsOnes(a, 13, 32);
    Pow2OfWidths();
    assert Pow2(5) == 0x20;
    Pow2Sum(8, 5);
  }

  /** The tail, wherever it sits in a program: entered with the IP protocol in the accumulator. */
  lemma TailVerdict(prog: seq<Insn>, t: nat, frame: seq<byte>, proto: byte, x: u32)
    requires t + MTU_TAIL_LEN <= |prog| && prog[t..t + MTU_TAIL_LEN] == MtuTail()
    requires IpProtocol(frame) == Some(proto)
    ensures Exec(prog, frame, t, proto, x) == Verdict(MtuReport(frame))
  {
    TailAt(prog, t);
    assert Exec(prog, frame, t + 7, proto, x) == Returned(0);
    if proto == 1 {
      var frag := Get16(frame, 20);
      assert Exec(prog, frame, t, proto, x) == Exec(prog, frame, t + 1, proto, x) == Exec(prog, frame, t + 2, frag, x);
      MaskTest(frag);
      if frag % 0x2000 == 0 {
        TailReads(prog, t, frame, frag, x);
      } else {
        assert Exec(prog, frame, t + 2, frag, x) == Exec(prog, frame, t + 7, frag, x);
      }
    }
  }

  lemma TailAt(prog: seq<Insn>, t: nat)
    requires t + MTU_TAIL_LEN <= |prog| && prog[t..t + MTU_TAIL_LEN] == MtuTail()
    ensures prog[t] == MtuTail()[0] && prog[t + 1] == MtuTail()[1] && prog[t + 2] == MtuTail()[2]
    ensures prog[t + 3] == MtuTail()[3] && prog[t + 4] == MtuTail()[4] && prog[t + 5] == MtuTail()[5]
    ensures prog[t + 6] == MtuTail()[6] && prog[t + 7] == MtuTail()[7]
  {
    var tail := prog[t..t + MTU_TAIL_LEN];
    assert tail[0] == prog[t] && tail[1] == prog[t + 1] && tail[2] == prog[t + 2] && tail[3] == prog[t + 3];
    assert tail[4] == prog[t + 4] && tail[5] == prog[t + 5] && tail[6] == prog[t + 6] && tail[7] == prog[t + 7];
  }

  lemma TailReads(prog: seq<Insn>, t: nat, frame: seq<byte>, a: u32, x: u32)
    requires t + MTU_TAIL_LEN <= |prog| && |frame| > 14
    requires prog[t..t + MTU_TAIL_LEN] == MtuTail()
    requires !Meets(a, FRAGMENT_OFFSET_MASK, 32)
    ensures Exec(prog, frame, t + 2, a, x) == Verdict(At16(frame, Transport(frame)) == Some(0x0304))
  {
    TailAt(prog, t);
    var ihl := frame[14] % 0x10 * 4;
    assert Exec(prog, frame, t + 2, a, x) == Exec(prog, frame, t + 3, a, x) == Exec(prog, frame, t + 4, a, ihl);
    if ihl + 14 + 2 <= |frame| {
      var kind := Get16(frame, ihl + 14);
      assert Exec(prog, frame, t + 4, a, ihl) == Exec(prog, frame, t + 5, kind, ihl);
      assert Exec(prog, frame, t + 6, kind, ihl) == Returned(ACCEPT);
      assert Exec(prog, frame, t + 7, kind, ihl) == Returned(0);
    }
  }

  lemma PortsLayout(ports: seq<u16>)
    ensures var prog, n := PortsCode(ports), |ports|;
            && prog[..8] == Preamble(n)
            && (forall i :: 0 <= i < n ==> prog[8 + i] == Compare(ports, i))
            && prog[8 + n] == Insn(RET_K, 0, 0, ACCEPT)
            && prog[9 + n] == Insn(RET_K, 0, 0, 0)
            && prog[10 + n..10 + n + MTU_TAIL_LEN] == MtuTail()
  {
    hide Preamble, Compares, MtuTail;
    var prog, n := PortsCode(ports), |ports|;
    forall i | 0 <= i < n ensures prog[8 + i] == Compare(ports, i) {
      assert prog[8 + i] == Compares(ports)[i];
      ComparesAt(ports, i);
    }
  }

  lemma ComparesAt(ports: seq<u16>, i: nat)
    requires i < |ports|
    ensures Compares(ports)[i] == Compare(ports, i)
  {
  }

  /** From comparison `i` on, the accumulator is looked for among the remaining ports. */
  lemma {:induction false} ChainVerdict(ports: seq<u16>, frame: seq<byte>, i: nat, a: u32, x: u32)
    requires i < |ports| <= 256
    ensures Exec(PortsCode(ports), frame, 8 + i, a, x) == Verdict(a in ports[i..])
    decreases |ports| - i
  {
    hide PortsCode, Preamble, MtuTail;
    PortsLayout(ports);
    var prog, n := PortsCode(ports), |ports|;
    var insn := prog[8 + i];
    assert insn == Compare(ports, i);
    assert a in ports[i..] <==> a == ports[i] || a in ports[i + 1..];
    if a == ports[i] {
      assert 8 + i + 1 + insn.jt == 8 + n;
      assert Exec(prog, frame, 8 + n, a, x) == Returned(ACCEPT);
    } else if i + 1 == n {
      assert 8 + i + 1 + insn.jf == 9 + n;
      assert Exec(prog, frame, 9 + n, a, x) == Returned(0);
    } else {
      assert 8 + i + 1 + insn.jf == 8 + (i + 1);
      ChainVerdict(ports, frame, i + 1, a, x);
    }
  }

  /** The generated program accepts exactly the declared traffic, on every frame, for any list of
      ports its one-byte jumps can cross: up to 248, where 240 is promised. */
  lemma PortsProgramCorrect(ports: seq<u16>, frame: seq<byte>)
    requires 1 <= |ports| <= 248
    ensures Exec(PortsCode(ports), frame, 0, 0, 0) == Verdict(WantedByPorts(ports, frame))
  {
    hide PortsCode, Verdict;
    VerdictOf(false);
    PortsLayout(ports);
    var prog, n := PortsCode(ports), |ports|;
    assert forall i :: 0 <= i < 8 ==> prog[i] == prog[..8][i] == Preamble(n)[i];
    if |frame| < 14 {
      assert Exec(prog, frame, 0, 0, 0) == Returned(0);
    } else {
      var ethertype := Get16(frame, 12);
      assert Exec(prog, frame, 0, 0, 0) == Exec(prog, frame, 1, ethertype, 0);
      if ethertype == 0x0800 {
        assert Exec(prog, frame, 1, ethertype, 0) == Exec(prog, frame, 2, ethertype, 0);
        Ipv4Verdict(ports, frame);
      } else {
        assert Exec(prog, frame, 1, ethertype, 0) == Exec(prog, frame, 9 + n, ethertype, 0) == Returned(0);
      }
    }
  }

  lemma Ipv4Verdict(ports: seq<u16>, frame: seq<byte>)
    requires 1 <= |ports| <= 248 && IsIpv4(frame)
    ensures Exec(PortsCode(ports), frame, 2, 0x0800, 0) == Verdict(WantedByPorts(ports, frame))
  {
    hide PortsCode, FirstFragment;
    PortsLayout(ports);
    var prog, n := PortsCode(ports), |ports|;
    assert forall i :: 0 <= i < 8 ==> prog[i] == prog[..8][i] == Preamble(n)[i];
    if |frame| <= 23 {
      assert Exec(prog, frame, 2, 0x0800, 0) == Returned(0);
    } else {
      var proto := frame[23];
      assert Exec(prog, frame, 2, 0x0800, 0) == Exec(prog, frame, 3, proto, 0);
      if proto == 6 {
        assert Exec(prog, frame, 3, proto, 0) == Exec(prog, frame, 4, proto, 0);
        TcpVerdict(ports, frame);
      } else {
        assert Exec(prog, frame, 3, proto, 0) == Exec(prog, frame, 10 + n, proto, 0);
        TailVerdict(prog, 10 + n, frame, proto, 0);
      }
    }
  }

  lemma TcpVerdict(ports: seq<u16>, frame: seq<byte>)
    requires 1 <= |ports| <= 248 && IpProtocol(frame) == Some(6)
    ensures Exec(PortsCode(ports), frame, 4, 6, 0) == Verdict(TcpToPort(ports, frame))
  {
    hide PortsCode;
    PortsLayout(ports);
    var prog, n := PortsCode(ports), |ports|;
    assert forall i :: 0 <= i < 8 ==> prog[i] == prog[..8][i] == Preamble(n)[i];
    var frag := Get16(frame, 20);
    assert Exec(prog, frame, 4, 6, 0) == Exec(prog, frame, 5, frag, 0);
    MaskTest(frag);
    if frag % 0x2000 != 0 {
      assert Exec(prog, frame, 5, frag, 0) == Exec(prog, frame, 9 + n, frag, 0) == Returned(0);
    } else {
      var ihl := frame[14] % 0x10 * 4;
      assert Exec(prog, frame, 5, frag, 0) == Exec(prog, frame, 6, frag, 0) == Exec(prog, frame, 7, frag, ihl);
      if ihl + 16 + 2 <= |frame| {
        var port := Get16(frame, ihl + 16);
        assert Exec(prog, frame, 7, frag, ihl) == Exec(prog, frame, 8 + 0, port, ihl);
        ChainVerdict(ports, frame, 0, port, ihl);
        assert ports[0..] == ports;
      }
    }
  }

  /** The hand-written offsets of the single-protocol program, for every protocol number. */
  lemma ProtocolProgramCorrect(proto: byte, frame: seq<byte>)
    ensures Exec(ProtocolCode(proto), frame, 0, 0, 0) == Verdict(WantedByProtocol(proto, frame))
  {
    hide Verdict, FirstFragment;
    var prog := ProtocolCode(proto);
    assert prog[8..8 + MTU_TAIL_LEN] == MtuTail();
    if |frame| < 14 {
      assert Exec(prog, frame, 0, 0, 0) == Returned(0);
      VerdictOf(false);
    } else {
      var ethertype := Get16(frame, 12);
      assert Exec(prog, frame, 0, 0, 0) == Exec(prog, frame, 1, ethertype, 0);
      if ethertype != 0x0800 || |frame| <= 23 {
        assert Exec(prog, frame, 1, ethertype, 0) == Returned(0);
        VerdictOf(false);
      } else {
        var p := frame[23];
        assert Exec(prog, frame, 1, ethertype, 0) == Exec(prog, frame, 2, ethertype, 0) == Exec(prog, frame, 3, p, 0);
        if p == proto {
          assert Exec(prog, frame, 3, p, 0) == Exec(prog, frame, 4, p, 0);
          OutrightVerdict(proto, frame);
        } else {
          assert Exec(prog, frame, 3, p, 0) == Exec(prog, frame, 8, p, 0);
          TailVerdict(prog, 8, frame, p, 0);
        }
      }
    }
  }

  lemma VerdictOf(wanted: bool)
    ensures Verdict(wanted) == Returned(if wanted then ACCEPT else 0)
  {
  }

  lemma OutrightVerdict(proto: byte, frame: seq<byte>)
    requires IpProtocol(frame) == Some(proto)
    ensures Exec(ProtocolCode(proto), frame, 4, proto, 0) == Verdict(FirstFragment(frame))
    ensures proto == 1 && MtuReport(frame) ==> FirstFragment(frame)
  {
    var prog, frag := ProtocolCode(proto), Get16(frame, 20);
    assert Exec(prog, frame, 4, proto, 0) == Exec(prog, frame, 5, frag, 0);
    MaskTest(frag);
    assert Exec(prog, frame, 6, frag, 0) == Returned(ACCEPT);
    assert Exec(prog, frame, 7, frag, 0) == Returned(0);
  }

  // ---- How many ports are too many -----------------------------------------------------------

  /** Every jump of the program lands on one of its instructions. */
  ghost predicate JumpsLand(prog: seq<Insn>) {
    forall pc :: 0 <= pc < |prog| && (prog[pc].code == JEQ_K || prog[pc].code == JSET_K) ==>
      pc + 1 + prog[pc].jt < |prog| && pc + 1 + prog[pc].jf < |prog|
  }

  lemma PortsJumpsLand(ports: seq<u16>)
    requires 1 <= |ports| <= 248
    ensures JumpsLand(PortsCode(ports))
  {
    var prog, n := PortsCode(ports), |ports|;
    PortsLayout(ports);
    forall pc | 0 <= pc < |prog| && (prog[pc].code == JEQ_K || prog[pc].code == JSET_K)
      ensures pc + 1 + prog[pc].jt < |prog| && pc + 1 + prog[pc].jf < |prog|
    {
      if pc < 8 {
        assert prog[pc] == Preamble(n)[pc];
      } else if pc < 8 + n {
        assert prog[8 + (pc - 8)] == Compare(ports, pc - 8);
      } else if pc >= 10 + n {
        assert prog[pc] == prog[10 + n..10 + n + MTU_TAIL_LEN][pc - 10 - n] == MtuTail()[pc - 10 - n];
      }
    }
  }

  /** Between the preamble and the tail nothing reads the frame, whatever the jumps have become. */
  lemma {:induction false} NothingRead(ports: seq<u16>, f: seq<byte>, g: seq<byte>, pc: nat, a: u32, x: u32)
    requires 8 <= pc <= 9 + |ports|
    ensures Exec(PortsCode(ports), f, pc, a, x) == Exec(PortsCode(ports), g, pc, a, x)
    decreases 9 + |ports| - pc
  {
    hide PortsCode;
    PortsLayout(ports);
    if pc < 8 + |ports| {
      var i := PortsCode(ports)[8 + (pc - 8)];
      assert i == Compare(ports, pc - 8);
      NothingRead(ports, f, g, pc + 1 + (if a == i.k then i.jt else i.jf), a, x);
    }
  }

  /** An Ethernet frame: this EtherType, a five-word header of this protocol, then a halfword twice. */
  function SampleFrame(ethertype: u16, proto: byte, word: u16): (f: seq<byte>)
    ensures Sampled(f, ethertype, proto, word)
  {
    var e, w := Be16(ethertype), Be16(word);
    Be16RoundTrip(ethertype);
    Be16RoundTrip(word);
    seq(38, i => if i == 12 then e[0] else if i == 13 then e[1] else if i == 14 then 0x45
                 else if i == 23 then proto else if i == 34 || i == 36 then w[0]
                 else if i == 35 || i == 37 then w[1] else 0)
  }

  predicate Sampled(f: seq<byte>, ethertype: u16, proto: byte, word: u16) {
    && |f| == 38
    && Get16(f, 12) == ethertype && f[14] == 0x45 && f[23] == proto
    && Get16(f, 20) == 0 && Get16(f, 34) == word && Get16(f, 36) == word
  }

  ghost predicate FiltersExactly(ports: seq<u16>) {
    forall frame: seq<byte> :: FiltersFrame(ports, frame)
  }

  predicate FiltersFrame(ports: seq<u16>, frame: seq<byte>) {
    Exec(PortsCode(ports), frame, 0, 0, 0) == Verdict(WantedByPorts(ports, frame))
  }

  /** With no ports, control falls from the preamble into `accept`. */
  lemma NoPortsFails(f: seq<byte>)
    requires Sampled(f, 0x0800, 6, 80)
    ensures !FiltersFrame([], f)
  {
    hide PortsCode, Get16;
    PortsLayout([]);
    var prog := PortsCode([]);
    assert forall i :: 0 <= i < 8 ==> prog[i] == prog[..8][i] == Preamble(0)[i];
    MaskTest(0);
    assert Exec(prog, f, 0, 0, 0) == Exec(prog, f, 1, 0x0800, 0);
    assert Exec(prog, f, 1, 0x0800, 0) == Exec(prog, f, 2, 0x0800, 0);
    assert Exec(prog, f, 2, 0x0800, 0) == Exec(prog, f, 3, 6, 0);
    assert Exec(prog, f, 3, 6, 0) == Exec(prog, f, 4, 6, 0);
    assert Exec(prog, f, 4, 6, 0) == Exec(prog, f, 5, 0, 0);
    assert Exec(prog, f, 5, 0, 0) == Exec(prog, f, 6, 0, 0);
    assert Exec(prog, f, 6, 0, 0) == Exec(prog, f, 7, 0, 20);
    assert Exec(prog, f, 7, 0, 20) == Exec(prog, f, 8, 80, 20) == Returned(ACCEPT);
  }

  /** With one port too many, the jump to `fail` that no longer fits lands on `accept`. */
  lemma OneTooManyFails(ports: seq<u16>, f: seq<byte>)
    requires |ports| == 249 && Sampled(f, 0, 0, 0)
    ensures !FiltersFrame(ports, f)
  {
    hide PortsCode, Get16;
    PortsLayout(ports);
    var prog := PortsCode(ports);
    assert forall i :: 0 <= i < 8 ==> prog[i] == prog[..8][i] == Preamble(249)[i];
    assert Exec(prog, f, 0, 0, 0) == Exec(prog, f, 1, 0, 0);
    assert Exec(prog, f, 1, 0, 0) == Exec(prog, f, 257, 0, 0) == Returned(ACCEPT);
  }

  /** With more, the jump to the tail never reaches it, so a report and a ping fare alike. */
  lemma ManyMoreFails(ports: seq<u16>, report: seq<byte>, ping: seq<byte>)
    requires |ports| >= 250 && Sampled(report, 0x0800, 1, 0x0304) && Sampled(ping, 0x0800, 1, 0x0800)
    ensures !FiltersFrame(ports, report) || !FiltersFrame(ports, ping)
  {
    hide PortsCode, Exec, Get16;
    IcmpLost(ports, report);
    IcmpLost(ports, ping);
    NothingRead(ports, report, ping, 259, 1, 0);
    assert WantedByPorts(ports, report) && !WantedByPorts(ports, ping);
  }

  lemma IcmpLost(ports: seq<u16>, f: seq<byte>)
    requires |ports| >= 250 && |f| == 38 && Get16(f, 12) == 0x0800 && f[23] == 1
    ensures Exec(PortsCode(ports), f, 0, 0, 0) == Exec(PortsCode(ports), f, 259, 1, 0)
  {
    hide PortsCode;
    PortsLayout(ports);
    var prog := PortsCode(ports);
    assert forall i :: 0 <= i < 8 ==> prog[i] == prog[..8][i] == Preamble(|ports|)[i];
    assert Exec(prog, f, 0, 0, 0) == Exec(prog, f, 1, 0x0800, 0);
    assert Exec(prog, f, 1, 0x0800, 0) == Exec(prog, f, 2, 0x0800, 0);
    assert Exec(prog, f, 2, 0x0800, 0) == Exec(prog, f, 3, 1, 0);
    assert Exec(prog, f, 3, 1, 0) == Exec(prog, f, 259, 1, 0);
  }

  /** The generator is right on every frame exactly for one to 248 ports, which covers every list the
      callers may name. */
  lemma PortsProgramExact(ports: seq<u16>)
    ensures FiltersExactly(ports) <==> 1 <= |ports| <= 248
    ensures 1 <= |ports| <= MAX_PORTS ==> FiltersExactly(ports)
  {
    hide PortsCode, SampleFrame, FiltersFrame;
    if |ports| == 0 {
      NoPortsFails(SampleFrame(0x0800, 6, 80));
      assert ports == [];
    } else if |ports| == 249 {
      OneTooManyFails(ports, SampleFrame(0, 0, 0));
    } else if |ports| > 249 {
      ManyMoreFails(ports, SampleFrame(0x0800, 1, 0x0304), SampleFrame(0x0800, 1, 0x0800));
    } else {
      forall frame: seq<byte> ensures FiltersFrame(ports, frame) {
        PortsProgramFilters(ports, frame);
      }
    }
  }

  lemma PortsProgramFilters(ports: seq<u16>, frame: seq<byte>)
    requires 1 <= |ports| <= 248
    ensures FiltersFrame(ports, frame)
  {
    PortsProgramCorrect(ports, frame);
  }
}
