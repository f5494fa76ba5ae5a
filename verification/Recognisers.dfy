/** What `cover.rs` takes for a decoy: whole runs of records, the first part of a hello, and the
    identifier an answer echoes. */
module Recognisers {
  import opened Bytes
  import opened Records

  const HANDSHAKE: byte := 0x16
  const CHANGE_CIPHER_SPEC: byte := 0x14
  const CLIENT_HELLO: byte := 0x01
  const SERVER_HELLO: byte := 0x02
  const HELLO_MIN: nat := 1024
  const HELLO_MAX: nat := 2560

  predicate LeadingKind(kind: byte) { kind == HANDSHAKE || kind == CHANGE_CIPHER_SPEC }

  predicate CoverKind(kind: byte) { LeadingKind(kind) || kind == APPLICATION_DATA }

  /** One record that says its own length exactly. */
  predicate IsRecord(r: seq<byte>) {
    |r| >= RECORD_HEADER && CoverKind(r[0]) && r[1] == 0x03 && |r| == RECORD_HEADER + Get16(r, 3)
  }

  /** Nothing but records, one after the other. */
  predicate IsChain(p: seq<byte>) {
    || p == []
    || (&& |p| >= RECORD_HEADER
        && var len := RECORD_HEADER + Get16(p, 3);
           len <= |p| && IsRecord(p[..len]) && IsChain(p[len..]))
  }

  /** What `is_cover` decides: a run of records that a handshake or a change of cipher leads. */
  predicate IsCover(p: seq<byte>) {
    p != [] && LeadingKind(p[0]) && IsChain(p)
  }

  /** `is_cover`, the loop. */
  method CheckCover(payload: seq<byte>) returns (cover: bool)
    ensures cover <==> IsCover(payload)
  {
    hide IsChain, Get16;
    if payload == [] || !LeadingKind(payload[0]) {
      return false;
    }
    var at: nat := 0;
    assert payload[0..] == payload;
    while at < |payload|
      invariant at <= |payload| ==> (IsChain(payload[at..]) <==> IsChain(payload))
      invariant at > |payload| ==> !IsChain(payload)
      decreases |payload| - at
    {
      var rest := payload[at..];
      if |rest| < 2 || !CoverKind(rest[0]) || rest[1] != 0x03 {
        NotAChain(rest);
        return false;
      }
      if |rest| < 5 {
        ShortIsNoChain(rest);
        return false;
      }
      var len := Get16(rest, 3);
      ChainStep(rest);
      at := at + 5 + len;
      if at <= |payload| {
        assert rest[5 + len..] == payload[at..];
      }
    }
    cover := at == |payload|;
    if cover {
      assert payload[at..] == [];
      EmptyIsChain();
    }
  }

  lemma EmptyIsChain()
    ensures IsChain([])
  {
  }

  lemma ShortIsNoChain(p: seq<byte>)
    requires 0 < |p| < RECORD_HEADER
    ensures !IsChain(p)
  {
  }

  lemma NotAChain(p: seq<byte>)
    requires p != [] && (|p| < 2 || !CoverKind(p[0]) || p[1] != 0x03)
    ensures !IsChain(p)
  {
  }

  lemma ChainStep(p: seq<byte>)
    requires |p| >= RECORD_HEADER && CoverKind(p[0]) && p[1] == 0x03
    ensures var len := RECORD_HEADER + Get16(p, 3);
            IsChain(p) <==> len <= |p| && IsChain(p[len..])
  {
    var len := RECORD_HEADER + Get16(p, 3);
    if len <= |p| {
      assert Get16(p[..len], 3) == Get16(p, 3);
    }
  }

  /** Cut anywhere, a record and what follows it is a chain only at a boundary. */
  lemma ChainPrefix(r: seq<byte>, rest: seq<byte>, n: nat)
    requires IsRecord(r) && n <= |r + rest|
    ensures IsChain((r + rest)[..n]) <==> n == 0 || (n >= |r| && IsChain(rest[..n - |r|]))
  {
    var p := (r + rest)[..n];
    if n >= RECORD_HEADER {
      assert p[3] == r[3] && p[4] == r[4];
      ChainStep(p);
      if n >= |r| {
        assert p[|r|..] == rest[..n - |r|];
      }
    }
  }

  /** An observer following lengths ends a cover exactly at a boundary. */
  lemma {:induction false} ChainComplete(p: seq<byte>)
    requires IsChain(p)
    ensures Outstanding(p) == Some(0)
  {
    if p != [] {
      var len := RECORD_HEADER + Get16(p, 3);
      assert p[..len][1] == p[1];
      if len < |p| {
        ChainComplete(p[len..]);
      }
    }
  }

  /** A packet wearing an application-data record is never taken for a decoy, nor a decoy for one. */
  lemma CoverIsNotWrapped(p: seq<byte>)
    ensures IsCover(p) ==> UnwrapRecord(p).None?
  {
  }

  /** `owed_after_opening`. */
  function Owed(p: seq<byte>): Option<nat> {
    if |p| < 44 || p[0] != HANDSHAKE || p[1] != 0x03 || p[2] != 0x01 || p[5] != CLIENT_HELLO || p[9] != 0x03
       || p[10] != 0x03 || p[43] != 32 then None
    else
      var record, handshake := Get16(p, 3), Get24(p, 6);
      if !(HELLO_MIN <= record <= HELLO_MAX) || handshake + 4 != record then None
      else if record + RECORD_HEADER > |p| then Some(record + RECORD_HEADER - |p|)
      else None
  }

  /** Exactly the first part of a client's hello is owed anything, and exactly its missing bytes: the record and
      message types, both versions and the identifier's length where a hello has them, the two lengths in
      agreement, and the record's within what is ever sent. */
  lemma OwedExact(p: seq<byte>, n: nat)
    ensures Owed(p) == Some(n)
            <==> && |p| >= 44 && p[0] == 0x16 && p[1] == 0x03 && p[2] == 0x01 && p[5] == 0x01 && p[9] == 0x03
                 && p[10] == 0x03 && p[43] == 32 && 1024 <= Get16(p, 3) <= 2560 && Get24(p, 6) + 4 == Get16(p, 3)
                 && n > 0 && |p| + n == Get16(p, 3) + 5
  {
    hide Get16, Get24;
  }

  lemma SessionIdExact(p: seq<byte>)
    ensures SessionId(p) == if |p| >= 76 && p[0] == 0x16 && p[5] == 0x01 && p[43] == 32 then Some(p[44..76]) else None
  {
  }

  /** Whatever arrives, no more is ever owed than the rest of the largest hello. */
  lemma OwedBounded(p: seq<byte>)
    ensures Owed(p).Some? ==> 0 < Owed(p).value <= 2560 + 5 - 44 && !IsCover(p)
  {
    if Owed(p).Some? {
      assert !IsChain(p);
    }
  }

  /** `session_id`. */
  function SessionId(p: seq<byte>): Option<seq<byte>> {
    if |p| < 76 || p[0] != HANDSHAKE || p[5] != CLIENT_HELLO || p[43] != 32 then None else Some(p[44..76])
  }
}
