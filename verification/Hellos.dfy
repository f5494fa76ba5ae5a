/** The decoy flights themselves: what `client_hello`, `server_hello` and `client_finished` write, and
    what a reader and the recognisers make of every part of them. */
module Hellos {
  import opened Bytes
  import opened Records
  import opened Recognisers
  import opened Emission
  import opened Decoys

  // ---- The extensions' bodies ----------------------------------------------------------------

  type Name = s: seq<byte> | 1 <= |s| <= MAX_NAME witness [0]

  function SniBody(name: Name): (b: seq<byte>)
    ensures |b| == |name| + 5
  {
    Be16(|name| + 3) + [0] + Be16(|name|) + name
  }

  function GroupsBody(g: u16): (b: seq<byte>)
    ensures |b| == 12
  {
    [0x00, 0x0A] + Be16(g) + Be16(X25519_MLKEM768) + [0x00, 0x1D, 0x00, 0x17, 0x00, 0x18]
  }

  function ShareEntries(s: Secrets): seq<Entry> {
    [Entry(Grease(s.grease), [0]), Entry(X25519_MLKEM768, KeyBytes(s.mlkem) + s.hybridX25519), Entry(0x001D, s.keyShare)]
  }

  function SharesBody(s: Secrets): (b: seq<byte>)
    ensures |b| == 47 + PQ_CLIENT_SHARE
  {
    var es := ShareEntries(s);
    Be16(45 + PQ_CLIENT_SHARE) + (EntryBytes(es[0]) + EntryBytes(es[1]) + EntryBytes(es[2]))
  }

  function VersionsBody(g: u16): (b: seq<byte>)
    ensures |b| == 7
  {
    [6] + Be16(g) + [0x03, 0x04, 0x03, 0x03]
  }

  function Identities(s: Secrets): (b: seq<byte>)
    ensures |b| == TICKET_LEN + 6
  {
    Be16(TICKET_LEN) + s.ticket + s.random[..4]
  }

  function PskBody(s: Secrets): (b: seq<byte>)
    ensures |b| == TICKET_LEN + 43
  {
    Be16(TICKET_LEN + 6) + Identities(s) + Be16(33) + [32] + s.binder
  }

  const ALPN: seq<byte> := [0x00, 0x0C, 0x02, 0x68, 0x32, 0x08, 0x68, 0x74, 0x74, 0x70, 0x2F, 0x31, 0x2E, 0x31]
  const SIGNATURES: seq<byte> :=
    [0x00, 0x10, 0x04, 0x03, 0x08, 0x04, 0x04, 0x01, 0x05, 0x03, 0x08, 0x05, 0x05, 0x01, 0x08, 0x06, 0x06, 0x01]

  /** The extensions between the two GREASE values, before they are shuffled. */
  function Middle(name: Name, s: Secrets): (es: seq<Entry>)
    ensures |es| == 16
  {
    var g := Grease(s.grease);
    [ Entry(0x0000, SniBody(name)), Entry(0x0017, []), Entry(0xFF01, [0]), Entry(0x000A, GroupsBody(g)),
      Entry(0x000B, [0x01, 0x00]), Entry(0x0023, []), Entry(0x0010, ALPN), Entry(0x0005, [0x01, 0x00, 0x00, 0x00, 0x00]),
      Entry(0x000D, SIGNATURES), Entry(0x0012, []), Entry(0x0033, SharesBody(s)), Entry(0x002D, [0x01, 0x01]),
      Entry(0x002B, VersionsBody(g)), Entry(0x001B, [0x02, 0x00, 0x02]),
      Entry(0x4469, [0x00, 0x03, 0x02, 0x68, 0x32]), Entry(0x002A, []) ]
  }

  /** Every extension, in the order written. */
  function AllEntries(name: Name, s: Secrets): (es: seq<Entry>)
    ensures |es| == 19
  {
    [Entry(Grease(s.grease), [])] + Shuffled(Middle(name, s), s.random, 15)
    + [Entry(Grease((s.grease + 1) % 0x100), [0]), Entry(0x0029, PskBody(s))]
  }

  // ---- The flights ---------------------------------------------------------------------------

  const SUITES: seq<u16> := [0x1301, 0x1302, 0x1303, 0xC02B, 0xC02F, 0xC02C, 0xC030, 0xCCA9, 0xCCA8, 0xC013, 0xC014,
                             0x009C, 0x009D, 0x002F, 0x0035]

  function Halfwords(ws: seq<u16>): (b: seq<byte>)
    ensures |b| == 2 * |ws|
  {
    if ws == [] then [] else Halfwords(ws[..|ws| - 1]) + Be16(ws[|ws| - 1])
  }

  /** The version, random and session identifier every hello opens with. */
  function Opening(random: Bytes32, sessionId: Bytes32): (b: seq<byte>)
    ensures |b| == 67
  {
    [0x03, 0x03] + random + [32] + sessionId
  }

  function ClientFront(s: Secrets): (b: seq<byte>)
    ensures |b| == 103
  {
    Opening(s.random, s.sessionId) + Be16(32) + (Be16(Grease(s.grease)) + Halfwords(SUITES)) + [0x01, 0x00]
  }

  function ServerFront(sessionId: Bytes32, s: Secrets): (b: seq<byte>)
    ensures |b| == 70
  {
    Opening(s.random, sessionId) + Be16(0x1301) + [0]
  }

  /** One hello: the record's length around the message's around the extensions'. */
  function Flight(minor: byte, ty: byte, front: seq<byte>, ext: seq<byte>): (b: seq<byte>)
    requires |front| + |ext| + 6 <= 0xFFFF
    ensures |b| == 11 + |front| + |ext|
  {
    [HANDSHAKE, 0x03, minor] + Be16(|front| + |ext| + 6) + [ty] + Be24(|front| + |ext| + 2) + front + Be16(|ext|) + ext
  }

  function Extensions(es: seq<Entry>): seq<byte> {
    Joined(Encoded(es))
  }

  /** The extensions take 1681 bytes and the name's. */
  lemma ClientExtensionsSize(name: Name, s: Secrets)
    ensures |Extensions(AllEntries(name, s))| == 1681 + |name|
  {
    hide Size, Shuffled, EntryBytes, Joined, Grease, SharesBody, PskBody, SniBody, GroupsBody, VersionsBody;
    var m, es := Middle(name, s), AllEntries(name, s);
    JoinedSize(es);
    ShuffledSize(m, s.random, 15);
    MiddleSize(name, s);
    var head, mid := [Entry(Grease(s.grease), [])], Shuffled(m, s.random, 15);
    var tail := [Entry(Grease((s.grease + 1) % 0x100), [0]), Entry(0x0029, PskBody(s))];
    SizeAppend(head + mid, tail);
    SizeAppend(head, mid);
    SizeOfTwo(tail);
    SizeOfOne(head);
  }

  lemma {:induction false} SizeAppend(a: seq<Entry>, b: seq<Entry>)
    ensures Size(a + b) == Size(a) + Size(b)
  {
    if b == [] {
      assert a + b == a;
    } else {
      assert (a + b)[..|a + b| - 1] == a + b[..|b| - 1];
      SizeAppend(a, b[..|b| - 1]);
    }
  }

  lemma SizeOfOne(es: seq<Entry>)
    requires |es| == 1
    ensures Size(es) == 4 + |es[0].body|
  {
    assert es[..0] == [];
  }

  lemma SizeOfTwo(es: seq<Entry>)
    requires |es| == 2
    ensures Size(es) == 8 + |es[0].body| + |es[1].body|
  {
    SizeOfOne(es[..1]);
  }

  lemma SizeOfFour(es: seq<Entry>)
    requires |es| == 4
    ensures Size(es) == 16 + |es[0].body| + |es[1].body| + |es[2].body| + |es[3].body|
  {
    hide Size;
    assert es == es[..2] + es[2..];
    SizeAppend(es[..2], es[2..]);
    SizeOfTwo(es[..2]);
    SizeOfTwo(es[2..]);
  }

  lemma MiddleSize(name: Name, s: Secrets)
    ensures Size(Middle(name, s)) == 1401 + |name|
  {
    hide Size, Grease, SharesBody, SniBody, GroupsBody, VersionsBody;
    var m := Middle(name, s);
    assert m == m[..4] + m[4..8] + m[8..12] + m[12..];
    SizeAppend(m[..4] + m[4..8] + m[8..12], m[12..]);
    SizeAppend(m[..4] + m[4..8], m[8..12]);
    SizeAppend(m[..4], m[4..8]);
    SizeOfFour(m[..4]);
    SizeOfFour(m[4..8]);
    SizeOfFour(m[8..12]);
    SizeOfFour(m[12..]);
  }

  function ClientHello(name: Name, s: Secrets): (b: seq<byte>)
    ensures |b| == 1795 + |name|
  {
    ClientExtensionsSize(name, s);
    Flight(0x01, CLIENT_HELLO, ClientFront(s), Extensions(AllEntries(name, s)))
  }

  const CIPHER_CHANGE: seq<byte> := [CHANGE_CIPHER_SPEC, 0x03, 0x03, 0x00, 0x01, 0x01]

  function ServerEntries(s: Secrets): seq<Entry> {
    [Entry(0x002B, [0x03, 0x04]), Entry(0x0033, EntryBytes(Entry(X25519_MLKEM768, s.serverShare))), Entry(0x0029, [0x00, 0x00])]
  }

  function ServerRecord(sessionId: Bytes32, s: Secrets): (b: seq<byte>)
    ensures |b| == 1221
  {
    ServerExtensionsSize(s);
    Flight(0x03, SERVER_HELLO, ServerFront(sessionId, s), Extensions(ServerEntries(s)))
  }

  function ServerHello(sessionId: Bytes32, s: Secrets): seq<byte> {
    ServerRecord(sessionId, s) + CIPHER_CHANGE
  }

  lemma ServerExtensionsSize(s: Secrets)
    ensures |Extensions(ServerEntries(s))| == 1140
  {
    hide Size, EntryBytes, Joined;
    var es := ServerEntries(s);
    JoinedSize(es);
    assert es == es[..2] + es[2..];
    SizeAppend(es[..2], es[2..]);
    SizeOfTwo(es[..2]);
    SizeOfOne(es[2..]);
  }

  function FinishedRecord(s: Secrets): (b: seq<byte>)
    ensures |b| == 63
  {
    [APPLICATION_DATA, 0x03, 0x03] + Be16(FINISHED_LEN) + s.finished
  }

  function ClientFinished(s: Secrets): seq<byte> {
    CIPHER_CHANGE + FinishedRecord(s)
  }

  // ---- What a flight says of itself ----------------------------------------------------------

  lemma FlightFields(minor: byte, ty: byte, front: seq<byte>, ext: seq<byte>)
    requires |front| + |ext| + 6 <= 0xFFFF
    ensures var b := Flight(minor, ty, front, ext);
            && b[0] == HANDSHAKE && b[1] == 0x03 && b[2] == minor && b[5] == ty
            && Get16(b, 3) == |b| - 5 && Get24(b, 6) == |b| - 9
            && Lies(b, 9, front) && Get16(b, 9 + |front|) == |ext| && b[11 + |front|..] == ext
  {
    hide Be16, Get16;
    var b := Flight(minor, ty, front, ext);
    assert b[3..5] == Be16(|front| + |ext| + 6);
    Halfword(b, 3, |front| + |ext| + 6);
    assert b[6..9] == Be24(|front| + |ext| + 2);
    assert b[7..9] == b[6..9][1..] == Be16((|front| + |ext| + 2) % 0x1_0000);
    Halfword(b, 7, (|front| + |ext| + 2) % 0x1_0000);
    assert b[9..9 + |front|] == front;
    assert b[9 + |front|..11 + |front|] == Be16(|ext|);
    Halfword(b, 9 + |front|, |ext|);
  }

  lemma OpeningFields(b: seq<byte>, random: Bytes32, sessionId: Bytes32)
    requires Lies(b, 9, Opening(random, sessionId))
    ensures b[9] == 0x03 && b[10] == 0x03 && b[43] == 32 && b[44..76] == sessionId
  {
    var o := Opening(random, sessionId);
    assert b[9..76] == o;
    assert b[44..76] == b[9..76][35..] == o[35..] == sessionId;
    LiesAt(b, 9, o, 0);
    LiesAt(b, 9, o, 1);
    LiesAt(b, 9, o, 34);
  }

  lemma ClientFields(name: Name, s: Secrets)
    ensures var b := ClientHello(name, s);
            && b[0] == HANDSHAKE && b[1] == 0x03 && b[2] == 0x01 && b[5] == CLIENT_HELLO
            && Get16(b, 3) == |b| - 5 && Get24(b, 6) == |b| - 9
            && b[9] == 0x03 && b[10] == 0x03 && b[43] == 32 && b[44..76] == s.sessionId
            && Lies(b, 9, ClientFront(s))
            && Get16(b, 112) == |b| - 114 && b[114..] == Extensions(AllEntries(name, s))
  {
    hide Flight, Extensions, AllEntries, Get16, Get24, Opening, Halfwords, Grease;
    ClientExtensionsSize(name, s);
    var front := ClientFront(s);
    FlightFields(0x01, CLIENT_HELLO, front, Extensions(AllEntries(name, s)));
    var b, o := ClientHello(name, s), Opening(s.random, s.sessionId);
    assert front == o + (Be16(32) + (Be16(Grease(s.grease)) + Halfwords(SUITES)) + [0x01, 0x00]);
    LiesSplit(b, 9, o, Be16(32) + (Be16(Grease(s.grease)) + Halfwords(SUITES)) + [0x01, 0x00]);
    OpeningFields(b, s.random, s.sessionId);
  }

  // ---- Recognising every prefix --------------------------------------------------------------

  lemma FlightIsRecord(b: seq<byte>)
    requires |b| >= 5 && CoverKind(b[0]) && b[1] == 0x03 && Get16(b, 3) == |b| - 5
    ensures IsRecord(b)
  {
  }

  /** However a client's hello is cut: only the whole is cover, and from its forty-fourth byte on a part
      says exactly how much is to come; the identifier is there once it has all arrived. */
  lemma ClientHelloPrefixes(name: Name, s: Secrets, n: nat)
    requires n <= 1795 + |name|
    ensures var h := ClientHello(name, s);
            var part := h[..n];
            && (IsCover(part) <==> n == |h|)
            && Owed(part) == (if 44 <= n < |h| then Some(|h| - n) else None)
            && SessionId(part) == (if n >= 76 then Some(s.sessionId) else None)
  {
    hide ClientHello, IsCover, Owed, SessionId, Get16, Get24, Lies, ClientFront, Extensions, AllEntries;
    ClientFields(name, s);
    CoverOnlyWhole(ClientHello(name, s), n);
    OwedByPart(ClientHello(name, s), n);
    IdentifierInPart(ClientHello(name, s), n);
  }

  lemma CoverOnlyWhole(h: seq<byte>, n: nat)
    requires |h| >= 5 && LeadingKind(h[0]) && h[1] == 0x03 && Get16(h, 3) == |h| - 5 && n <= |h|
    ensures IsCover(h[..n]) <==> n == |h|
  {
    hide IsChain, Get16;
    FlightIsRecord(h);
    ChainPrefix(h, [], n);
    assert h + [] == h;
    EmptyIsChain();
  }

  lemma OwedByPart(h: seq<byte>, n: nat)
    requires n <= |h| && HELLO_MIN + 5 <= |h| <= HELLO_MAX + 5 && Get16(h, 3) == |h| - 5 && Get24(h, 6) == |h| - 9
    requires h[0] == HANDSHAKE && h[1] == 0x03 && h[2] == 0x01 && h[5] == CLIENT_HELLO
    requires h[9] == 0x03 && h[10] == 0x03 && h[43] == 32
    ensures Owed(h[..n]) == if 44 <= n < |h| then Some(|h| - n) else None
  {
    hide Get16, Get24;
    if n >= 44 {
      SameNumbers(h, n);
    }
  }

  lemma IdentifierInPart(h: seq<byte>, n: nat)
    requires n <= |h| && |h| >= 76 && h[0] == HANDSHAKE && h[5] == CLIENT_HELLO && h[43] == 32
    ensures SessionId(h[..n]) == if n >= 76 then Some(h[44..76]) else None
  {
    if n >= 76 {
      assert h[..n][44..76] == h[44..76];
    }
  }

  lemma SameNumbers(h: seq<byte>, n: nat)
    requires 44 <= n <= |h|
    ensures Get16(h[..n], 3) == Get16(h, 3) && Get24(h[..n], 6) == Get24(h, 6)
  {
  }

  /** The two parts a hello goes out in leave an observer exactly where the count says. */
  lemma ClientHelloOutstanding(name: Name, s: Secrets, n: nat)
    requires RECORD_HEADER <= n <= 1795 + |name|
    ensures Outstanding(ClientHello(name, s)[..n]) == Some(|ClientHello(name, s)| - n)
  {
    hide ClientHello;
    ClientFields(name, s);
    var h := ClientHello(name, s);
    assert h[..n][3] == h[3] && h[..n][4] == h[4];
  }

  lemma CipherChangeIsRecord()
    ensures IsRecord(CIPHER_CHANGE)
  {
  }

  /** A two-record flight is cover at its two boundaries and nowhere else. */
  lemma TwoRecordPrefixes(a: seq<byte>, b: seq<byte>, n: nat)
    requires IsRecord(a) && IsRecord(b) && LeadingKind(a[0]) && n <= |a + b|
    ensures IsCover((a + b)[..n]) <==> n == |a| || n == |a + b|
  {
    hide IsChain;
    ChainPrefix(a, b, n);
    EmptyIsChain();
    if n >= |a| {
      ChainPrefix(b, [], n - |a|);
      assert b + [] == b;
    }
  }

  lemma ServerHelloPrefixes(sessionId: Bytes32, s: Secrets, n: nat)
    requires n <= 1227
    ensures IsCover(ServerHello(sessionId, s)[..n]) <==> n == 1221 || n == 1227
  {
    hide Flight, Extensions, ServerFront, IsRecord, IsCover, Get16;
    ServerExtensionsSize(s);
    FlightFields(0x03, SERVER_HELLO, ServerFront(sessionId, s), Extensions(ServerEntries(s)));
    FlightIsRecord(ServerRecord(sessionId, s));
    CipherChangeIsRecord();
    TwoRecordPrefixes(ServerRecord(sessionId, s), CIPHER_CHANGE, n);
  }

  lemma ClientFinishedPrefixes(s: Secrets, n: nat)
    requires n <= 69
    ensures IsCover(ClientFinished(s)[..n]) <==> n == 6 || n == 69
  {
    hide IsCover;
    var f := FinishedRecord(s);
    assert f[3..5] == Be16(FINISHED_LEN);
    Halfword(f, 3, FINISHED_LEN);
    CipherChangeIsRecord();
    TwoRecordPrefixes(CIPHER_CHANGE, f, n);
  }

  // ---- Reading a hello -----------------------------------------------------------------------

  /** The extensions an observer finds, if every length it meets on the way is exact. */
  function ReadClientHello(p: seq<byte>): Option<seq<Entry>> {
    if |p| < 78 || p[0] != HANDSHAKE || p[1] != 0x03 || Get16(p, 3) + 5 != |p| || p[5] != CLIENT_HELLO
       || Get24(p, 6) + 9 != |p| || p[43] != 32 then None
    else
      var methods := 78 + Get16(p, 76);
      if methods >= |p| then None
      else
        var at := methods + 1 + p[methods];
        if at + 2 > |p| || at + 2 + Get16(p, at) != |p| then None else Walk(p[at + 2..])
  }

  /** A hello reads back to its extensions, GREASE first, the shuffled ones, GREASE and the ticket last. */
  lemma ClientHelloReads(name: Name, s: Secrets)
    ensures ReadClientHello(ClientHello(name, s)) == Some(AllEntries(name, s))
  {
    hide ClientHello, AllEntries, Walk, ClientFront, Get16, Get24;
    ClientFields(name, s);
    var b := ClientHello(name, s);
    SuitesFields(b, s);
    WalkAll(AllEntries(name, s));
  }

  lemma SuitesFields(b: seq<byte>, s: Secrets)
    requires Lies(b, 9, ClientFront(s))
    ensures Get16(b, 76) == 32 && b[110] == 1
  {
    hide Get16, Be16, Opening, Grease, Halfwords;
    var o, suites := Opening(s.random, s.sessionId), Be16(Grease(s.grease)) + Halfwords(SUITES);
    LiesSplit(b, 9, o + Be16(32) + suites, [0x01, 0x00]);
    LiesSplit(b, 9, o + Be16(32), suites);
    LiesSplit(b, 9, o, Be16(32));
    Halfword(b, 76, 32);
    LiesAt(b, 110, [0x01, 0x00], 0);
  }

  /** The lengths inside an extension's body, for the types that nest any. */
  predicate SoundBody(e: Entry) {
    var b := e.body;
    match e.ty
    case 0x0000 => |b| >= 5 && Get16(b, 0) + 2 == |b| && Get16(b, 3) + 5 == |b|
    case 0x000A => |b| >= 2 && Get16(b, 0) + 2 == |b|
    case 0x000D => |b| >= 2 && Get16(b, 0) + 2 == |b|
    case 0x0010 => |b| >= 2 && Get16(b, 0) + 2 == |b|
    case 0x4469 => |b| >= 2 && Get16(b, 0) + 2 == |b|
    case 0x000B => |b| >= 1 && |b| - 1 == b[0]
    case 0x001B => |b| >= 1 && |b| - 1 == b[0]
    case 0x002B => |b| >= 1 && |b| - 1 == b[0]
    case 0x002D => |b| >= 1 && |b| - 1 == b[0]
    case 0x0033 => |b| >= 2 && Get16(b, 0) + 2 == |b| && Walk(b[2..]).Some?
    case 0x0029 =>
      |b| >= 4 && var ids := Get16(b, 0);
                  && ids + 5 <= |b| && Get16(b, 2) + 6 == ids && Get16(b, ids + 2) + ids + 4 == |b|
                  && |b| - ids - 5 == b[ids + 4]
    case _ => true
  }

  /** The name a `server_name` body gives. */
  function ServerName(b: seq<byte>): Option<seq<byte>> {
    if |b| < 5 || Get16(b, 0) + 2 != |b| || b[2] != 0 || Get16(b, 3) + 5 != |b| then None else Some(b[5..])
  }

  lemma SniReads(name: Name)
    ensures ServerName(SniBody(name)) == Some(name) && SoundBody(Entry(0x0000, SniBody(name)))
  {
    hide Get16, Be16;
    var b := SniBody(name);
    assert b[0..2] == Be16(|name| + 3) && b[3..5] == Be16(|name|) && b[5..] == name;
    Halfword(b, 0, |name| + 3);
    Halfword(b, 3, |name|);
  }

  /** The key shares are a list of entries like the extensions, and reads back as one. */
  lemma SharesRead(s: Secrets)
    ensures SoundBody(Entry(0x0033, SharesBody(s))) && Walk(SharesBody(s)[2..]) == Some(ShareEntries(s))
  {
    hide Get16, Be16, EntryBytes, Walk, Grease, KeyBytes;
    var b, es := SharesBody(s), ShareEntries(s);
    assert b[0..2] == Be16(45 + PQ_CLIENT_SHARE);
    Halfword(b, 0, 45 + PQ_CLIENT_SHARE);
    JoinedOfThree(es);
    WalkAll(es);
    assert b[2..] == Joined(Encoded(es));
  }

  lemma JoinedOfThree(es: seq<Entry>)
    requires |es| == 3
    ensures Joined(Encoded(es)) == EntryBytes(es[0]) + EntryBytes(es[1]) + EntryBytes(es[2])
  {
    hide EntryBytes;
    var parts := Encoded(es);
    assert parts[..2][..1] == parts[..1];
    assert Joined(parts[..1]) == parts[0];
    assert Joined(parts[..2]) == parts[0] + parts[1];
  }

  lemma PskReads(s: Secrets)
    ensures SoundBody(Entry(0x0029, PskBody(s)))
  {
    hide Get16, Be16;
    var b := PskBody(s);
    assert b[0..2] == Be16(TICKET_LEN + 6);
    assert b[2..4] == Be16(TICKET_LEN);
    assert b[232..234] == Be16(33);
    assert b[234] == 32;
    Halfword(b, 0, TICKET_LEN + 6);
    Halfword(b, 2, TICKET_LEN);
    Halfword(b, 232, 33);
  }

  lemma MiddleSound(name: Name, s: Secrets, i: nat)
    requires i < 16
    ensures SoundBody(Middle(name, s)[i])
    ensures Middle(name, s)[i].ty == 0 ==> ServerName(Middle(name, s)[i].body) == Some(name)
  {
    hide Walk, SniBody, SharesBody, Grease, ServerName;
    SniReads(name);
    SharesRead(s);
  }

  /** Every length inside every extension is exact, and the one `server_name` among them names the name. */
  lemma ClientHelloSound(name: Name, s: Secrets)
    ensures var es := AllEntries(name, s);
            && multiset(es[1..17]) == multiset(Middle(name, s))
            && (forall e :: e in es ==> SoundBody(e) && (e.ty == 0 ==> ServerName(e.body) == Some(name)))
            && exists e :: e in es && e.ty == 0
  {
    hide Shuffled, SoundBody, ServerName, Middle, PskBody, Grease;
    var m, es := Middle(name, s), AllEntries(name, s);
    var mid := Shuffled(m, s.random, 15);
    assert es[1..17] == mid;
    ShuffledPermutes(m, s.random, 15);
    PskReads(s);
    GreaseSound(s.grease, []);
    GreaseSound((s.grease + 1) % 0x100, [0]);
    forall e | e in es ensures SoundBody(e) && (e.ty == 0 ==> ServerName(e.body) == Some(name)) {
      if e in mid {
        assert e in multiset(mid);
        assert e in m;
        var i :| 0 <= i < |m| && m[i] == e;
        MiddleSound(name, s, i);
      }
    }
    FirstIsSni(name, s);
    assert m[0] in multiset(m);
    assert m[0] in mid;
  }

  lemma FirstIsSni(name: Name, s: Secrets)
    ensures Middle(name, s)[0].ty == 0
  {
  }

  lemma GreaseSound(seed: byte, body: seq<byte>)
    requires |body| <= 1
    ensures Grease(seed) != 0 && SoundBody(Entry(Grease(seed), body))
  {
    var b := seed % 0x10 * 0x10 + 0x0A;
    WordIs(b, b);
    assert Grease(seed) == 0x101 * b;
  }

  // ---- What else a flight shows --------------------------------------------------------------

  /** A client's hello shows its random numbers and its identifier where a reader looks, and offers the ticket
      and the binder it was given. */
  lemma ClientHelloShows(name: Name, s: Secrets)
    ensures var h, psk := ClientHello(name, s), PskBody(s);
            && h[11..43] == s.random && h[44..76] == s.sessionId
            && AllEntries(name, s)[18] == Entry(0x0029, psk) && psk[4..228] == s.ticket && psk[235..] == s.binder
  {
    hide ClientHello, AllEntries, Get16, Get24, Extensions, Grease, Halfwords;
    ClientFields(name, s);
    var h, o := ClientHello(name, s), Opening(s.random, s.sessionId);
    var rest := Be16(32) + (Be16(Grease(s.grease)) + Halfwords(SUITES)) + [0x01, 0x00];
    assert ClientFront(s) == o + rest;
    LiesSplit(h, 9, o, rest);
    RandomIn(h, s.random, s.sessionId);
    TicketLast(name, s);
  }

  lemma RandomIn(b: seq<byte>, random: Bytes32, sessionId: Bytes32)
    requires Lies(b, 9, Opening(random, sessionId))
    ensures b[11..43] == random
  {
    var o := Opening(random, sessionId);
    assert b[9..76] == o;
    assert b[11..43] == b[9..76][2..34] == o[2..34] == random;
  }

  lemma TicketLast(name: Name, s: Secrets)
    ensures AllEntries(name, s)[18] == Entry(0x0029, PskBody(s))
    ensures PskBody(s)[4..228] == s.ticket && PskBody(s)[235..] == s.binder
  {
    hide Shuffled, Middle, Grease, Be16;
  }

  /** The answer: the client's identifier echoed, the server's own random numbers, and exactly three extensions:
      the version, the one share, under its group and length, and the ticket accepted. */
  lemma ServerHelloReads(sessionId: Bytes32, s: Secrets)
    ensures var h := ServerHello(sessionId, s);
            && |h| == 1227 && h[0] == 0x16 && h[5] == 0x02 && Get16(h, 3) == 1216 && Get24(h, 6) == 1212
            && h[11..43] == s.random && h[43] == 32 && h[44..76] == sessionId
            && Get16(h, 79) == 1140 && Walk(h[81..1221]) == Some(ServerEntries(s))
            && h[1221..] == [0x14, 0x03, 0x03, 0x00, 0x01, 0x01]
  {
    hide Flight, Extensions, Get16, Get24, ServerEntries, Walk, Opening;
    ServerExtensionsSize(s);
    var h, b, front := ServerHello(sessionId, s), ServerRecord(sessionId, s), ServerFront(sessionId, s);
    var o := Opening(s.random, sessionId);
    FlightFields(0x03, SERVER_HELLO, front, Extensions(ServerEntries(s)));
    assert front == o + (Be16(0x1301) + [0]);
    LiesSplit(b, 9, o, Be16(0x1301) + [0]);
    OpeningFields(b, s.random, sessionId);
    RandomIn(b, s.random, sessionId);
    assert h[..1221] == b && h[81..1221] == b[81..];
    assert h[11..43] == b[11..43] && h[44..76] == b[44..76];
    FrontWords(b, h);
    ServerWalk(s);
  }

  lemma FrontWords(b: seq<byte>, h: seq<byte>)
    requires |b| >= 81 && |h| >= |b| && h[..|b|] == b
    ensures Get16(h, 3) == Get16(b, 3) && Get16(h, 79) == Get16(b, 79) && Get24(h, 6) == Get24(b, 6)
  {
    assert forall i :: 0 <= i < |b| ==> h[i] == h[..|b|][i];
  }

  lemma ServerWalk(s: Secrets)
    ensures Walk(Extensions(ServerEntries(s))) == Some(ServerEntries(s))
  {
    WalkAll(ServerEntries(s));
  }

  /** The types a hello offers between its GREASE values, whatever their order: early data among them, which a
      client that sends before it is answered has to offer, as it has to offer the ticket that comes last. */
  lemma ClientHelloOffers(name: Name, s: Secrets, ty: u16)
    ensures Offers(AllEntries(name, s)[1..17], ty)
            <==> ty in [0x0000, 0x0017, 0xFF01, 0x000A, 0x000B, 0x0023, 0x0010, 0x0005, 0x000D, 0x0012, 0x0033, 0x002D,
                        0x002B, 0x001B, 0x4469, 0x002A]
  {
    hide Shuffled, AllEntries, Middle;
    ClientHelloSound(name, s);
    var m, mid := Middle(name, s), AllEntries(name, s)[1..17];
    forall e: Entry ensures e in mid <==> e in m {
      assert e in multiset(mid) <==> e in multiset(m);
    }
    MiddleTypes(name, s);
    var types: seq<u16> := [0x0000, 0x0017, 0xFF01, 0x000A, 0x000B, 0x0023, 0x0010, 0x0005, 0x000D, 0x0012, 0x0033,
                            0x002D, 0x002B, 0x001B, 0x4469, 0x002A];
    if i :| 0 <= i < 16 && types[i] == ty {
      assert m[i] in mid && m[i].ty == ty;
    }
    if Offers(mid, ty) {
      var e :| e in mid && e.ty == ty;
      var i :| 0 <= i < 16 && m[i] == e;
      assert types[i] == ty;
    }
  }

  ghost predicate Offers(es: seq<Entry>, ty: u16) {
    exists e :: e in es && e.ty == ty
  }

  lemma MiddleTypes(name: Name, s: Secrets)
    ensures var types: seq<u16> := [0x0000, 0x0017, 0xFF01, 0x000A, 0x000B, 0x0023, 0x0010, 0x0005, 0x000D, 0x0012,
                                    0x0033, 0x002D, 0x002B, 0x001B, 0x4469, 0x002A];
            forall i :: 0 <= i < 16 ==> Middle(name, s)[i].ty == types[i]
  {
    hide SniBody, SharesBody, GroupsBody, VersionsBody, Grease;
  }

  /** The closing flight: a change of cipher, and then one record of exactly what it was given. */
  lemma ClientFinishedReads(s: Secrets)
    ensures var f := ClientFinished(s);
            f[..6] == [0x14, 0x03, 0x03, 0x00, 0x01, 0x01] && UnwrapRecord(f[6..]) == Some(s.finished)
  {
    hide Be16, UnwrapRecord;
    var f := ClientFinished(s);
    assert f[6..] == FinishedRecord(s);
    assert RecordHeader(FINISHED_LEN).value + s.finished == FinishedRecord(s);
    UnwrapOpened(FINISHED_LEN, s.finished);
  }
}
