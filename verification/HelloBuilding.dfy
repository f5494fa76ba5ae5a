/** The builders of `cover.rs`, pushing bytes and then filling in lengths, held to the flights they
    are to write. */
module HelloBuilding {
  import opened Bytes
  import opened Records
  import opened Recognisers
  import opened Emission
  import opened Decoys
  import opened Hellos

  /** `fill_len`: the bytes from `after` on, counted at `at`. */
  function FillLen(out: seq<byte>, at: nat, after: nat): (b: seq<byte>)
    ensures |b| == |out|
  {
    var len := Max(|out| - after, 0);
    if at + 2 <= |out| then Patch(out, at, Be16(if len <= 0xFFFF then len else 0)) else out
  }

  /** `fill_handshake_len`. */
  function FillHandshakeLen(out: seq<byte>): (b: seq<byte>)
    ensures |b| == |out|
  {
    var filled := FillLen(out, 3, 5);
    var len := Max(|out| - 9, 0);
    if 9 <= |out| then Patch(filled, 6, Be24((if len < 0x1_0000_0000 then len else 0) % 0x100_0000)) else filled
  }

  lemma ExtensionIsEntry(e: Entry)
    ensures Extension(e.ty, e.body) == EntryBytes(e)
  {
  }

  /** A flight with its three lengths still zero. */
  function Unfilled(minor: byte, ty: byte, front: seq<byte>, ext: seq<byte>): seq<byte> {
    [HANDSHAKE, 0x03, minor] + [0, 0] + [ty] + [0, 0, 0] + front + [0, 0] + ext
  }

  lemma PatchPiece(a: seq<byte>, b: seq<byte>, c: seq<byte>, b': seq<byte>)
    requires |b'| == |b|
    ensures Patch(a + b + c, |a|, b') == a + b' + c
  {
  }

  /** A flight's pieces around its three length fields. */
  function Laid(minor: byte, record: seq<byte>, ty: byte, message: seq<byte>, front: seq<byte>, exts: seq<byte>, ext: seq<byte>):
    seq<byte>
  {
    [HANDSHAKE, 0x03, minor] + record + [ty] + message + front + exts + ext
  }

  lemma PatchExtensions(minor: byte, ty: byte, front: seq<byte>, exts: seq<byte>, ext: seq<byte>)
    requires |exts| == 2
    ensures var blank := Laid(minor, [0, 0], ty, [0, 0, 0], front, [0, 0], ext);
            |blank| == 11 + |front| + |ext| && Patch(blank, 9 + |front|, exts) == Laid(minor, [0, 0], ty, [0, 0, 0], front, exts, ext)
  {
    PatchPiece([HANDSHAKE, 0x03, minor] + [0, 0] + [ty] + [0, 0, 0] + front, [0, 0], ext, exts);
  }

  lemma PatchRecord(minor: byte, record: seq<byte>, ty: byte, front: seq<byte>, exts: seq<byte>, ext: seq<byte>)
    requires |record| == 2 && |exts| == 2
    ensures var blank := Laid(minor, [0, 0], ty, [0, 0, 0], front, exts, ext);
            |blank| == 11 + |front| + |ext| && Patch(blank, 3, record) == Laid(minor, record, ty, [0, 0, 0], front, exts, ext)
  {
    hide Patch;
    var head, rest := [HANDSHAKE, 0x03, minor], [ty] + [0, 0, 0] + front + exts + ext;
    PatchPiece(head, [0, 0], rest, record);
    assert Laid(minor, [0, 0], ty, [0, 0, 0], front, exts, ext) == head + [0, 0] + rest;
    assert Laid(minor, record, ty, [0, 0, 0], front, exts, ext) == head + record + rest;
  }

  lemma PatchMessage(minor: byte, record: seq<byte>, ty: byte, message: seq<byte>, front: seq<byte>, exts: seq<byte>, ext: seq<byte>)
    requires |record| == 2 && |message| == 3 && |exts| == 2
    ensures var blank := Laid(minor, record, ty, [0, 0, 0], front, exts, ext);
            |blank| == 11 + |front| + |ext| && Patch(blank, 6, message) == Laid(minor, record, ty, message, front, exts, ext)
  {
    hide Patch;
    var head, rest := [HANDSHAKE, 0x03, minor] + record + [ty], front + exts + ext;
    PatchPiece(head, [0, 0, 0], rest, message);
    assert Laid(minor, record, ty, [0, 0, 0], front, exts, ext) == head + [0, 0, 0] + rest;
    assert Laid(minor, record, ty, message, front, exts, ext) == head + message + rest;
  }

  /** Filling the lengths in afterwards gives the flight that had them all along. */
  lemma FlightFilled(minor: byte, ty: byte, front: seq<byte>, ext: seq<byte>)
    requires |front| + |ext| + 6 <= 0xFFFF
    ensures FillHandshakeLen(FillLen(Unfilled(minor, ty, front, ext), 9 + |front|, 11 + |front|))
            == Flight(minor, ty, front, ext)
  {
    hide Patch, Be16, Be24, Laid;
    var record, message, exts := Be16(|front| + |ext| + 6), Be24(|front| + |ext| + 2), Be16(|ext|);
    PatchExtensions(minor, ty, front, exts, ext);
    PatchRecord(minor, record, ty, front, exts, ext);
    PatchMessage(minor, record, ty, message, front, exts, ext);
    LaidIsFlight(minor, ty, front, ext);
  }

  lemma LaidIsFlight(minor: byte, ty: byte, front: seq<byte>, ext: seq<byte>)
    requires |front| + |ext| + 6 <= 0xFFFF
    ensures Laid(minor, [0, 0], ty, [0, 0, 0], front, [0, 0], ext) == Unfilled(minor, ty, front, ext)
    ensures Laid(minor, Be16(|front| + |ext| + 6), ty, Be24(|front| + |ext| + 2), front, Be16(|ext|), ext)
            == Flight(minor, ty, front, ext)
  {
  }

  /** `offered_psk`. */
  method OfferedPsk(s: Secrets) returns (body: seq<byte>)
    ensures body == PskBody(s)
  {
    hide Be16;
    var identities := Be16(TICKET_LEN);
    identities := identities + s.ticket;
    identities := identities + s.random[..4];
    body := Be16(|identities|);
    body := body + identities;
    body := body + Be16(33);
    body := body + [32];
    body := body + s.binder;
  }

  /** The key share body, piece by piece. */
  method OfferedShares(s: Secrets) returns (shares: seq<byte>)
    ensures shares == SharesBody(s)
  {
    hide Be16, KeyBytes, Grease, Draw, Coefficient;
    var g := Grease(s.grease);
    var ek := EncapsulationKey(s.mlkem);
    shares := Be16(5 + 4 + PQ_CLIENT_SHARE + 4 + 32);
    shares := shares + Be16(g);
    shares := shares + [0x00, 0x01, 0x00];
    shares := shares + Be16(X25519_MLKEM768);
    shares := shares + Be16(PQ_CLIENT_SHARE);
    shares := shares + ek;
    shares := shares + s.hybridX25519;
    shares := shares + [0x00, 0x1D, 0x00, 0x20];
    shares := shares + s.keyShare;
    SharePieces(s, shares);
  }

  lemma SharePieces(s: Secrets, shares: seq<byte>)
    requires var g := Grease(s.grease);
             shares == Be16(45 + PQ_CLIENT_SHARE) + Be16(g) + [0x00, 0x01, 0x00] + Be16(X25519_MLKEM768)
                       + Be16(PQ_CLIENT_SHARE) + KeyBytes(s.mlkem) + s.hybridX25519 + [0x00, 0x1D, 0x00, 0x20] + s.keyShare
    ensures shares == SharesBody(s)
  {
    hide KeyBytes, Grease, Be16, EntryBytes;
    var g, list, key := Grease(s.grease), Be16(45 + PQ_CLIENT_SHARE), KeyBytes(s.mlkem);
    var a, b, c := Be16(g) + [0x00, 0x01, 0x00], Be16(X25519_MLKEM768) + Be16(PQ_CLIENT_SHARE), [0x00, 0x1D, 0x00, 0x20] + s.keyShare;
    ShareBytes(s);
    SharesAssociate(list, a, b, key, s.hybridX25519, c);
    FlatShares(list, Be16(g), Be16(X25519_MLKEM768), Be16(PQ_CLIENT_SHARE), key, s.hybridX25519, s.keyShare);
  }

  lemma FlatShares(l: seq<byte>, g: seq<byte>, group: seq<byte>, len: seq<byte>, k: seq<byte>, x: seq<byte>, share: seq<byte>)
    ensures l + g + [0x00, 0x01, 0x00] + group + len + k + x + [0x00, 0x1D, 0x00, 0x20] + share
            == l + (g + [0x00, 0x01, 0x00]) + (group + len) + k + x + ([0x00, 0x1D, 0x00, 0x20] + share)
  {
    assert l + g + [0x00, 0x01, 0x00] == l + (g + [0x00, 0x01, 0x00]);
    var front := l + (g + [0x00, 0x01, 0x00]);
    assert front + group + len == front + (group + len);
  }

  /** The three shares, as their bytes are written out. */
  lemma ShareBytes(s: Secrets)
    ensures var es := ShareEntries(s);
            && EntryBytes(es[0]) == Be16(Grease(s.grease)) + [0x00, 0x01, 0x00]
            && EntryBytes(es[1]) == Be16(X25519_MLKEM768) + Be16(PQ_CLIENT_SHARE) + (KeyBytes(s.mlkem) + s.hybridX25519)
            && EntryBytes(es[2]) == [0x00, 0x1D, 0x00, 0x20] + s.keyShare
  {
    hide KeyBytes, Grease, Be16;
    Be16Is(1);
    Be16Is(0x001D);
    Be16Is(32);
    assert Be16(Grease(s.grease)) + [0x00, 0x01] + [0x00] == Be16(Grease(s.grease)) + [0x00, 0x01, 0x00];
    assert [0x00 as byte, 0x1D] + [0x00, 0x20] == [0x00, 0x1D, 0x00, 0x20];
  }

  lemma SharesAssociate(l: seq<byte>, a: seq<byte>, b: seq<byte>, k: seq<byte>, x: seq<byte>, c: seq<byte>)
    ensures l + a + b + k + x + c == l + (a + (b + (k + x)) + c)
  {
  }

  method ServerNameBody(name: Name) returns (sni: seq<byte>)
    ensures sni == SniBody(name)
  {
    sni := Be16(|name| + 3);
    sni := sni + [0];
    sni := sni + Be16(|name|);
    sni := sni + name;
  }

  /** The groups and the versions a client supports. */
  method SupportedBodies(g: u16) returns (groups: seq<byte>, versions: seq<byte>)
    ensures groups == GroupsBody(g) && versions == VersionsBody(g)
  {
    groups := [0x00, 0x0A];
    groups := groups + Be16(g);
    groups := groups + Be16(X25519_MLKEM768);
    groups := groups + [0x00, 0x1D, 0x00, 0x17, 0x00, 0x18];
    versions := [6];
    versions := versions + Be16(g);
    versions := versions + [0x03, 0x04, 0x03, 0x03];
  }

  /** The extensions between the GREASE values, each as its bytes. */
  method MiddleExtensions(name: Name, s: Secrets) returns (middle: seq<seq<byte>>)
    ensures middle == Encoded(Middle(name, s))
  {
    hide Extension, Encoded, Grease, SharesBody, SniBody, GroupsBody, VersionsBody;
    var g := Grease(s.grease);
    var sni := ServerNameBody(name);
    var groups, versions := SupportedBodies(g);
    var shares := OfferedShares(s);
    middle := [Extension(0x0000, sni)];
    middle := middle + [Extension(0x0017, [])];
    middle := middle + [Extension(0xFF01, [0])];
    middle := middle + [Extension(0x000A, groups)];
    middle := middle + [Extension(0x000B, [0x01, 0x00])];
    middle := middle + [Extension(0x0023, [])];
    middle := middle + [Extension(0x0010, ALPN)];
    middle := middle + [Extension(0x0005, [0x01, 0x00, 0x00, 0x00, 0x00])];
    middle := middle + [Extension(0x000D, SIGNATURES)];
    middle := middle + [Extension(0x0012, [])];
    middle := middle + [Extension(0x0033, shares)];
    middle := middle + [Extension(0x002D, [0x01, 0x01])];
    middle := middle + [Extension(0x002B, versions)];
    middle := middle + [Extension(0x001B, [0x02, 0x00, 0x02])];
    middle := middle + [Extension(0x4469, [0x00, 0x03, 0x02, 0x68, 0x32])];
    middle := middle + [Extension(0x002A, [])];
    MiddleIsExtensions(name, s);
    assert middle == AsExtensions(Middle(name, s));
  }

  function AsExtensions(es: seq<Entry>): (parts: seq<seq<byte>>)
    ensures |parts| == |es|
  {
    seq(|es|, i requires 0 <= i < |es| => Extension(es[i].ty, es[i].body))
  }

  lemma MiddleIsExtensions(name: Name, s: Secrets)
    ensures AsExtensions(Middle(name, s)) == Encoded(Middle(name, s))
  {
    hide Middle, Extension, EntryBytes;
    var es := Middle(name, s);
    forall i | 0 <= i < 16 ensures AsExtensions(es)[i] == Encoded(es)[i] {
      ExtensionIsEntry(es[i]);
    }
  }

  /** The extension block: the shuffled middle between its fixed neighbours. */
  method ExtensionBlock(name: Name, s: Secrets) returns (ext: seq<byte>)
    ensures ext == Extensions(AllEntries(name, s))
  {
    hide Joined, Shuffled, Grease, Middle, PskBody, Extension, EntryBytes;
    var middle := MiddleExtensions(name, s);
    var items := new seq<byte>[16](i requires 0 <= i < 16 => middle[i]);
    assert items[..] == middle;
    Shuffle(items, s.random);
    ShuffledEncodes(Middle(name, s), s.random, 15);
    var psk := OfferedPsk(s);
    var first := Extension(Grease(s.grease), []);
    var last := [Extension(Grease((s.grease + 1) % 0x100), [0]), Extension(0x0029, psk)];
    ext := Append([], [first]);
    ext := Append(ext, items[..]);
    ext := Append(ext, last);
    Surrounded(name, s, first, items[..], last);
    JoinedAppend([first], items[..]);
    JoinedAppend([first] + items[..], last);
    assert [] + Joined([first]) == Joined([first]);
  }

  lemma Surrounded(name: Name, s: Secrets, first: seq<byte>, mid: seq<seq<byte>>, last: seq<seq<byte>>)
    requires first == Extension(Grease(s.grease), [])
    requires mid == Encoded(Shuffled(Middle(name, s), s.random, 15))
    requires last == [Extension(Grease((s.grease + 1) % 0x100), [0]), Extension(0x0029, PskBody(s))]
    ensures [first] + mid + last == Encoded(AllEntries(name, s))
  {
    hide Shuffled, Grease, Middle, PskBody, Extension, EntryBytes;
    ExtensionIsEntry(Entry(Grease(s.grease), []));
    ExtensionIsEntry(Entry(Grease((s.grease + 1) % 0x100), [0]));
    ExtensionIsEntry(Entry(0x0029, PskBody(s)));
  }

  method Append(out: seq<byte>, parts: seq<seq<byte>>) returns (r: seq<byte>)
    ensures r == out + Joined(parts)
  {
    r := out;
    for i := 0 to |parts|
      invariant r == out + Joined(parts[..i])
    {
      assert parts[..i + 1][..i] == parts[..i];
      r := r + parts[i];
    }
    assert parts[..|parts|] == parts;
  }

  lemma {:induction false} JoinedAppend(a: seq<seq<byte>>, b: seq<seq<byte>>)
    ensures Joined(a + b) == Joined(a) + Joined(b)
  {
    if b == [] {
      assert a + b == a;
    } else {
      var n := |b| - 1;
      assert (a + b)[..|a| + n] == a + b[..n];
      JoinedAppend(a, b[..n]);
    }
  }

  /** `client_hello`: a hello for every name that is neither empty nor too long. */
  method BuildClientHello(name: seq<byte>, s: Secrets) returns (hello: Option<seq<byte>>)
    ensures hello == if 1 <= |name| <= MAX_NAME then Some(ClientHello(name, s)) else None
  {
    hide Be16, Grease, Flight, AllEntries, Extensions, FillLen, FillHandshakeLen;
    if name == [] || |name| > MAX_NAME {
      return None;
    }
    var ext := ExtensionBlock(name, s);
    ClientExtensionsSize(name, s);
    var front := WriteClientFront(s);
    var out := [HANDSHAKE];
    out := out + [0x03, 0x01];
    out := out + [0, 0];
    out := out + [CLIENT_HELLO];
    out := out + [0, 0, 0];
    out := out + front;
    var extLenAt := |out|;
    out := out + [0, 0];
    var extStart := |out|;
    out := out + ext;
    assert out == Unfilled(0x01, CLIENT_HELLO, front, ext);
    FlightFilled(0x01, CLIENT_HELLO, front, ext);
    out := FillLen(out, extLenAt, extStart);
    out := FillHandshakeLen(out);
    return Some(out);
  }

  method WriteClientFront(s: Secrets) returns (out: seq<byte>)
    ensures out == ClientFront(s)
  {
    hide Be16, Grease;
    out := [0x03, 0x03];
    out := out + s.random;
    out := out + [32];
    out := out + s.sessionId;
    out := out + Be16((|SUITES| + 1) * 2);
    var suites := Be16(Grease(s.grease));
    for i := 0 to |SUITES|
      invariant suites == Be16(Grease(s.grease)) + Halfwords(SUITES[..i])
    {
      assert SUITES[..i + 1][..i] == SUITES[..i];
      suites := suites + Be16(SUITES[i]);
    }
    assert SUITES[..|SUITES|] == SUITES;
    out := out + suites;
    out := out + [0x01, 0x00];
  }

  /** `server_hello`. */
  method BuildServerHello(sessionId: Bytes32, s: Secrets) returns (hello: seq<byte>)
    ensures hello == ServerHello(sessionId, s)
  {
    hide Be16, Flight, Extensions, FillLen, FillHandshakeLen, EntryBytes, Extension;
    var front := [0x03, 0x03];
    front := front + s.random;
    front := front + [32];
    front := front + sessionId;
    front := front + Be16(0x1301);
    front := front + [0];
    var ext := ServerExtensions(s);
    ServerExtensionsSize(s);
    var out := [HANDSHAKE];
    out := out + [0x03, 0x03];
    out := out + [0, 0];
    out := out + [SERVER_HELLO];
    out := out + [0, 0, 0];
    out := out + front;
    var extLenAt := |out|;
    out := out + [0, 0];
    var extStart := |out|;
    out := out + ext;
    assert out == Unfilled(0x03, SERVER_HELLO, front, ext);
    FlightFilled(0x03, SERVER_HELLO, front, ext);
    out := FillLen(out, extLenAt, extStart);
    out := FillHandshakeLen(out);
    hello := out + CIPHER_CHANGE;
  }

  method ServerExtensions(s: Secrets) returns (ext: seq<byte>)
    ensures ext == Extensions(ServerEntries(s))
  {
    hide Be16, EntryBytes, Extension, Joined;
    var share := Be16(X25519_MLKEM768);
    share := share + Be16(PQ_SERVER_SHARE);
    share := share + s.serverShare;
    ShareIsEntry(s, share);
    ext := Extension(0x002B, [0x03, 0x04]);
    ext := ext + Extension(0x0033, share);
    ext := ext + Extension(0x0029, [0x00, 0x00]);
    ghost var es := ServerEntries(s);
    ExtensionIsEntry(es[0]);
    ExtensionIsEntry(es[1]);
    ExtensionIsEntry(es[2]);
    JoinedOfThree(es);
  }

  lemma ShareIsEntry(s: Secrets, share: seq<byte>)
    requires share == Be16(X25519_MLKEM768) + Be16(PQ_SERVER_SHARE) + s.serverShare
    ensures share == EntryBytes(Entry(X25519_MLKEM768, s.serverShare))
  {
  }

  /** `client_finished`. */
  method BuildClientFinished(s: Secrets) returns (out: seq<byte>)
    ensures out == ClientFinished(s)
  {
    hide Be16;
    out := CIPHER_CHANGE;
    out := out + [APPLICATION_DATA, 0x03, 0x03];
    out := out + Be16(FINISHED_LEN);
    out := out + s.finished;
  }
}
