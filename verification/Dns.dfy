/** The stub resolver's reader and writer, from `dns.rs`: queries, names with compression pointers
    (section 4.1.4 of RFC 1035), and the addresses in a reply. */
module Dns {
  import opened Bytes

  const MAX_JUMPS: nat := 16
  const TYPE_A: u16 := 1
  const CLASS_IN: u16 := 1
  const HEADER_LEN: nat := 12
  const MAX_HOST: nat := 253
  const DOT: byte := 0x2E

  /** Why a name or a reply was refused. */
  datatype Refusal =
    | UnusableName | UnusableLabel
    | TooShort | NotTheAnswer | NotAResponse | NoSuchName | Refused(code: nat)
    | MalformedQuestionName | QuestionPastEnd | MalformedRecordName | RecordPastEnd

  datatype Reading<+T> = Read(value: T) | Bad(why: Refusal)

  // ---- Names on the wire ---------------------------------------------------------------------

  /** Where the labels from `pos` stop: at a root byte or at the first byte of a pointer. */
  function LabelsStop(msg: seq<byte>, pos: nat): (stop: Option<nat>)
    ensures stop.Some? ==> pos <= stop.value < |msg| && (msg[stop.value] == 0 || msg[stop.value] >= 0xC0)
    decreases |msg| - pos
  {
    if pos >= |msg| then None
    else if msg[pos] == 0 || msg[pos] >= 0xC0 then Some(pos)
    else if msg[pos] >= 0x40 || pos + msg[pos] + 1 > |msg| then None
    else LabelsStop(msg, pos + msg[pos] + 1)
  }

  function Target(msg: seq<byte>, at: nat): nat
    requires at + 2 <= |msg|
  {
    Word(msg[at] % 0x40, msg[at + 1])
  }

  /** The name at `pos` comes to its root by at most `hops` pointers, all inside the message. */
  predicate Resolves(msg: seq<byte>, pos: nat, hops: nat)
    decreases hops
  {
    var stop := LabelsStop(msg, pos);
    && stop.Some?
    && (|| msg[stop.value] == 0
        || (&& stop.value + 2 <= |msg| && hops > 0 && Target(msg, stop.value) < |msg|
            && Resolves(msg, Target(msg, stop.value), hops - 1)))
  }

  /** What follows the part of a name that is written where it starts. */
  function PastName(msg: seq<byte>, pos: nat): (end: nat)
    requires LabelsStop(msg, pos).Some?
    ensures end > pos
  {
    var stop := LabelsStop(msg, pos).value;
    stop + if msg[stop] == 0 then 1 else 2
  }

  function NameEnd(msg: seq<byte>, pos: nat): (end: Option<nat>)
    ensures end.Some? ==> pos < end.value <= |msg|
  {
    if Resolves(msg, pos, MAX_JUMPS) then Some(PastName(msg, pos)) else None
  }

  /** `skip_name`: one loop over the labels here and wherever pointers lead, ending on every message. */
  method SkipName(msg: seq<byte>, start: nat) returns (r: Option<nat>)
    ensures r == NameEnd(msg, start)
    ensures r.Some? ==> start < r.value <= |msg|
  {
    var pos: nat, jumps: nat, end: Option<nat> := start, 0, None;
    while true
      invariant jumps <= MAX_JUMPS
      invariant Resolves(msg, pos, MAX_JUMPS - jumps) <==> Resolves(msg, start, MAX_JUMPS)
      invariant end.None? ==> jumps == 0 && LabelsStop(msg, pos) == LabelsStop(msg, start)
      invariant end.Some? ==> LabelsStop(msg, start).Some? && end.value == PastName(msg, start)
      decreases MAX_JUMPS - jumps, |msg| - pos
    {
      if pos >= |msg| { return None; }
      var len := msg[pos];
      if len >= 0xC0 {
        if pos + 1 >= |msg| { return None; }
        var target := Word(len % 0x40, msg[pos + 1]);
        jumps := jumps + 1;
        if jumps > MAX_JUMPS || target >= |msg| { return None; }
        end := Some(end.GetOr(pos + 2));
        pos := target;
      } else if len < 0x40 {
        if len == 0 { return Some(end.GetOr(pos + 1)); }
        pos := pos + len + 1;
        if pos > |msg| { return None; }
      } else {
        return None;
      }
    }
  }

  // ---- Writing names -------------------------------------------------------------------------

  type Label = s: seq<byte> | 1 <= |s| <= 63 witness [0]

  /** A name as its labels, ending at the root or in a pointer. */
  datatype Name = Name(labels: seq<Label>, pointer: Option<Pointer>)
  type Pointer = n: nat | n < 0x4000

  function LabelBytes(labels: seq<Label>): seq<byte> {
    if labels == [] then [] else [|labels[0]| as byte] + labels[0] + LabelBytes(labels[1..])
  }

  function NameTail(n: Name): (b: seq<byte>)
    ensures 1 <= |b| <= 2
  {
    if n.pointer.None? then [0] else [0xC0 + n.pointer.value / 0x100, n.pointer.value % 0x100]
  }

  function NameBytes(n: Name): seq<byte> {
    LabelBytes(n.labels) + NameTail(n)
  }

  lemma {:induction false} LabelBytesSnoc(labels: seq<Label>, last: Label)
    ensures LabelBytes(labels + [last]) == LabelBytes(labels) + [|last| as byte] + last
  {
    if labels == [] {
      assert labels + [last] == [last];
    } else {
      assert (labels + [last])[1..] == labels[1..] + [last];
      LabelBytesSnoc(labels[1..], last);
    }
  }

  lemma {:induction false} LabelsStopAt(msg: seq<byte>, pos: nat, labels: seq<Label>)
    requires Lies(msg, pos, LabelBytes(labels))
    requires pos + |LabelBytes(labels)| < |msg|
    ensures LabelsStop(msg, pos) == LabelsStop(msg, pos + |LabelBytes(labels)|)
    decreases |labels|
  {
    hide LabelsStop, Lies;
    if labels != [] {
      var first, rest := [|labels[0]| as byte] + labels[0], LabelBytes(labels[1..]);
      assert LabelBytes(labels) == first + rest;
      LiesSplit(msg, pos, first, rest);
      hide LabelBytes;
      LabelPassed(msg, pos, labels[0]);
      LabelsStopAt(msg, pos + |first|, labels[1..]);
    }
  }

  /** One label is stepped over. */
  lemma LabelPassed(msg: seq<byte>, pos: nat, l: Label)
    requires Lies(msg, pos, [|l| as byte] + l)
    ensures LabelsStop(msg, pos) == LabelsStop(msg, pos + 1 + |l|)
  {
    LiesAt(msg, pos, [|l| as byte] + l, 0);
  }

  /** Wherever a name lies, it is stepped over exactly, if what it points at resolves. */
  lemma NameStepped(msg: seq<byte>, pos: nat, n: Name)
    requires Lies(msg, pos, NameBytes(n))
    ensures NameEnd(msg, pos) == if Leads(msg, n) then Some(pos + |NameBytes(n)|) else None
  {
    hide LabelsStop, Target, LabelBytes;
    NameShape(msg, pos, n);
  }

  /** Where a name that lies at `pos` stops, and how. */
  lemma NameShape(msg: seq<byte>, pos: nat, n: Name)
    requires Lies(msg, pos, NameBytes(n))
    ensures var stop := pos + |LabelBytes(n.labels)|;
            && LabelsStop(msg, pos) == Some(stop) && stop + |NameTail(n)| == pos + |NameBytes(n)| <= |msg|
            && (n.pointer.None? ==> msg[stop] == 0)
            && (n.pointer.Some? ==> msg[stop] != 0 && Target(msg, stop) == n.pointer.value)
  {
    hide LabelBytes;
    var stop := pos + |LabelBytes(n.labels)|;
    LiesSplit(msg, pos, LabelBytes(n.labels), NameTail(n));
    LiesAt(msg, stop, NameTail(n), 0);
    if n.pointer.Some? {
      LiesAt(msg, stop, NameTail(n), 1);
      WordIs(msg[stop] % 0x40, msg[stop + 1]);
    }
    LabelsStopAt(msg, pos, n.labels);
  }

  /** A pointer, if there is one, leads to a name that the remaining pointers resolve. */
  predicate Leads(msg: seq<byte>, n: Name) {
    n.pointer.None? || (n.pointer.value < |msg| && Resolves(msg, n.pointer.value, 15))
  }

  /** A pointer at any name written without one leads there. */
  lemma PointerAtPlainName(msg: seq<byte>, pos: Pointer, n: Name, labels: seq<Label>)
    requires Lies(msg, pos, NameBytes(n)) && n.pointer.None?
    ensures Leads(msg, Name(labels, Some(pos)))
  {
    hide LabelsStop, Target, LabelBytes;
    NameShape(msg, pos, n);
  }

  // ---- Queries -------------------------------------------------------------------------------

  /** The pieces between dots. */
  function Pieces(host: seq<byte>): (ps: seq<seq<byte>>)
    ensures |ps| >= 1
  {
    if host == [] then [[]]
    else
      var rest := Pieces(host[1..]);
      if host[0] == DOT then [[]] + rest else [[host[0]] + rest[0]] + rest[1..]
  }

  function Dotted(ps: seq<seq<byte>>): seq<byte>
    requires |ps| >= 1
  {
    if |ps| == 1 then ps[0] else ps[0] + [DOT] + Dotted(ps[1..])
  }

  /** Putting the dots back gives the name. */
  lemma {:induction false} PiecesJoin(host: seq<byte>)
    ensures Dotted(Pieces(host)) == host
  {
    if host != [] {
      PiecesJoin(host[1..]);
      var ps, rest := Pieces(host), Pieces(host[1..]);
      if host[0] == DOT {
        assert ps[1..] == rest;
      } else if |rest| > 1 {
        assert ps[1..] == rest[1..];
        assert Dotted(ps) == [host[0]] + (rest[0] + [DOT] + Dotted(rest[1..]));
      }
    }
  }

  predicate UsableLabel(p: seq<byte>) { 1 <= |p| <= 63 }

  predicate Usable(ps: seq<seq<byte>>) { forall i :: 0 <= i < |ps| ==> UsableLabel(ps[i]) }

  function AsLabels(ps: seq<seq<byte>>): (ls: seq<Label>)
    requires Usable(ps)
    ensures |ls| == |ps|
  {
    seq(|ps|, i requires 0 <= i < |ps| => ps[i])
  }

  function Stripped(host: seq<byte>): seq<byte> {
    if host != [] && host[|host| - 1] == DOT then host[..|host| - 1] else host
  }

  function QueryHeader(id: u16): (b: seq<byte>)
    ensures |b| == HEADER_LEN
  {
    Be16(id) + [1, 0, 0, 1, 0, 0, 0, 0, 0, 0]
  }

  function QueryBytes(id: u16, labels: seq<Label>): seq<byte> {
    QueryHeader(id) + NameBytes(Name(labels, None)) + Be16(TYPE_A) + Be16(CLASS_IN)
  }

  /** `encode_query`: the query, exactly when the name and every label in it can be written. */
  method EncodeQuery(id: u16, name: seq<byte>) returns (r: Reading<seq<byte>>)
    ensures var host := Stripped(name);
            r == if host == [] || |host| > 253 then Bad(UnusableName)
                 else if Usable(Pieces(host)) then Read(QueryBytes(id, AsLabels(Pieces(host))))
                 else Bad(UnusableLabel)
  {
    hide LabelBytes, Pieces;
    var host := Stripped(name);
    assert LabelBytes(AsLabels([])) == [] by { NoLabels(); }
    if host == [] || |host| > MAX_HOST {
      return Bad(UnusableName);
    }
    var msg := Be16(id);
    msg := msg + Be16(0x0100);
    msg := msg + Be16(1);
    msg := msg + Be16(0);
    msg := msg + Be16(0);
    msg := msg + Be16(0);
    assert msg == QueryHeader(id);
    var ps := Pieces(host);
    for i := 0 to |ps|
      invariant Usable(ps[..i]) && msg == QueryHeader(id) + LabelBytes(AsLabels(ps[..i]))
    {
      if !UsableLabel(ps[i]) {
        return Bad(UnusableLabel);
      }
      assert AsLabels(ps[..i + 1]) == AsLabels(ps[..i]) + [ps[i]];
      LabelBytesSnoc(AsLabels(ps[..i]), ps[i]);
      msg := msg + [|ps[i]|];
      msg := msg + ps[i];
    }
    assert ps[..|ps|] == ps;
    assert msg + [0] == QueryHeader(id) + NameBytes(Name(AsLabels(ps), None));
    msg := msg + [0];
    msg := msg + Be16(TYPE_A);
    msg := msg + Be16(CLASS_IN);
    return Read(msg);
  }

  lemma NoLabels()
    ensures LabelBytes(AsLabels([])) == []
  {
  }

  /** Each label costs its length byte and the last the root's, against one dot fewer. */
  lemma {:induction false} LabelBytesLen(ps: seq<seq<byte>>)
    requires |ps| >= 1 && Usable(ps)
    ensures |LabelBytes(AsLabels(ps))| == |Dotted(ps)| + 1
  {
    var ls := AsLabels(ps);
    if |ps| == 1 {
      assert ls[1..] == [];
    } else {
      assert ls[1..] == AsLabels(ps[1..]);
      LabelBytesLen(ps[1..]);
    }
  }

  /** The labels written from `pos`, as a reader takes them off. */
  function LabelsAt(msg: seq<byte>, pos: nat): seq<seq<byte>>
    decreases |msg| - pos
  {
    if pos >= |msg| || msg[pos] == 0 || msg[pos] >= 0x40 || pos + msg[pos] + 1 > |msg| then []
    else [msg[pos + 1..pos + 1 + msg[pos]]] + LabelsAt(msg, pos + msg[pos] + 1)
  }

  lemma {:induction false} LabelsReadBack(msg: seq<byte>, pos: nat, labels: seq<Label>)
    requires Lies(msg, pos, LabelBytes(labels))
    requires var stop := pos + |LabelBytes(labels)|; stop < |msg| && msg[stop] == 0
    ensures LabelsAt(msg, pos) == labels
    decreases |labels|
  {
    if labels != [] {
      var first, rest := [|labels[0]| as byte] + labels[0], LabelBytes(labels[1..]);
      assert LabelBytes(labels) == first + rest;
      LiesSplit(msg, pos, first, rest);
      LiesSplit(msg, pos, [|labels[0]| as byte], labels[0]);
      LiesAt(msg, pos, first, 0);
      LabelsReadBack(msg, pos + |first|, labels[1..]);
      assert labels == [labels[0]] + labels[1..];
    }
  }

  /** A query is as long as its name and eighteen more; the reader steps over its name to the four
      bytes that end it, and the labels there, dotted, are the name asked for. */
  lemma QueryReads(id: u16, host: seq<byte>)
    requires Usable(Pieces(host))
    ensures var q := QueryBytes(id, AsLabels(Pieces(host)));
            && |q| == |host| + 18
            && Get16(q, 0) == id && q[2..12] == [0x01, 0x00, 0, 1, 0, 0, 0, 0, 0, 0] && q[|q| - 4..] == [0, 1, 0, 1]
            && NameEnd(q, HEADER_LEN) == Some(|q| - 4)
            && var read := LabelsAt(q, HEADER_LEN); |read| >= 1 && Dotted(read) == host
  {
    hide NameEnd, LabelsAt, QueryHeader, Get16;
    QueryFrame(id, AsLabels(Pieces(host)));
    var ps := Pieces(host);
    var labels := AsLabels(ps);
    var q, n := QueryBytes(id, labels), Name(labels, None);
    PiecesJoin(host);
    LabelBytesLen(ps);
    assert q[HEADER_LEN..HEADER_LEN + |NameBytes(n)|] == NameBytes(n);
    NameStepped(q, HEADER_LEN, n);
    LiesSplit(q, HEADER_LEN, LabelBytes(labels), [0]);
    LiesAt(q, HEADER_LEN + |LabelBytes(labels)|, [0], 0);
    LabelsReadBack(q, HEADER_LEN, labels);
    assert labels == ps;
  }

  /** A query as any reader of messages takes it: its id, recursion asked for, one question for an internet
      address and nothing else. */
  lemma QueryFrame(id: u16, labels: seq<Label>)
    ensures var q := QueryBytes(id, labels);
            && |q| >= 16 && Get16(q, 0) == id && q[2..12] == [0x01, 0x00, 0, 1, 0, 0, 0, 0, 0, 0] && q[|q| - 4..] == [0, 1, 0, 1]
  {
    hide Get16, NameBytes;
    var q := QueryBytes(id, labels);
    Be16Is(1);
    LiesSplit(q, 0, Be16(id), q[2..]);
    assert q == Be16(id) + q[2..];
    Halfword(q, 0, id);
    assert Be16(TYPE_A) == [0, 1] && Be16(CLASS_IN) == [0, 1];
  }

  /** One dot at the end of a name is dropped, and nothing else is. */
  lemma StrippedExact(host: seq<byte>)
    ensures Stripped(host + [0x2E]) == host
    ensures host == [] || host[|host| - 1] != 0x2E ==> Stripped(host) == host
  {
    assert (host + [0x2E])[..|host|] == host;
  }

  // ---- Replies -------------------------------------------------------------------------------

  function SkipQuestions(msg: seq<byte>, pos: nat, n: nat): Reading<nat>
    decreases n
  {
    if n == 0 then Read(pos)
    else
      match NameEnd(msg, pos)
      case None => Bad(MalformedQuestionName)
      case Some(end) => if end + 4 > |msg| then Bad(QuestionPastEnd) else SkipQuestions(msg, end + 4, n - 1)
  }

  /** One record: where the next begins, and the address if it holds one. */
  function ReadRecord(msg: seq<byte>, pos: nat): Reading<(nat, seq<seq<byte>>)> {
    match NameEnd(msg, pos)
    case None => Bad(MalformedRecordName)
    case Some(at) =>
      if at + 10 > |msg| then Bad(RecordPastEnd)
      else
        var rdlen := Get16(msg, at + 8);
        if at + 10 + rdlen > |msg| then Bad(RecordPastEnd)
        else
          var wanted := Get16(msg, at) == TYPE_A && Get16(msg, at + 2) == CLASS_IN && rdlen == 4;
          Read((at + 10 + rdlen, if wanted then [msg[at + 10..at + 14]] else []))
  }

  function ReadRecords(msg: seq<byte>, pos: nat, n: nat): Reading<seq<seq<byte>>>
    decreases n
  {
    if n == 0 then Read([])
    else
      match ReadRecord(msg, pos)
      case Bad(why) => Bad(why)
      case Read(one) => After(one.1, ReadRecords(msg, one.0, n - 1))
  }

  function After(found: seq<seq<byte>>, rest: Reading<seq<seq<byte>>>): Reading<seq<seq<byte>>> {
    if rest.Read? then Read(found + rest.value) else rest
  }

  function ReadHeader(msg: seq<byte>, id: u16): Reading<(u16, u16)> {
    if |msg| < HEADER_LEN then Bad(TooShort)
    else if Get16(msg, 0) != id then Bad(NotTheAnswer)
    else
      var flags := Get16(msg, 2);
      if flags < 0x8000 then Bad(NotAResponse)
      else if flags % 0x10 == 3 then Bad(NoSuchName)
      else if flags % 0x10 != 0 then Bad(Refused(flags % 0x10))
      else Read((Get16(msg, 4), Get16(msg, 6)))
  }

  function ReadReply(msg: seq<byte>, id: u16): Reading<seq<seq<byte>>> {
    match ReadHeader(msg, id)
    case Bad(why) => Bad(why)
    case Read(counts) =>
      match SkipQuestions(msg, HEADER_LEN, counts.0)
      case Bad(why) => Bad(why)
      case Read(pos) => ReadRecords(msg, pos, counts.1)
  }

  /** `parse_answers`: the loops. */
  method ParseAnswers(msg: seq<byte>, id: u16) returns (r: Reading<seq<seq<byte>>>)
    ensures r == ReadReply(msg, id)
  {
    hide NameEnd;
    var header := ReadHeader(msg, id);
    if header.Bad? {
      return Bad(header.why);
    }
    var questions, answers := header.value.0, header.value.1;
    var pos: nat := HEADER_LEN;
    for i := 0 to questions
      invariant SkipQuestions(msg, pos, questions - i) == SkipQuestions(msg, HEADER_LEN, questions)
    {
      var end := SkipName(msg, pos);
      if end.None? {
        return Bad(MalformedQuestionName);
      }
      if end.value + 4 > |msg| {
        return Bad(QuestionPastEnd);
      }
      pos := end.value + 4;
    }
    ghost var first := pos;
    var found := [];
    AfterNothing(ReadRecords(msg, first, answers));
    for i := 0 to answers
      invariant ReadRecords(msg, first, answers) == After(found, ReadRecords(msg, pos, answers - i))
    {
      var one := ParseRecord(msg, pos);
      if one.Bad? {
        return Bad(one.why);
      }
      AfterTwice(found, one.value.1, ReadRecords(msg, one.value.0, answers - i - 1));
      pos := one.value.0;
      found := found + one.value.1;
    }
    assert found + [] == found;
    return Read(found);
  }

  lemma AfterNothing(rest: Reading<seq<seq<byte>>>)
    ensures After([], rest) == rest
  {
    if rest.Read? {
      assert [] + rest.value == rest.value;
    }
  }

  lemma AfterTwice(a: seq<seq<byte>>, b: seq<seq<byte>>, rest: Reading<seq<seq<byte>>>)
    ensures After(a, After(b, rest)) == After(a + b, rest)
  {
    if rest.Read? {
      assert a + (b + rest.value) == a + b + rest.value;
    }
  }

  /** The body of the record loop. */
  method ParseRecord(msg: seq<byte>, start: nat) returns (r: Reading<(nat, seq<seq<byte>>)>)
    ensures r == ReadRecord(msg, start)
  {
    hide NameEnd;
    var end := SkipName(msg, start);
    if end.None? {
      return Bad(MalformedRecordName);
    }
    var pos := end.value;
    if pos + 10 > |msg| {
      return Bad(RecordPastEnd);
    }
    var rtype, class_, rdlen := Get16(msg, pos), Get16(msg, pos + 2), Get16(msg, pos + 8);
    var rdata := pos + 10;
    var next := rdata + rdlen;
    if next > |msg| {
      return Bad(RecordPastEnd);
    }
    if rtype == TYPE_A && class_ == CLASS_IN && rdlen == 4 {
      return Read((next, [msg[rdata..next]]));
    }
    return Read((next, []));
  }

  // ---- Whole replies -------------------------------------------------------------------------

  type Rdata = s: seq<byte> | |s| <= 0xFFFF witness []

  datatype Question = Question(name: Name, qtype: u16, qclass: u16)
  datatype Record = Record(name: Name, rtype: u16, rclass: u16, ttl: u32, rdata: Rdata)

  /** A reply as what it says, its sections in the order they are written. `rest` is the sections
      after the answers. */
  datatype Reply = Reply(
    flags: u16, questions: seq<Question>, records: seq<Record>, authority: u16, additional: u16, rest: seq<byte>)

  function QuestionBytes(q: Question): seq<byte> {
    NameBytes(q.name) + (Be16(q.qtype) + Be16(q.qclass))
  }

  function RecordFixed(r: Record): (b: seq<byte>)
    ensures |b| == 10
  {
    Be16(r.rtype) + Be16(r.rclass) + Be32(r.ttl) + Be16(|r.rdata|)
  }

  function RecordBytes(r: Record): seq<byte> {
    NameBytes(r.name) + (RecordFixed(r) + r.rdata)
  }

  function QuestionsBytes(qs: seq<Question>): seq<byte> {
    if qs == [] then [] else QuestionBytes(qs[0]) + QuestionsBytes(qs[1..])
  }

  function RecordsBytes(rs: seq<Record>): seq<byte> {
    if rs == [] then [] else RecordBytes(rs[0]) + RecordsBytes(rs[1..])
  }

  function ReplyHeader(id: u16, r: Reply): (b: seq<byte>)
    requires |r.questions| <= 0xFFFF && |r.records| <= 0xFFFF
    ensures |b| == HEADER_LEN
  {
    Be16(id) + Be16(r.flags) + Be16(|r.questions|) + Be16(|r.records|) + Be16(r.authority) + Be16(r.additional)
  }

  function ReplyBytes(id: u16, r: Reply): seq<byte>
    requires |r.questions| <= 0xFFFF && |r.records| <= 0xFFFF
  {
    ReplyHeader(id, r) + (QuestionsBytes(r.questions) + (RecordsBytes(r.records) + r.rest))
  }

  /** The addresses a reply gives: its four-byte internet A records, in order. */
  function Addresses(rs: seq<Record>): seq<seq<byte>> {
    if rs == [] then [] else Address(rs[0]) + Addresses(rs[1..])
  }

  function Address(r: Record): seq<seq<byte>> {
    if r.rtype == 1 && r.rclass == 1 && |r.rdata| == 4 then [r.rdata] else []
  }

  predicate QuestionsLead(msg: seq<byte>, qs: seq<Question>) {
    forall i :: 0 <= i < |qs| ==> Leads(msg, qs[i].name)
  }

  predicate RecordsLead(msg: seq<byte>, rs: seq<Record>) {
    forall i :: 0 <= i < |rs| ==> Leads(msg, rs[i].name)
  }

  lemma {:induction false} QuestionsStepped(msg: seq<byte>, pos: nat, qs: seq<Question>)
    requires Lies(msg, pos, QuestionsBytes(qs))
    ensures SkipQuestions(msg, pos, |qs|)
            == if QuestionsLead(msg, qs) then Read(pos + |QuestionsBytes(qs)|) else Bad(MalformedQuestionName)
    decreases |qs|
  {
    hide NameEnd, Leads, NameBytes, Be16, Lies, QuestionBytes;
    if qs != [] {
      hide QuestionsLead;
      var q, rest := qs[0], qs[1..];
      LiesSplit(msg, pos, QuestionBytes(q), QuestionsBytes(rest));
      QuestionStepped(msg, pos, q);
      QuestionsStepped(msg, pos + |QuestionBytes(q)|, rest);
      QuestionsLeadFirst(msg, qs);
    } else {
      assert QuestionsLead(msg, qs);
    }
  }

  lemma QuestionStepped(msg: seq<byte>, pos: nat, q: Question)
    requires Lies(msg, pos, QuestionBytes(q))
    ensures pos + |QuestionBytes(q)| <= |msg|
    ensures NameEnd(msg, pos) == if Leads(msg, q.name) then Some(pos + |QuestionBytes(q)| - 4) else None
  {
    hide NameEnd, Leads, NameBytes, Be16;
    LiesSplit(msg, pos, NameBytes(q.name), Be16(q.qtype) + Be16(q.qclass));
    NameStepped(msg, pos, q.name);
  }

  lemma QuestionsLeadFirst(msg: seq<byte>, qs: seq<Question>)
    requires qs != []
    ensures QuestionsLead(msg, qs) <==> Leads(msg, qs[0].name) && QuestionsLead(msg, qs[1..])
  {
    hide Leads;
    assert qs == [qs[0]] + qs[1..];
  }

  lemma RecordsLeadFirst(msg: seq<byte>, rs: seq<Record>)
    requires rs != []
    ensures RecordsLead(msg, rs) <==> Leads(msg, rs[0].name) && RecordsLead(msg, rs[1..])
  {
    hide Leads;
    assert rs == [rs[0]] + rs[1..];
  }

  lemma RecordStepped(msg: seq<byte>, pos: nat, r: Record)
    requires Lies(msg, pos, RecordBytes(r))
    ensures ReadRecord(msg, pos)
            == if Leads(msg, r.name) then Read((pos + |RecordBytes(r)|, Address(r))) else Bad(MalformedRecordName)
  {
    hide NameEnd, Leads, NameBytes, Be16, Get16, RecordFixed;
    var at := pos + |NameBytes(r.name)|;
    LiesSplit(msg, pos, NameBytes(r.name), RecordFixed(r) + r.rdata);
    LiesSplit(msg, at, RecordFixed(r), r.rdata);
    NameStepped(msg, pos, r.name);
    FixedRead(msg, at, r);
  }

  lemma FixedRead(msg: seq<byte>, at: nat, r: Record)
    requires Lies(msg, at, RecordFixed(r))
    ensures Get16(msg, at) == r.rtype && Get16(msg, at + 2) == r.rclass && Get16(msg, at + 8) == |r.rdata|
  {
    hide Be16, Be32, Get16;
    var a, b, c, d := Be16(r.rtype), Be16(r.rclass), Be32(r.ttl), Be16(|r.rdata|);
    LiesSplit(msg, at, a + b + c, d);
    LiesSplit(msg, at, a + b, c);
    LiesSplit(msg, at, a, b);
    Halfword(msg, at, r.rtype);
    Halfword(msg, at + 2, r.rclass);
    Halfword(msg, at + 8, |r.rdata|);
  }

  lemma {:induction false} RecordsRead(msg: seq<byte>, pos: nat, rs: seq<Record>)
    requires Lies(msg, pos, RecordsBytes(rs))
    ensures ReadRecords(msg, pos, |rs|) == if RecordsLead(msg, rs) then Read(Addresses(rs)) else Bad(MalformedRecordName)
    decreases |rs|
  {
    hide ReadRecord, Leads, RecordBytes, Lies, Address;
    if rs != [] {
      hide RecordsLead;
      var r, rest := rs[0], rs[1..];
      LiesSplit(msg, pos, RecordBytes(r), RecordsBytes(rest));
      RecordStepped(msg, pos, r);
      RecordsRead(msg, pos + |RecordBytes(r)|, rest);
      RecordsLeadFirst(msg, rs);
    } else {
      assert RecordsLead(msg, rs);
    }
  }

  /** What a reply's header comes to, whatever it answers and whatever it reports. */
  function Verdict(theirs: u16, ours: u16, flags: u16): Option<Refusal> {
    if theirs != ours then Some(NotTheAnswer)
    else if flags < 0x8000 then Some(NotAResponse)
    else if flags % 0x10 == 3 then Some(NoSuchName)
    else if flags % 0x10 != 0 then Some(Refused(flags % 0x10))
    else None
  }

  lemma HeaderRead(theirs: u16, ours: u16, r: Reply, msg: seq<byte>)
    requires |r.questions| <= 0xFFFF && |r.records| <= 0xFFFF
    requires Lies(msg, 0, ReplyHeader(theirs, r))
    ensures ReadHeader(msg, ours)
            == match Verdict(theirs, ours, r.flags)
               case Some(why) => Bad(why)
               case None => Read((|r.questions| as u16, |r.records| as u16))
  {
    hide Be16, Get16;
    var a, b, c, d := Be16(theirs), Be16(r.flags), Be16(|r.questions|), Be16(|r.records|);
    LiesSplit(msg, 0, a + b + c + d + Be16(r.authority), Be16(r.additional));
    LiesSplit(msg, 0, a + b + c + d, Be16(r.authority));
    LiesSplit(msg, 0, a + b + c, d);
    LiesSplit(msg, 0, a + b, c);
    LiesSplit(msg, 0, a, b);
    Halfword(msg, 0, theirs);
    Halfword(msg, 2, r.flags);
    Halfword(msg, 4, |r.questions|);
    Halfword(msg, 6, |r.records|);
  }

  /** Reading is exact on every reply, to any question and with any flags: one that answers another question,
      is no response or reports a failure is refused for that reason, first of these first; of any other, its
      addresses, in order, exactly when every name in its questions and answers leads to a root. */
  lemma ReplyReads(theirs: u16, ours: u16, r: Reply)
    requires |r.questions| <= 0xFFFF && |r.records| <= 0xFFFF
    ensures var msg := ReplyBytes(theirs, r);
            ReadReply(msg, ours)
            == if theirs != ours then Bad(NotTheAnswer)
               else if r.flags < 0x8000 then Bad(NotAResponse)
               else if r.flags % 0x10 == 3 then Bad(NoSuchName)
               else if r.flags % 0x10 != 0 then Bad(Refused(r.flags % 0x10))
               else if !QuestionsLead(msg, r.questions) then Bad(MalformedQuestionName)
               else if !RecordsLead(msg, r.records) then Bad(MalformedRecordName)
               else Read(Addresses(r.records))
  {
    hide ReplyHeader, QuestionsBytes, RecordsBytes, ReadHeader, SkipQuestions, ReadRecords, QuestionsLead, RecordsLead, Addresses;
    var msg := ReplyBytes(theirs, r);
    var qs, rs := QuestionsBytes(r.questions), RecordsBytes(r.records);
    assert Lies(msg, 0, ReplyHeader(theirs, r) + (qs + (rs + r.rest)));
    LiesSplit(msg, 0, ReplyHeader(theirs, r), qs + (rs + r.rest));
    LiesSplit(msg, HEADER_LEN, qs, rs + r.rest);
    LiesSplit(msg, HEADER_LEN + |qs|, rs, r.rest);
    HeaderRead(theirs, ours, r, msg);
    QuestionsStepped(msg, HEADER_LEN, r.questions);
    if QuestionsLead(msg, r.questions) {
      RecordsRead(msg, HEADER_LEN + |qs|, r.records);
    }
  }

  /** Only a message without a whole header is too short. */
  lemma TooShortExact(msg: seq<byte>, id: u16)
    ensures ReadReply(msg, id) == Bad(TooShort) <==> |msg| < 12
  {
    if |msg| >= 12 && ReadHeader(msg, id).Read? {
      var counts := ReadHeader(msg, id).value;
      QuestionsNotShort(msg, HEADER_LEN, counts.0);
      if SkipQuestions(msg, HEADER_LEN, counts.0).Read? {
        RecordsNotShort(msg, SkipQuestions(msg, HEADER_LEN, counts.0).value, counts.1);
      }
    }
  }

  lemma {:induction false} QuestionsNotShort(msg: seq<byte>, pos: nat, n: nat)
    ensures SkipQuestions(msg, pos, n) != Bad(TooShort)
    decreases n
  {
    hide NameEnd;
    if n > 0 && NameEnd(msg, pos).Some? {
      QuestionsNotShort(msg, NameEnd(msg, pos).value + 4, n - 1);
    }
  }

  lemma {:induction false} RecordsNotShort(msg: seq<byte>, pos: nat, n: nat)
    ensures ReadRecords(msg, pos, n) != Bad(TooShort)
    decreases n
  {
    hide NameEnd, Get16;
    if n > 0 && ReadRecord(msg, pos).Read? {
      RecordsNotShort(msg, ReadRecord(msg, pos).value.0, n - 1);
    }
  }

  // ---- Only replies are read ------------------------------------------------------------------

  lemma {:induction false} LabelsFound(msg: seq<byte>, pos: nat) returns (labels: seq<Label>)
    requires LabelsStop(msg, pos).Some?
    ensures Lies(msg, pos, LabelBytes(labels)) && pos + |LabelBytes(labels)| == LabelsStop(msg, pos).value
    decreases |msg| - pos
  {
    if msg[pos] == 0 || msg[pos] >= 0xC0 {
      labels := [];
    } else {
      var l: Label := msg[pos + 1..pos + 1 + msg[pos]];
      var rest := LabelsFound(msg, pos + 1 + |l|);
      labels := [l] + rest;
      hide LabelsStop;
      assert labels[1..] == rest;
      assert LabelBytes(labels) == [|l| as byte] + l + LabelBytes(rest);
      assert msg[pos..pos + 1 + |l|] == [|l| as byte] + l;
      LiesSplit(msg, pos, [|l| as byte] + l, LabelBytes(rest));
    }
  }

  /** Whatever is stepped over as a name is one. */
  lemma NameFound(msg: seq<byte>, pos: nat) returns (n: Name)
    requires NameEnd(msg, pos).Some?
    ensures Lies(msg, pos, NameBytes(n)) && pos + |NameBytes(n)| == NameEnd(msg, pos).value && Leads(msg, n)
  {
    hide NameEnd, Leads, LabelsStop, LabelBytes, Lies, NameTail;
    NameStops(msg, pos);
    var labels := LabelsFound(msg, pos);
    var pointer := TailFound(msg, LabelsStop(msg, pos).value);
    n := Name(labels, pointer);
    TailOf(n);
    LiesSplit(msg, pos, LabelBytes(labels), NameTail(n));
    NameStepped(msg, pos, n);
  }

  lemma NameStops(msg: seq<byte>, pos: nat)
    requires NameEnd(msg, pos).Some?
    ensures var stop := LabelsStop(msg, pos);
            stop.Some? && (msg[stop.value] == 0 || (msg[stop.value] >= 0xC0 && stop.value + 2 <= |msg|))
  {
    hide LabelsStop, Target;
  }

  lemma TailFound(msg: seq<byte>, stop: nat) returns (pointer: Option<Pointer>)
    requires stop < |msg| && (msg[stop] == 0 || (msg[stop] >= 0xC0 && stop + 2 <= |msg|))
    ensures Lies(msg, stop, NameTail(Name([], pointer)))
  {
    if msg[stop] == 0 {
      pointer := None;
      assert msg[stop..stop + 1] == [0];
    } else {
      hide Target;
      PointerRead(msg, stop);
      pointer := Some(Target(msg, stop));
    }
  }

  lemma TailOf(n: Name)
    ensures NameTail(n) == NameTail(Name([], n.pointer))
  {
  }

  lemma PointerRead(msg: seq<byte>, at: nat)
    requires at + 2 <= |msg| && msg[at] >= 0xC0
    ensures var t := Target(msg, at);
            t < 0x4000 && Lies(msg, at, NameTail(Name([], Some(t as Pointer))))
  {
    WordIs(msg[at] % 0x40, msg[at + 1]);
    var t := Target(msg, at);
    assert msg[at] == 0xC0 + t / 0x100 && msg[at + 1] == t % 0x100;
    assert msg[at..at + 2] == NameTail(Name([], Some(t as Pointer)));
  }

  lemma {:induction false} QuestionsFound(msg: seq<byte>, pos: nat, n: nat) returns (qs: seq<Question>)
    requires SkipQuestions(msg, pos, n).Read? && pos <= |msg|
    ensures |qs| == n && Lies(msg, pos, QuestionsBytes(qs)) && QuestionsLead(msg, qs)
    ensures pos + |QuestionsBytes(qs)| == SkipQuestions(msg, pos, n).value
    decreases n
  {
    hide NameEnd, Leads, NameBytes, Lies, QuestionBytes;
    if n == 0 {
      qs := [];
      NothingLies(msg, pos);
    } else {
      var q := QuestionFound(msg, pos);
      var rest := QuestionsFound(msg, NameEnd(msg, pos).value + 4, n - 1);
      qs := [q] + rest;
      assert qs[1..] == rest;
      LiesSplit(msg, pos, QuestionBytes(q), QuestionsBytes(rest));
      hide QuestionsLead;
      QuestionsLeadFirst(msg, qs);
    }
  }

  lemma NothingLies(msg: seq<byte>, pos: nat)
    requires pos <= |msg|
    ensures Lies(msg, pos, [])
  {
  }

  lemma QuestionFound(msg: seq<byte>, pos: nat) returns (q: Question)
    requires NameEnd(msg, pos).Some? && NameEnd(msg, pos).value + 4 <= |msg|
    ensures Lies(msg, pos, QuestionBytes(q)) && pos + |QuestionBytes(q)| == NameEnd(msg, pos).value + 4 && Leads(msg, q.name)
  {
    hide NameEnd, Leads, NameBytes, Be16, Get16;
    var n := NameFound(msg, pos);
    var at := NameEnd(msg, pos).value;
    q := Question(n, Get16(msg, at), Get16(msg, at + 2));
    Be16OfGet16(msg, at);
    Be16OfGet16(msg, at + 2);
    assert msg[at..at + 4] == msg[at..at + 2] + msg[at + 2..at + 4];
    LiesSplit(msg, pos, NameBytes(n), Be16(q.qtype) + Be16(q.qclass));
  }

  lemma RecordFound(msg: seq<byte>, pos: nat) returns (r: Record)
    requires ReadRecord(msg, pos).Read?
    ensures Lies(msg, pos, RecordBytes(r)) && pos + |RecordBytes(r)| == ReadRecord(msg, pos).value.0 && Leads(msg, r.name)
    ensures Address(r) == ReadRecord(msg, pos).value.1
  {
    hide NameEnd, Leads, NameBytes, Be16, Be32, Get16, Get32, RecordFixed;
    var n := NameFound(msg, pos);
    var at := NameEnd(msg, pos).value;
    var rdata := msg[at + 10..at + 10 + Get16(msg, at + 8)];
    r := Record(n, Get16(msg, at), Get16(msg, at + 2), Get32(msg, at + 4), rdata);
    FixedFound(msg, at, r);
    LiesSplit(msg, at, RecordFixed(r), rdata);
    LiesSplit(msg, pos, NameBytes(n), RecordFixed(r) + rdata);
  }

  lemma FixedFound(msg: seq<byte>, at: nat, r: Record)
    requires at + 10 <= |msg| && r.rtype == Get16(msg, at) && r.rclass == Get16(msg, at + 2) && r.ttl == Get32(msg, at + 4)
    requires |r.rdata| == Get16(msg, at + 8)
    ensures Lies(msg, at, RecordFixed(r))
  {
    hide Be16, Be32, Get16, Get32;
    Be16OfGet16(msg, at);
    Be16OfGet16(msg, at + 2);
    Be32OfGet32(msg, at + 4);
    Be16OfGet16(msg, at + 8);
    assert msg[at..at + 10] == msg[at..at + 2] + msg[at + 2..at + 4] + msg[at + 4..at + 8] + msg[at + 8..at + 10];
  }

  lemma {:induction false} RecordsFound(msg: seq<byte>, pos: nat, n: nat) returns (rs: seq<Record>)
    requires ReadRecords(msg, pos, n).Read? && pos <= |msg|
    ensures |rs| == n && Lies(msg, pos, RecordsBytes(rs)) && RecordsLead(msg, rs)
    ensures Addresses(rs) == ReadRecords(msg, pos, n).value
    decreases n
  {
    hide ReadRecord, Leads, Lies, RecordBytes, Address;
    if n == 0 {
      rs := [];
      NothingLies(msg, pos);
    } else {
      var r := RecordFound(msg, pos);
      RecordInside(msg, pos);
      var rest := RecordsFound(msg, ReadRecord(msg, pos).value.0, n - 1);
      rs := [r] + rest;
      assert rs[1..] == rest;
      LiesSplit(msg, pos, RecordBytes(r), RecordsBytes(rest));
      hide RecordsLead;
      RecordsLeadFirst(msg, rs);
    }
  }

  lemma RecordInside(msg: seq<byte>, pos: nat)
    requires ReadRecord(msg, pos).Read?
    ensures ReadRecord(msg, pos).value.0 <= |msg|
  {
    hide NameEnd, Get16;
  }

  /** The message is a reply to `id` that reports success, and every name in it leads to a root. */
  ghost predicate Says(msg: seq<byte>, id: u16, r: Reply) {
    && |r.questions| <= 0xFFFF && |r.records| <= 0xFFFF
    && r.flags >= 0x8000 && r.flags % 0x10 == 0
    && msg == ReplyBytes(id, r)
    && QuestionsLead(msg, r.questions) && RecordsLead(msg, r.records)
  }

  /** Nothing but such a reply is read, so a message cut short anywhere in its questions or answers is
      refused; and what is read of it is its addresses. */
  lemma OnlyRepliesRead(msg: seq<byte>, id: u16) returns (r: Reply)
    requires ReadReply(msg, id).Read?
    ensures Says(msg, id, r) && ReadReply(msg, id) == Read(Addresses(r.records))
  {
    hide SkipQuestions, ReadRecords, QuestionsBytes, RecordsBytes, QuestionsLead, RecordsLead, Addresses, Get16, Be16;
    var counts := ReadHeader(msg, id).value;
    var qs := QuestionsFound(msg, HEADER_LEN, counts.0);
    var at := SkipQuestions(msg, HEADER_LEN, counts.0).value;
    LiesWithin(msg, HEADER_LEN, QuestionsBytes(qs));
    var rs := RecordsFound(msg, at, counts.1);
    LiesWithin(msg, at, RecordsBytes(rs));
    r := Reply(Get16(msg, 2), qs, rs, Get16(msg, 8), Get16(msg, 10), msg[at + |RecordsBytes(rs)|..]);
    HeaderFound(msg, id, r);
    Assembled(msg, ReplyHeader(id, r), QuestionsBytes(qs), RecordsBytes(rs), r.rest);
  }

  lemma LiesWithin(msg: seq<byte>, pos: nat, b: seq<byte>)
    requires Lies(msg, pos, b)
    ensures pos + |b| <= |msg|
  {
  }

  lemma HeaderFound(msg: seq<byte>, id: u16, r: Reply)
    requires |msg| >= 12 && |r.questions| <= 0xFFFF && |r.records| <= 0xFFFF
    requires Get16(msg, 0) == id && Get16(msg, 2) == r.flags && Get16(msg, 4) == |r.questions| && Get16(msg, 6) == |r.records|
    requires Get16(msg, 8) == r.authority && Get16(msg, 10) == r.additional
    ensures Lies(msg, 0, ReplyHeader(id, r))
  {
    hide Be16, Get16;
    Be16OfGet16(msg, 0);
    Be16OfGet16(msg, 2);
    Be16OfGet16(msg, 4);
    Be16OfGet16(msg, 6);
    Be16OfGet16(msg, 8);
    Be16OfGet16(msg, 10);
    assert msg[0..12] == msg[0..2] + msg[2..4] + msg[4..6] + msg[6..8] + msg[8..10] + msg[10..12];
  }

  lemma Assembled(msg: seq<byte>, a: seq<byte>, b: seq<byte>, c: seq<byte>, rest: seq<byte>)
    requires Lies(msg, 0, a) && Lies(msg, |a|, b) && Lies(msg, |a| + |b|, c) && rest == msg[|a| + |b| + |c|..]
    ensures msg == a + (b + (c + rest))
  {
    assert msg == msg[0..|a|] + (msg[|a|..|a| + |b|] + (msg[|a| + |b|..|a| + |b| + |c|] + rest));
  }
}
