/** Application-data records, from `cover.rs`: the headers a stream wears and what a walker of the
    stream makes of them. */
module Records {
  import opened Bytes

  const APPLICATION_DATA: byte := 0x17
  const RECORD_HEADER: nat := 5
  const MAX_RECORD: nat := 0x4000
  const MAX_SPAN: nat := MAX_RECORD + 1 + 16

  /** `record_header`: opens a record of `total` bytes. */
  function RecordHeader(total: nat): (h: Option<seq<byte>>)
    ensures h.Some? ==> |h.value| == RECORD_HEADER
    ensures h.Some? <==> total <= MAX_SPAN
  {
    if total > 0xFFFF || total > MAX_SPAN then None
    else Some([APPLICATION_DATA, 0x03, 0x03] + Be16(total))
  }

  /** `unwrap_record`: what follows a record header that declares at least as much. */
  function UnwrapRecord(payload: seq<byte>): Option<seq<byte>> {
    if |payload| < RECORD_HEADER then None
    else
      var rest := payload[RECORD_HEADER..];
      if payload[0] != APPLICATION_DATA || payload[1] != 0x03 || payload[2] != 0x03 then None
      else if |rest| <= Get16(payload, 3) <= MAX_SPAN then Some(rest)
      else None
  }

  /** Any payload that fits the record its header opens is unwrapped from it. */
  lemma UnwrapOpened(total: nat, payload: seq<byte>)
    requires RecordHeader(total).Some?
    ensures UnwrapRecord(RecordHeader(total).value + payload) == if |payload| <= total then Some(payload) else None
  {
    var whole := RecordHeader(total).value + payload;
    assert whole[RECORD_HEADER..] == payload;
    assert whole[3] == Be16(total)[0] && whole[4] == Be16(total)[1];
    Be16RoundTrip(total);
  }

  /** Exactly what begins as an application-data record declaring no less than follows and no more than a record
      may hold is unwrapped. */
  lemma UnwrapExact(p: seq<byte>)
    ensures UnwrapRecord(p)
            == if |p| >= 5 && p[..3] == [0x17, 0x03, 0x03] && |p| - 5 <= Get16(p, 3) <= 16401 then Some(p[5..]) else None
  {
    hide Get16;
    if |p| >= 5 {
      assert p[..3] == [p[0], p[1], p[2]];
    }
  }

  // ---- The chain an observer walks -----------------------------------------------------------

  /** Following declared lengths from the start of a stream: how many bytes of the last record are
      still to come, or nothing if the stream is not a chain of records. */
  function Outstanding(stream: seq<byte>): Option<nat> {
    if stream == [] then Some(0)
    else if |stream| < RECORD_HEADER || stream[1] != 0x03 then None
    else
      var len := Get16(stream, 3);
      if |stream| <= RECORD_HEADER + len then Some(RECORD_HEADER + len - |stream|)
      else Outstanding(stream[RECORD_HEADER + len..])
  }

  /** Bytes of the open record only bring its end nearer. */
  lemma {:induction false} OutstandingContinues(stream: seq<byte>, more: seq<byte>)
    requires Outstanding(stream).Some? && |more| <= Outstanding(stream).value
    ensures Outstanding(stream + more) == Some(Outstanding(stream).value - |more|)
  {
    hide Outstanding, Get16;
    var all := stream + more;
    OutstandingIs(stream);
    OutstandingIs(all);
    if more == [] {
      assert all == stream;
    } else {
      var len := Get16(stream, 3);
      SameLength(stream, more);
      if |stream| > RECORD_HEADER + len {
        OutstandingContinues(stream[RECORD_HEADER + len..], more);
        assert all[RECORD_HEADER + len..] == stream[RECORD_HEADER + len..] + more;
      }
    }
  }

  /** One step of the walk. */
  lemma OutstandingIs(stream: seq<byte>)
    ensures stream == [] ==> Outstanding(stream) == Some(0)
    ensures stream != [] && (|stream| < RECORD_HEADER || stream[1] != 0x03) ==> Outstanding(stream) == None
    ensures |stream| >= RECORD_HEADER && stream[1] == 0x03 ==>
              var end := RECORD_HEADER + Get16(stream, 3);
              Outstanding(stream) == if |stream| <= end then Some(end - |stream|) else Outstanding(stream[end..])
  {
  }

  lemma SameLength(stream: seq<byte>, more: seq<byte>)
    requires |stream| >= RECORD_HEADER
    ensures Get16(stream + more, 3) == Get16(stream, 3)
  {
  }

  /** At a boundary, what follows is walked on its own. */
  lemma {:induction false} OutstandingRestarts(stream: seq<byte>, more: seq<byte>)
    requires Outstanding(stream) == Some(0)
    ensures Outstanding(stream + more) == Outstanding(more)
  {
    var all := stream + more;
    if stream == [] {
      assert all == more;
    } else if more == [] {
      assert all == stream;
    } else {
      hide Get16;
      var len := Get16(stream, 3);
      SameLength(stream, more);
      var rest := stream[RECORD_HEADER + len..];
      OutstandingRestarts(rest, more);
      assert all[RECORD_HEADER + len..] == rest + more;
    }
  }

  /** A header and no more than it declares leave the rest outstanding. */
  lemma OutstandingOpens(total: nat, payload: seq<byte>)
    requires RecordHeader(total).Some? && |payload| <= total
    ensures Outstanding(RecordHeader(total).value + payload) == Some(total - |payload|)
  {
    var whole := RecordHeader(total).value + payload;
    assert whole[3] == Be16(total)[0] && whole[4] == Be16(total)[1];
    Be16RoundTrip(total);
  }
}
