/** The result reader as an object whose fields are updated packet by packet. */
module ResultReader {
  import opened Bytes
  import opened Protocol
  import opened ResultSet
  import opened PacketStream

  /** Cells read so far, followed by the outcome of reading the rest. */
  function Joined(cells: seq<Cell>, r: Read<seq<Cell>>): Read<seq<Cell>> {
    match r
    case Got(more, p) => Got(cells + more, p)
    case Bad(p) => Bad(p)
  }

  lemma JoinedStep(cells: seq<Cell>, d: Bytes, pos: nat, n: nat)
    requires n > 0
    ensures match ReadLenencStrAt(d, pos)
            case Bad(_) => Joined(cells, ReadCells(d, pos, n)).Bad?
            case Got(c, p) => Joined(cells, ReadCells(d, pos, n)) == Joined(cells + [c], ReadCells(d, p, n - 1))
  {
    var r := ReadLenencStrAt(d, pos);
    if r.Got? {
      var more := ReadCells(d, r.pos, n - 1);
      if more.Got? {
        Associative(cells, [r.value], more.value);
      }
    }
  }

  class MySQLResult {
    var phase: Phase
    var fieldCount: nat
    var fields: seq<Field>
    var converters: seq<FieldConverter>
    var rows: Option<seq<Row>>
    var affectedRows: int
    var insertId: Option<nat>
    var serverStatus: Option<nat>
    var warningCount: nat
    var message: Option<Bytes>
    var hasNext: bool
    var unbufferedActive: bool

    function Snapshot(): Reader
      reads this
    {
      Reader(phase, fieldCount, fields, converters, rows, affectedRows, insertId, serverStatus, warningCount, message,
             hasNext, unbufferedActive)
    }

    constructor (unbuffered: bool)
      ensures Snapshot() == New(unbuffered)
    {
      phase, fieldCount, fields, converters, rows := Initial, 0, [], [], None;
      affectedRows, insertId, serverStatus, warningCount, message := 0, None, None, 0, None;
      hasNext, unbufferedActive := false, unbuffered;
    }

    /** Consumes one packet. */
    method FeedPacket(p: Bytes, conn: Conn) returns (r: Result<FeedResult>)
      requires Inv(Snapshot())
      modifies this
      ensures (Snapshot(), r) == ResultSet.Feed(old(Snapshot()), p, conn)
      ensures Inv(Snapshot()) && Rank(old(phase)) <= Rank(phase)
    {
      FeedKeepsInv(Snapshot(), p, conn);
      match phase {
        case Initial => r := FeedInitialPacket(p);
        case Descriptions => r := FeedDescriptionPacket(p, conn);
        case Rows => r := FeedRowPacket(p);
        case UnbufferedReady => r := FeedRowPacket(p);
        case Done => r := Ok(Finished);
      }
    }

    method FeedInitialPacket(p: Bytes) returns (r: Result<FeedResult>)
      modifies this
      ensures (Snapshot(), r) == FeedInitial(old(Snapshot()), p)
    {
      if IsOkPacket(p) {
        r := FeedOkPacket(p);
        return;
      }
      if IsLoadLocalPacket(p) {
        return Err(OperationalError(CR_LOAD_DATA_LOCAL_INFILE_REJECTED));
      }
      var packet := new MysqlPacket(p);
      var n := packet.ReadLengthEncodedInteger();
      if n.Err? {
        return Err(n.error);
      }
      fieldCount := if n.value.Some? then n.value.value else 0;
      fields, converters, rows := [], [], None;
      phase := Descriptions;
      r := Ok(NeedMore);
    }

    method FeedOkPacket(p: Bytes) returns (r: Result<FeedResult>)
      modifies this
      ensures (Snapshot(), r) == FeedOk(old(Snapshot()), p)
    {
      var parsed := ParseOkAt(p);
      if parsed.Bad? {
        return Err(InternalError(CR_MALFORMED_PACKET));
      }
      TakeOver(parsed.value);
      r := Ok(Finished);
    }

    /** The fields of an OK packet. */
    method TakeOver(ok: OkPacket)
      modifies this
      ensures Snapshot() == WithOk(old(Snapshot()), ok)
    {
      affectedRows := AsI64(if ok.affected.Some? then ok.affected.value else 0);
      insertId := ok.insertId;
      serverStatus := Some(ok.status);
      warningCount := ok.warnings;
      message := Some(ok.message);
      hasNext := MoreResults(ok.status);
      phase := Done;
    }

    method FeedDescriptionPacket(p: Bytes, conn: Conn) returns (r: Result<FeedResult>)
      modifies this
      ensures (Snapshot(), r) == FeedDescription(old(Snapshot()), p, conn)
    {
      if |fields| < fieldCount {
        var field := ParseField(p, conn.encoding);
        if field.Err? {
          return Err(field.error);
        }
        converters := converters + [BuildConverter(field.value, conn)];
        fields := fields + [field.value];
        return Ok(NeedMore);
      }
      if !IsEofPacket(p) {
        return Err(InternalError(CR_MALFORMED_PACKET));
      }
      var eof := CheckPacketIsEof(p);
      if eof.Err? {
        return Err(eof.error);
      }
      if unbufferedActive {
        phase := UnbufferedReady;
        r := Ok(Ready);
      } else {
        phase := Rows;
        r := Ok(NeedMore);
      }
    }

    method CheckPacketIsEof(p: Bytes) returns (r: Result<bool>)
      modifies this
      ensures (Snapshot(), r) == CheckEof(old(Snapshot()), p)
    {
      if !IsEofPacket(p) {
        return Ok(false);
      }
      var eof := ParseEof(p);
      if eof.Err? {
        return Err(eof.error);
      }
      warningCount := eof.value.warnings;
      hasNext := MoreResults(eof.value.status);
      serverStatus := Some(eof.value.status);
      r := Ok(true);
    }

    /** Decodes one value for each column. */
    method ReadRowFromPacket(p: Bytes) returns (r: Result<Row>)
      ensures r == DecodeRow(converters, p)
    {
      var packet := new MysqlPacket(p);
      var row: Row := [];
      ghost var cells: seq<Cell> := [];
      ghost var all := ReadCells(p, 0, |converters|);
      assert Joined([], all) == all by {
        if all.Got? {
          assert [] + all.value == all.value;
        }
      }
      for i := 0 to |converters|
        invariant packet.Valid() && packet.data == p && fresh(packet)
        invariant |cells| == |row| == i
        invariant forall j :: 0 <= j < i ==> row[j] == Convert(converters[j], cells[j])
        invariant Joined(cells, ReadCells(p, packet.position, |converters| - i)) == all
      {
        JoinedStep(cells, p, packet.position, |converters| - i);
        var cell := packet.ReadLengthCodedString();
        if cell.Err? {
          return Err(cell.error);
        }
        row := row + [Convert(converters[i], cell.value)];
        cells := cells + [cell.value];
      }
      assert cells + [] == cells;
      assert row == ConvertRow(converters, cells);
      r := Ok(row);
    }

    method FeedRowPacket(p: Bytes) returns (r: Result<FeedResult>)
      modifies this
      ensures (Snapshot(), r) == FeedRow(old(Snapshot()), p)
    {
      var eof := CheckPacketIsEof(p);
      if eof.Err? {
        return Err(eof.error);
      }
      if eof.value {
        phase := Done;
        return Ok(Finished);
      }
      var row := ReadRowFromPacket(p);
      if row.Err? {
        return Err(row.error);
      }
      rows := Some((if rows.Some? then rows.value else []) + [row.value]);
      r := Ok(NeedMore);
    }

    /** The next row of an unbuffered result. */
    method ReadRowdataPacketUnbuffered(p: Bytes) returns (r: Result<Option<Row>>)
      modifies this
      ensures (Snapshot(), r) == FeedUnbufferedRow(old(Snapshot()), p)
    {
      if !unbufferedActive {
        return Ok(None);
      }
      var eof := CheckPacketIsEof(p);
      if eof.Err? {
        return Err(eof.error);
      }
      if eof.value {
        unbufferedActive := false;
        phase := Done;
        return Ok(None);
      }
      affectedRows := 1;
      var row := ReadRowFromPacket(p);
      if row.Err? {
        return Err(row.error);
      }
      rows := Some([row.value]);
      r := Ok(Some(row.value));
    }

    /** Reads packets from the stream's queue until the response is complete or the columns are known. */
    method ReadFrom(stream: Stream, conn: Conn) returns (r: Result<()>)
      requires Inv(Snapshot())
      modifies this, stream`recvQueue
      ensures (Snapshot(), stream.recvQueue, r) == Drive(old(Snapshot()), old(stream.recvQueue), conn)
      ensures Inv(Snapshot())
    {
      while true
        invariant Inv(Snapshot())
        invariant Drive(Snapshot(), stream.recvQueue, conn) == Drive(old(Snapshot()), old(stream.recvQueue), conn)
        decreases |stream.recvQueue|
      {
        var p := stream.ReadPacket();
        if p.Err? {
          return Err(p.error);
        }
        var fed := FeedPacket(p.value, conn);
        if fed.Err? {
          return Err(fed.error);
        }
        if fed.value != NeedMore {
          return Ok(());
        }
      }
    }

    /** Throws away the remaining rows of an unbuffered result. */
    method FinishUnbufferedQuery(stream: Stream) returns (r: Result<()>)
      modifies this, stream`recvQueue
      ensures (Snapshot(), stream.recvQueue, r) == Drain(old(Snapshot()), old(stream.recvQueue))
    {
      while unbufferedActive
        invariant Drain(Snapshot(), stream.recvQueue) == Drain(old(Snapshot()), old(stream.recvQueue))
        decreases unbufferedActive, |stream.recvQueue|
      {
        var p := stream.ReadPacket();
        if p.Err? {
          return Err(p.error);
        }
        var eof := CheckPacketIsEof(p.value);
        if eof.Err? {
          return Err(eof.error);
        }
        if eof.value {
          unbufferedActive := false;
          phase := Done;
        }
      }
      r := Ok(());
    }
  }
}
