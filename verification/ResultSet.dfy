/** The result reader: a phase machine that turns packets into column definitions and rows. */
module ResultSet {
  import opened Bytes
  import opened Protocol

  /** What the reader needs to know about its connection. */
  datatype Conn = Conn(encoding: string, useUnicode: bool)

  // ---------------------------------------------------------------- values

  const TYPE_JSON: nat := 245

  /** BIT, the BLOB types, STRING, VAR_STRING, VARCHAR and GEOMETRY. */
  const TEXT_TYPES: set<nat> := {16, 252, 251, 250, 254, 249, 253, 15, 255}

  datatype FieldConverter = FieldConverter(encoding: Option<string>, typeCode: nat)

  function BuildConverter(f: Field, conn: Conn): FieldConverter {
    FieldConverter(
      if !conn.useUnicode then None
      else if f.typeCode == TYPE_JSON then Some(conn.encoding)
      else if f.typeCode in TEXT_TYPES then if f.charsetnr == 63 then None else Some(conn.encoding)
      else Some("ascii"),
      f.typeCode)
  }

  /** A column value: NULL, raw bytes, or the decoder for `typeCode` applied to the bytes read as `encoding` text. */
  datatype Value = NullValue | Raw(bytes: Bytes) | Converted(encoding: string, typeCode: nat, bytes: Bytes)

  function Convert(fc: FieldConverter, c: Cell): Value {
    match c
    case Null => NullValue
    case Str(b) => if fc.encoding.Some? then Converted(fc.encoding.value, fc.typeCode, b) else Raw(b)
  }

  type Row = seq<Value>

  function ConvertRow(fcs: seq<FieldConverter>, cells: seq<Cell>): (row: Row)
    requires |fcs| == |cells|
    ensures |row| == |fcs|
  {
    seq(|fcs|, i requires 0 <= i < |fcs| => Convert(fcs[i], cells[i]))
  }

  function DecodeRow(fcs: seq<FieldConverter>, p: Bytes): (r: Result<Row>)
    ensures r.Ok? ==> |r.value| == |fcs|
  {
    match ReadCells(p, 0, |fcs|)
    case Bad(_) => Err(InternalError(CR_MALFORMED_PACKET))
    case Got(cells, _) =>
      assert |cells| == |fcs| by { ReadManyLength(ReadLenencStrAt, p, 0, |fcs|); }
      Ok(ConvertRow(fcs, cells))
  }

  // ---------------------------------------------------------------- OK and EOF packets

  predicate MoreResults(status: nat) { status / 8 % 2 == 1 }

  datatype Eof = Eof(warnings: nat, status: nat)

  function ParseEof(p: Bytes): Result<Eof> {
    if |p| < 5 then Err(InternalError(CR_MALFORMED_PACKET))
    else Ok(Eof(FromLittleEndian(p[1..3]), FromLittleEndian(p[3..5])))
  }

  datatype OkPacket = OkPacket(affected: Option<nat>, insertId: Option<nat>, status: nat, warnings: nat, message: Bytes)

  function ParseOkAt(p: Bytes): Read<OkPacket> {
    var (affected, p1) :- ReadLenencIntAt(p, 1);
    var (insertId, p2) :- ReadLenencIntAt(p, p1);
    var (status, p3) :- ReadUintAt(p, p2, 2);
    var (warnings, p4) :- ReadUintAt(p, p3, 2);
    Got(OkPacket(affected, insertId, status, warnings, p[p4..]), |p|)
  }

  /** The wrapping conversion of a 64-bit count to a signed one. */
  function AsI64(n: nat): int {
    var m := n % USIZE_LIMIT;
    if m < USIZE_LIMIT / 2 then m else m - USIZE_LIMIT
  }

  // ---------------------------------------------------------------- the phase machine

  datatype Phase = Initial | Descriptions | Rows | UnbufferedReady | Done

  datatype FeedResult = NeedMore | Finished | Ready

  datatype Reader = Reader(
    phase: Phase,
    fieldCount: nat,
    fields: seq<Field>,
    converters: seq<FieldConverter>,
    rows: Option<seq<Row>>,
    affectedRows: int,
    insertId: Option<nat>,
    serverStatus: Option<nat>,
    warningCount: nat,
    message: Option<Bytes>,
    hasNext: bool,
    unbuffered: bool)

  function New(unbuffered: bool): Reader {
    Reader(Initial, 0, [], [], None, 0, None, None, 0, None, false, unbuffered)
  }

  function WithEof(r: Reader, e: Eof): Reader {
    r.(warningCount := e.warnings, hasNext := MoreResults(e.status), serverStatus := Some(e.status))
  }

  function WithRow(r: Reader, row: Row): Reader {
    r.(rows := Some((if r.rows.Some? then r.rows.value else []) + [row]))
  }

  function WithOk(r: Reader, ok: OkPacket): Reader {
    r.(affectedRows := AsI64(if ok.affected.Some? then ok.affected.value else 0), insertId := ok.insertId,
       serverStatus := Some(ok.status), warningCount := ok.warnings, message := Some(ok.message),
       hasNext := MoreResults(ok.status), phase := Done)
  }

  function FeedOk(r: Reader, p: Bytes): (Reader, Result<FeedResult>) {
    match ParseOkAt(p)
    case Bad(_) => (r, Err(InternalError(CR_MALFORMED_PACKET)))
    case Got(ok, _) => (WithOk(r, ok), Ok(Finished))
  }

  function FeedInitial(r: Reader, p: Bytes): (Reader, Result<FeedResult>) {
    if IsOkPacket(p) then FeedOk(r, p)
    else if IsLoadLocalPacket(p) then
      (r, Err(OperationalError(CR_LOAD_DATA_LOCAL_INFILE_REJECTED)))
    else
      match ReadLenencIntAt(p, 0)
      case Bad(_) => (r, Err(InternalError(CR_MALFORMED_PACKET)))
      case Got(n, _) =>
        (r.(fieldCount := if n.Some? then n.value else 0, fields := [], converters := [], rows := None,
            phase := Descriptions), Ok(NeedMore))
  }

  function FeedDescription(r: Reader, p: Bytes, conn: Conn): (Reader, Result<FeedResult>) {
    if |r.fields| < r.fieldCount then
      match ParseField(p, conn.encoding)
      case Err(e) => (r, Err(e))
      case Ok(f) => (r.(converters := r.converters + [BuildConverter(f, conn)], fields := r.fields + [f]), Ok(NeedMore))
    else if !IsEofPacket(p) then (r, Err(InternalError(CR_MALFORMED_PACKET)))
    else match ParseEof(p)
      case Err(e) => (r, Err(e))
      case Ok(e) =>
        if r.unbuffered then (WithEof(r, e).(phase := UnbufferedReady), Ok(Ready))
        else (WithEof(r, e).(phase := Rows), Ok(NeedMore))
  }

  function CheckEof(r: Reader, p: Bytes): (Reader, Result<bool>) {
    if !IsEofPacket(p) then (r, Ok(false))
    else match ParseEof(p)
      case Err(e) => (r, Err(e))
      case Ok(e) => (WithEof(r, e), Ok(true))
  }

  function FeedRow(r: Reader, p: Bytes): (Reader, Result<FeedResult>) {
    var (r1, eof) := CheckEof(r, p);
    if eof.Err? then (r1, Err(eof.error))
    else if eof.value then (r1.(phase := Done), Ok(Finished))
    else match DecodeRow(r1.converters, p)
      case Err(e) => (r1, Err(e))
      case Ok(row) => (WithRow(r1, row), Ok(NeedMore))
  }

  function Feed(r: Reader, p: Bytes, conn: Conn): (Reader, Result<FeedResult>) {
    match r.phase
    case Initial => FeedInitial(r, p)
    case Descriptions => FeedDescription(r, p, conn)
    case Rows => FeedRow(r, p)
    case UnbufferedReady => FeedRow(r, p)
    case Done => (r, Ok(Finished))
  }

  /** One row of an unbuffered result; `None` at the end. */
  function FeedUnbufferedRow(r: Reader, p: Bytes): (Reader, Result<Option<Row>>) {
    if !r.unbuffered then (r, Ok(None))
    else
      var (r1, eof) := CheckEof(r, p);
      if eof.Err? then (r1, Err(eof.error))
      else if eof.value then (r1.(unbuffered := false, phase := Done), Ok(None))
      else
        var r2 := r1.(affectedRows := 1);
        match DecodeRow(r2.converters, p)
        case Err(e) => (r2, Err(e))
        case Ok(row) => (r2.(rows := Some([row])), Ok(Some(row)))
  }

  // ---------------------------------------------------------------- invariant

  function Rank(p: Phase): nat {
    match p
    case Initial => 0
    case Descriptions => 1
    case Rows => 2
    case UnbufferedReady => 2
    case Done => 3
  }

  predicate Inv(r: Reader) {
    && |r.converters| == |r.fields| <= r.fieldCount
    && (r.phase == Initial ==> r.fieldCount == 0)
    && (Rank(r.phase) >= 2 ==> |r.fields| == r.fieldCount)
    && (Rank(r.phase) < 2 ==> r.rows == None)
    && (r.rows.Some? ==> forall i :: 0 <= i < |r.rows.value| ==> |r.rows.value[i]| == r.fieldCount)
  }

  lemma InitialKeepsInv(r: Reader, p: Bytes)
    requires Inv(r) && r.phase == Initial
    ensures var (r', res) := FeedInitial(r, p); Inv(r') && (res.Err? ==> r' == r)
  {
  }

  lemma DescriptionKeepsInv(r: Reader, p: Bytes, conn: Conn)
    requires Inv(r) && r.phase == Descriptions
    ensures var (r', res) := FeedDescription(r, p, conn); Inv(r') && Rank(r'.phase) >= 1 && (res.Err? ==> r' == r)
  {
  }

  lemma RowKeepsInv(r: Reader, p: Bytes)
    requires Inv(r) && Rank(r.phase) == 2
    ensures var (r', res) := FeedRow(r, p); Inv(r') && Rank(r'.phase) >= 2 && (res.Err? ==> r' == r)
  {
  }

  /** One packet keeps the invariant and never moves the phase backward; an error changes nothing. */
  lemma FeedKeepsInv(r: Reader, p: Bytes, conn: Conn)
    requires Inv(r)
    ensures Inv(Feed(r, p, conn).0)
    ensures Rank(r.phase) <= Rank(Feed(r, p, conn).0.phase)
    ensures r.phase == Done ==> Feed(r, p, conn) == (r, Ok(Finished))
    ensures Feed(r, p, conn).1.Err? ==> Feed(r, p, conn).0 == r
  {
    match r.phase
    case Initial => InitialKeepsInv(r, p);
    case Descriptions => DescriptionKeepsInv(r, p, conn);
    case Rows => RowKeepsInv(r, p);
    case UnbufferedReady => RowKeepsInv(r, p);
    case Done =>
  }

  /** Feed packets one after another, going on after errors. */
  function FeedMany(r: Reader, ps: seq<Bytes>, conn: Conn): Reader
    decreases |ps|
  {
    if ps == [] then r else FeedMany(Feed(r, ps[0], conn).0, ps[1..], conn)
  }

  /**
    * The reader invariant over arbitrary packet sequences, errors included: converters and fields stay in
    * step, never above the announced count and equal to it once rows begin; every stored row has exactly
    * that many values; the phase never moves backward; and a finished reader does not change.
    */
  lemma {:induction false} ReaderInvariant(r: Reader, ps: seq<Bytes>, conn: Conn)
    requires Inv(r)
    ensures Inv(FeedMany(r, ps, conn))
    ensures Rank(r.phase) <= Rank(FeedMany(r, ps, conn).phase)
    ensures r.phase == Done ==> FeedMany(r, ps, conn) == r
    decreases |ps|
  {
    if ps != [] {
      FeedKeepsInv(r, ps[0], conn);
      ReaderInvariant(Feed(r, ps[0], conn).0, ps[1..], conn);
    }
  }

  lemma FreshReaderInvariant(unbuffered: bool, ps: seq<Bytes>, conn: Conn)
    ensures Inv(FeedMany(New(unbuffered), ps, conn))
  {
    ReaderInvariant(New(unbuffered), ps, conn);
  }

  // ---------------------------------------------------------------- reading from a queue

  /** The reading loop: feed packets from the queue until the response is complete or the columns are known. */
  function Drive(r: Reader, q: seq<Bytes>, conn: Conn): (Reader, seq<Bytes>, Result<()>)
    decreases |q|
  {
    if q == [] then (r, q, Err(NeedMoreData))
    else match Feed(r, q[0], conn)
      case (r', Err(e)) => (r', q[1..], Err(e))
      case (r', Ok(NeedMore)) => Drive(r', q[1..], conn)
      case (r', Ok(_)) => (r', q[1..], Ok(()))
  }

  /** The next unbuffered row; `None` once the result is exhausted. */
  function NextRow(r: Reader, q: seq<Bytes>): (Reader, seq<Bytes>, Result<Option<Row>>) {
    if !r.unbuffered then (r, q, Ok(None))
    else if q == [] then (r, q, Err(NeedMoreData))
    else
      var (r', row) := FeedUnbufferedRow(r, q[0]);
      (r', q[1..], row)
  }

  /** Fetch rows until the end. */
  function FetchAll(r: Reader, q: seq<Bytes>): (Reader, seq<Bytes>, Result<seq<Row>>)
    decreases |q|
  {
    match NextRow(r, q)
    case (r', q', Err(e)) => (r', q', Err(e))
    case (r', q', Ok(None)) => (r', q', Ok([]))
    case (r', q', Ok(Some(row))) =>
      match FetchAll(r', q')
      case (r'', q'', Ok(rows)) => (r'', q'', Ok([row] + rows))
      case (r'', q'', Err(e)) => (r'', q'', Err(e))
  }

  /** Fetch `n` rows, or fewer if the result ends. */
  function FetchSome(r: Reader, q: seq<Bytes>, n: nat): (Reader, seq<Bytes>, Result<()>)
    decreases n
  {
    if n == 0 then (r, q, Ok(()))
    else match NextRow(r, q)
      case (r', q', Err(e)) => (r', q', Err(e))
      case (r', q', Ok(None)) => (r', q', Ok(()))
      case (r', q', Ok(Some(_))) => FetchSome(r', q', n - 1)
  }

  /** Throw away the remaining rows without decoding them. */
  function Drain(r: Reader, q: seq<Bytes>): (Reader, seq<Bytes>, Result<()>)
    decreases |q|
  {
    if !r.unbuffered then (r, q, Ok(()))
    else if q == [] then (r, q, Err(NeedMoreData))
    else match CheckEof(r, q[0])
      case (r', Err(e)) => (r', q[1..], Err(e))
      case (r', Ok(true)) => (r'.(unbuffered := false, phase := Done), q[1..], Ok(()))
      case (r', Ok(false)) => Drain(r', q[1..])
  }
}
