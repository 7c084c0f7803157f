/** Text result sets as a server sends them, and what the reader makes of them. */
module ResultEncoding {
  import opened Bytes
  import opened Protocol
  import opened ResultSet
  import opened ResultAgreement

  datatype ResultData = ResultData(columns: seq<ColumnDef>, rows: seq<seq<Cell>>, afterColumns: Eof, afterRows: Eof)

  predicate ValidEof(e: Eof) { e.warnings < 0x1_0000 && e.status < 0x1_0000 }

  predicate ValidResult(rs: ResultData) {
    && |rs.columns| < USIZE_LIMIT && ValidColumns(rs.columns)
    && ValidRows(rs.rows, |rs.columns|) && ValidEof(rs.afterColumns) && ValidEof(rs.afterRows)
  }

  predicate ValidColumns(cols: seq<ColumnDef>) {
    forall i :: 0 <= i < |cols| ==> ValidColumn(cols[i])
  }

  predicate ValidRows(rows: seq<seq<Cell>>, width: nat) {
    forall i :: 0 <= i < |rows| ==> |rows[i]| == width && StorableRow(rows[i])
  }

  function EncodeEof(e: Eof): Bytes { [0xFE] + (LittleEndian(e.warnings, 2) + LittleEndian(e.status, 2)) }

  function ColumnPackets(cols: seq<ColumnDef>): seq<Bytes> {
    if cols == [] then [] else [EncodeColumn(cols[0], [0, 0])] + ColumnPackets(cols[1..])
  }

  function RowPackets(rows: seq<seq<Cell>>): seq<Bytes> {
    if rows == [] then [] else [EncodeRow(rows[0])] + RowPackets(rows[1..])
  }

  /** Column count, column definitions, EOF, rows, EOF. */
  function Packets(rs: ResultData): seq<Bytes> {
    [LenencInt(|rs.columns|)] +
    (ColumnPackets(rs.columns) + ([EncodeEof(rs.afterColumns)] + (RowPackets(rs.rows) + [EncodeEof(rs.afterRows)])))
  }

  // ---------------------------------------------------------------- what should be read

  function FieldsOf(cols: seq<ColumnDef>, conn: Conn): (fs: seq<Field>)
    requires ValidColumns(cols)
    ensures |fs| == |cols|
  {
    if cols == [] then []
    else assert ValidColumn(cols[0]); [FieldOf(cols[0], conn.encoding)] + FieldsOf(cols[1..], conn)
  }

  function ConvertersOf(cols: seq<ColumnDef>, conn: Conn): (fcs: seq<FieldConverter>)
    requires ValidColumns(cols)
    ensures |fcs| == |cols|
  {
    if cols == [] then []
    else
      assert ValidColumn(cols[0]);
      [BuildConverter(FieldOf(cols[0], conn.encoding), conn)] + ConvertersOf(cols[1..], conn)
  }

  function ValuesOf(fcs: seq<FieldConverter>, rows: seq<seq<Cell>>): (vs: seq<Row>)
    requires ValidRows(rows, |fcs|)
    ensures |vs| == |rows| && forall i :: 0 <= i < |rows| ==> vs[i] == ConvertRow(fcs, rows[i])
  {
    if rows == [] then [] else [ConvertRow(fcs, rows[0])] + ValuesOf(fcs, rows[1..])
  }

  function WithRows(r: Reader, rows: seq<Row>): Reader {
    if rows == [] then r else r.(rows := Some(RowsOf(r) + rows))
  }

  lemma WithRowsStep(r: Reader, v: Row, vs: seq<Row>)
    ensures WithRows(WithRow(r, v), vs) == WithRows(r, [v] + vs)
  {
    Associative(RowsOf(r), [v], vs);
    assert [v] + [] == [v];
  }

  // ---------------------------------------------------------------- single packets

  lemma EofRoundTrip(e: Eof)
    requires ValidEof(e)
    ensures IsEofPacket(EncodeEof(e)) && ParseEof(EncodeEof(e)) == Ok(e) && !IsErrorPacket(EncodeEof(e))
  {
    PowersOf256();
    LittleEndianRoundTrip(e.warnings, 2);
    LittleEndianRoundTrip(e.status, 2);
    var p := EncodeEof(e);
    assert p[1..3] == LittleEndian(e.warnings, 2) && p[3..5] == LittleEndian(e.status, 2);
  }

  /** The answer to a statement without rows. */
  datatype OkData = OkData(affected: nat, insertId: nat, status: nat, warnings: nat, message: Bytes)

  predicate ValidOk(k: OkData) {
    k.affected < USIZE_LIMIT && k.insertId < USIZE_LIMIT && k.status < 0x1_0000 && k.warnings < 0x1_0000
  }

  function OkCounters(k: OkData): Bytes
    requires ValidOk(k)
  {
    LittleEndian(k.status, 2) + (LittleEndian(k.warnings, 2) + k.message)
  }

  function EncodeOk(k: OkData): Bytes
    requires ValidOk(k)
  {
    [0] + (LenencInt(k.affected) + (LenencInt(k.insertId) + OkCounters(k)))
  }

  /** The parts of an OK packet stand at their places. */
  predicate OkAt(d: Bytes, k: OkData, p1: nat, p2: nat)
    requires ValidOk(k)
  {
    && p1 == 1 + |LenencInt(k.affected)| && p2 == p1 + |LenencInt(k.insertId)| && |d| == p2 + 4 + |k.message|
    && d[0] == 0 && At(d, 1, LenencInt(k.affected)) && At(d, p1, LenencInt(k.insertId))
    && At(d, p2, LittleEndian(k.status, 2)) && At(d, p2 + 2, LittleEndian(k.warnings, 2)) && d[p2 + 4..] == k.message
  }

  lemma OkLayout(k: OkData)
    requires ValidOk(k)
    ensures var p1 := 1 + |LenencInt(k.affected)|; OkAt(EncodeOk(k), k, p1, p1 + |LenencInt(k.insertId)|)
  {
    var d := EncodeOk(k);
    var t3 := LittleEndian(k.warnings, 2) + k.message;
    var t1 := LenencInt(k.insertId) + OkCounters(k);
    var p1 := 1 + |LenencInt(k.affected)|;
    var p2 := p1 + |LenencInt(k.insertId)|;
    AtWhole(d);
    AtSplit(d, 0, [0], LenencInt(k.affected) + t1);
    AtSplit(d, 1, LenencInt(k.affected), t1);
    AtSplit(d, p1, LenencInt(k.insertId), OkCounters(k));
    AtSplit(d, p2, LittleEndian(k.status, 2), t3);
    AtSplit(d, p2 + 2, LittleEndian(k.warnings, 2), k.message);
  }

  lemma OkParses(d: Bytes, k: OkData, p1: nat, p2: nat)
    requires ValidOk(k) && OkAt(d, k, p1, p2)
    ensures ParseOkAt(d) == Got(OkPacket(Some(k.affected), Some(k.insertId), k.status, k.warnings, k.message), |d|)
  {
    PowersOf256();
    LenencIntRoundTrip(d, 1, k.affected);
    LenencIntRoundTrip(d, p1, k.insertId);
    ReadUintWritten(d, p2, k.status, 2);
    ReadUintWritten(d, p2 + 2, k.warnings, 2);
  }

  lemma OkRoundTrip(k: OkData)
    requires ValidOk(k)
    ensures IsOkPacket(EncodeOk(k)) && !IsErrorPacket(EncodeOk(k))
    ensures ParseOkAt(EncodeOk(k)) ==
            Got(OkPacket(Some(k.affected), Some(k.insertId), k.status, k.warnings, k.message), |EncodeOk(k)|)
  {
    var p1 := 1 + |LenencInt(k.affected)|;
    OkLayout(k);
    OkParses(EncodeOk(k), k, p1, p1 + |LenencInt(k.insertId)|);
  }

  lemma AtWhole(d: Bytes)
    ensures At(d, 0, d)
  {
    assert d[..|d|] == d;
  }

  /** The reader after the answer `k`. */
  function AfterOk(r: Reader, k: OkData): Reader {
    WithOk(r, OkPacket(Some(k.affected), Some(k.insertId), k.status, k.warnings, k.message))
  }

  lemma FeedEncodedOk(r: Reader, k: OkData, conn: Conn)
    requires ValidOk(k) && r.phase == Initial
    ensures Feed(r, EncodeOk(k), conn) == (AfterOk(r, k), Ok(Finished))
  {
    OkRoundTrip(k);
  }

  lemma SignedExactly(n: nat)
    requires n < USIZE_LIMIT
    ensures AsI64(n) == if n < 0x8000_0000_0000_0000 then n else n - 0x1_0000_0000_0000_0000
  {
  }

  /** An OK packet is read exactly, one packet is consumed, and an unbuffered reader keeps its flag. */
  lemma ReadOk(k: OkData, unbuffered: bool, q: seq<Bytes>, conn: Conn)
    requires ValidOk(k)
    ensures var (r, rest, res) := Drive(New(unbuffered), [EncodeOk(k)] + q, conn);
            && rest == q && res == Ok(()) && r.phase == Done && r.unbuffered == unbuffered && r.rows == None
            && r.insertId == Some(k.insertId) && r.serverStatus == Some(k.status) && r.warningCount == k.warnings
            && r.message == Some(k.message) && (r.hasNext <==> k.status / 8 % 2 == 1)
            && r.affectedRows == if k.affected < 0x8000_0000_0000_0000 then k.affected
                                 else k.affected - 0x1_0000_0000_0000_0000
  {
    FeedEncodedOk(New(unbuffered), k, conn);
    DriveStep(New(unbuffered), EncodeOk(k), q, conn);
    SignedExactly(k.affected);
  }

  lemma CountPacket(r: Reader, n: nat, conn: Conn)
    requires r.phase == Initial && n < USIZE_LIMIT
    ensures Feed(r, LenencInt(n), conn) ==
            (r.(fieldCount := n, fields := [], converters := [], rows := None, phase := Descriptions), Ok(NeedMore))
    ensures !IsOkPacket(LenencInt(n)) && !IsErrorPacket(LenencInt(n))
  {
    var p := LenencInt(n);
    assert At(p, 0, p);
    LenencIntRoundTrip(p, 0, n);
    assert !IsOkPacket(p) && !IsLoadLocalPacket(p);
  }

  lemma ColumnPacket(r: Reader, c: ColumnDef, conn: Conn)
    requires r.phase == Descriptions && |r.fields| < r.fieldCount && ValidColumn(c)
    ensures var f := FieldOf(c, conn.encoding);
            Feed(r, EncodeColumn(c, [0, 0]), conn) ==
            (r.(converters := r.converters + [BuildConverter(f, conn)], fields := r.fields + [f]), Ok(NeedMore))
  {
    ColumnRoundTrip(c, [0, 0], conn.encoding);
  }

  lemma DecodeEncodedRow(fcs: seq<FieldConverter>, row: seq<Cell>)
    requires |row| == |fcs| && StorableRow(row)
    ensures DecodeRow(fcs, EncodeRow(row)) == Ok(ConvertRow(fcs, row)) && !IsEofPacket(EncodeRow(row))
  {
    assert At(EncodeRow(row), 0, EncodeRow(row));
    RowRoundTrip(EncodeRow(row), 0, row);
    RowIsNotAControlPacket(row);
  }

  lemma RowPacket(r: Reader, row: seq<Cell>, conn: Conn)
    requires r.phase == Rows && |row| == |r.converters| && StorableRow(row)
    ensures Feed(r, EncodeRow(row), conn) == (WithRow(r, ConvertRow(r.converters, row)), Ok(NeedMore))
  {
    DecodeEncodedRow(r.converters, row);
  }

  // ---------------------------------------------------------------- runs of packets

  lemma DriveStep(r: Reader, p: Bytes, q: seq<Bytes>, conn: Conn)
    ensures Feed(r, p, conn).1 == Ok(NeedMore) ==> Drive(r, [p] + q, conn) == Drive(Feed(r, p, conn).0, q, conn)
    ensures Feed(r, p, conn).1 == Ok(Finished) ==> Drive(r, [p] + q, conn) == (Feed(r, p, conn).0, q, Ok(()))
  {
    assert ([p] + q)[0] == p && ([p] + q)[1..] == q;
  }

  lemma {:induction false} DriveColumns(r: Reader, cols: seq<ColumnDef>, q: seq<Bytes>, conn: Conn)
    requires r.phase == Descriptions && |r.fields| + |cols| <= r.fieldCount
    requires ValidColumns(cols)
    ensures Drive(r, ColumnPackets(cols) + q, conn) ==
            Drive(r.(fields := r.fields + FieldsOf(cols, conn), converters := r.converters + ConvertersOf(cols, conn)),
                  q, conn)
    decreases |cols|
  {
    if cols == [] {
      assert ColumnPackets(cols) + q == q;
      assert r.fields + [] == r.fields && r.converters + [] == r.converters;
    } else {
      var p, later := EncodeColumn(cols[0], [0, 0]), ColumnPackets(cols[1..]) + q;
      Associative([p], ColumnPackets(cols[1..]), q);
      ColumnPacket(r, cols[0], conn);
      DriveStep(r, p, later, conn);
      var r' := Feed(r, p, conn).0;
      DriveColumns(r', cols[1..], q, conn);
      var f := FieldOf(cols[0], conn.encoding);
      Associative(r.fields, [f], FieldsOf(cols[1..], conn));
      Associative(r.converters, [BuildConverter(f, conn)], ConvertersOf(cols[1..], conn));
    }
  }

  lemma {:induction false} DriveRows(r: Reader, rows: seq<seq<Cell>>, q: seq<Bytes>, conn: Conn)
    requires r.phase == Rows && ValidRows(rows, |r.converters|)
    ensures Drive(r, RowPackets(rows) + q, conn) == Drive(WithRows(r, ValuesOf(r.converters, rows)), q, conn)
    decreases |rows|
  {
    if rows == [] {
      assert RowPackets(rows) + q == q;
    } else {
      var p, later := EncodeRow(rows[0]), RowPackets(rows[1..]) + q;
      Associative([p], RowPackets(rows[1..]), q);
      RowPacket(r, rows[0], conn);
      DriveStep(r, p, later, conn);
      var v := ConvertRow(r.converters, rows[0]);
      DriveRows(WithRow(r, v), rows[1..], q, conn);
      WithRowsStep(r, v, ValuesOf(r.converters, rows[1..]));
    }
  }

  lemma DriveColumnsEof(r: Reader, e: Eof, q: seq<Bytes>, conn: Conn)
    requires r.phase == Descriptions && |r.fields| == r.fieldCount && !r.unbuffered && ValidEof(e)
    ensures Drive(r, [EncodeEof(e)] + q, conn) == Drive(WithEof(r, e).(phase := Rows), q, conn)
  {
    EofRoundTrip(e);
    DriveStep(r, EncodeEof(e), q, conn);
  }

  lemma DriveRowsEof(r: Reader, e: Eof, q: seq<Bytes>, conn: Conn)
    requires r.phase == Rows && ValidEof(e)
    ensures Drive(r, [EncodeEof(e)] + q, conn) == (WithEof(r, e).(phase := Done), q, Ok(()))
  {
    EofRoundTrip(e);
    DriveStep(r, EncodeEof(e), q, conn);
  }

  /** The reader's state after reading all of `rs`. */
  function ReadBack(rs: ResultData, conn: Conn): Reader
    requires ValidResult(rs)
  {
    var fcs := ConvertersOf(rs.columns, conn);
    var r := New(false).(fieldCount := |rs.columns|, fields := FieldsOf(rs.columns, conn), converters := fcs,
                         phase := Rows);
    WithEof(WithRows(WithEof(r, rs.afterColumns), ValuesOf(fcs, rs.rows)), rs.afterRows).(phase := Done)
  }

  /** Any encoded result set, in front of any further packets, is read completely and exactly. */
  lemma ReadEncoded(rs: ResultData, q: seq<Bytes>, conn: Conn)
    requires ValidResult(rs)
    ensures Drive(New(false), Packets(rs) + q, conn) == (ReadBack(rs, conn), q, Ok(()))
    ensures Shows(ReadBack(rs, conn), rs, conn)
  {
    ReadBackShows(rs, conn);
    var n := |rs.columns|;
    var end := [EncodeEof(rs.afterRows)] + q;
    var body := [EncodeEof(rs.afterColumns)] + (RowPackets(rs.rows) + end);
    SplitPackets(rs, q);
    CountPacket(New(false), n, conn);
    DriveStep(New(false), LenencInt(n), ColumnPackets(rs.columns) + body, conn);
    var r1 := Feed(New(false), LenencInt(n), conn).0;
    DriveColumns(r1, rs.columns, body, conn);
    var fcs := ConvertersOf(rs.columns, conn);
    assert [] + fcs == fcs && [] + FieldsOf(rs.columns, conn) == FieldsOf(rs.columns, conn);
    var r2 := r1.(fields := FieldsOf(rs.columns, conn), converters := fcs);
    DriveColumnsEof(r2, rs.afterColumns, RowPackets(rs.rows) + end, conn);
    var r3 := WithEof(r2, rs.afterColumns).(phase := Rows);
    DriveRows(r3, rs.rows, end, conn);
    DriveRowsEof(WithRows(r3, ValuesOf(fcs, rs.rows)), rs.afterRows, q, conn);
  }

  lemma SplitPackets(rs: ResultData, q: seq<Bytes>)
    ensures Packets(rs) + q ==
            [LenencInt(|rs.columns|)] +
            (ColumnPackets(rs.columns)
             + ([EncodeEof(rs.afterColumns)] + (RowPackets(rs.rows) + ([EncodeEof(rs.afterRows)] + q))))
  {
    var a, b, c, d, e := [LenencInt(|rs.columns|)], ColumnPackets(rs.columns), [EncodeEof(rs.afterColumns)],
                         RowPackets(rs.rows), [EncodeEof(rs.afterRows)];
    Regroup(a, b, c, d, e, q);
  }

  lemma Regroup<T>(a: seq<T>, b: seq<T>, c: seq<T>, d: seq<T>, e: seq<T>, q: seq<T>)
    ensures (a + (b + (c + (d + e)))) + q == a + (b + (c + (d + (e + q))))
  {
  }

  // ---------------------------------------------------------------- what the values mean

  /** BIT, the BLOB types, STRING, VAR_STRING, VARCHAR and GEOMETRY, by their numbers. */
  predicate IsTextType(t: nat) { t == 15 || t == 16 || 249 <= t <= 255 }

  /** Are the bytes of this column handed over as they are? */
  predicate IsBinary(c: ColumnDef, conn: Conn) {
    !conn.useUnicode || (IsTextType(c.typeCode) && c.charsetnr == 63)
  }

  /** In which character set is the text of this column read? JSON (245) and text types use the connection's. */
  function ReadIn(c: ColumnDef, conn: Conn): string {
    if c.typeCode == 245 || IsTextType(c.typeCode) then conn.encoding else "ascii"
  }

  /** What a client should get for a cell: NULL for NULL, otherwise the cell's own bytes, raw or as text of the type. */
  predicate ValueMeans(v: Value, cell: Cell, c: ColumnDef, conn: Conn) {
    match cell
    case Null => v == NullValue
    case Str(b) => v == if IsBinary(c, conn) then Raw(b) else Converted(ReadIn(c, conn), c.typeCode, b)
  }

  predicate RowMeans(row: Row, cells: seq<Cell>, cols: seq<ColumnDef>, conn: Conn) {
    && |row| == |cells| == |cols|
    && forall j :: 0 <= j < |cols| ==> ValueMeans(row[j], cells[j], cols[j], conn)
  }

  predicate RowsMean(rows: seq<Row>, rs: ResultData, conn: Conn) {
    && |rows| == |rs.rows|
    && forall i :: 0 <= i < |rows| ==> RowMeans(rows[i], rs.rows[i], rs.columns, conn)
  }

  function BytesOrNone(c: Cell): Bytes {
    match c
    case Str(b) => b
    case Null => []
  }

  /** What the reader should know of a column: the six strings in the order of the packet, and the numbers. */
  predicate FieldMeans(f: Field, c: ColumnDef, conn: Conn)
    requires |c.names| == 6
  {
    && f.catalog == c.names[0] && f.db == c.names[1]
    && f.tableName == Text(conn.encoding, BytesOrNone(c.names[2]))
    && f.orgTable == Text(conn.encoding, BytesOrNone(c.names[3]))
    && f.name == Text(conn.encoding, BytesOrNone(c.names[4]))
    && f.orgName == Text(conn.encoding, BytesOrNone(c.names[5]))
    && f.charsetnr == c.charsetnr && f.length == c.length && f.typeCode == c.typeCode && f.flags == c.flags
    && f.scale == c.scale
  }

  /** Everything a client can see of a finished result, said of the result set itself. */
  predicate Shows(r: Reader, rs: ResultData, conn: Conn)
    requires ValidResult(rs)
  {
    && r.phase == Done && RowsMean(RowsOf(r), rs, conn)
    && |r.fields| == |rs.columns| && (forall i :: 0 <= i < |r.fields| ==> FieldMeans(r.fields[i], rs.columns[i], conn))
    && r.serverStatus == Some(rs.afterRows.status) && r.warningCount == rs.afterRows.warnings
    && (r.hasNext <==> rs.afterRows.status / 8 % 2 == 1)
    && r.affectedRows == 0 && r.insertId == None && r.message == None && !r.unbuffered
  }

  lemma FieldReadsBack(c: ColumnDef, trailing: Bytes, conn: Conn)
    requires ValidColumn(c)
    ensures var f := ParseField(EncodeColumn(c, trailing), conn.encoding); f.Ok? && FieldMeans(f.value, c, conn)
  {
    ColumnRoundTrip(c, trailing, conn.encoding);
  }

  lemma {:induction false} FieldsMean(cols: seq<ColumnDef>, conn: Conn)
    requires ValidColumns(cols)
    ensures forall i :: 0 <= i < |cols| ==> FieldMeans(FieldsOf(cols, conn)[i], cols[i], conn)
  {
    if cols != [] {
      FieldReadsBack(cols[0], [], conn);
      ColumnRoundTrip(cols[0], [], conn.encoding);
      FieldsMean(cols[1..], conn);
    }
  }

  lemma {:induction false} ConverterAt(cols: seq<ColumnDef>, conn: Conn, i: nat)
    requires ValidColumns(cols) && i < |cols|
    ensures ConvertersOf(cols, conn)[i] == BuildConverter(FieldOf(cols[i], conn.encoding), conn)
  {
    if i > 0 {
      ConverterAt(cols[1..], conn, i - 1);
    }
  }

  lemma ValueReadsBack(c: ColumnDef, cell: Cell, conn: Conn)
    requires ValidColumn(c)
    ensures ValueMeans(Convert(BuildConverter(FieldOf(c, conn.encoding), conn), cell), cell, c, conn)
  {
  }

  /** A row packet decodes to exactly its cells: NULL or the cell's own bytes, in the form its column asks for. */
  lemma RowReadsBack(cells: seq<Cell>, cols: seq<ColumnDef>, conn: Conn)
    requires ValidColumns(cols) && |cells| == |cols| && StorableRow(cells)
    ensures var row := DecodeRow(ConvertersOf(cols, conn), EncodeRow(cells));
            row.Ok? && RowMeans(row.value, cells, cols, conn)
  {
    var fcs := ConvertersOf(cols, conn);
    DecodeEncodedRow(fcs, cells);
    forall j | 0 <= j < |cols| ensures ValueMeans(ConvertRow(fcs, cells)[j], cells[j], cols[j], conn) {
      ConverterAt(cols, conn, j);
      ValueReadsBack(cols[j], cells[j], conn);
    }
  }

  /** Reading an encoded result set shows exactly that result set. */
  lemma ReadBackShows(rs: ResultData, conn: Conn)
    requires ValidResult(rs)
    ensures Shows(ReadBack(rs, conn), rs, conn)
  {
    var fcs, rows := ConvertersOf(rs.columns, conn), ValuesOf(ConvertersOf(rs.columns, conn), rs.rows);
    FieldsMean(rs.columns, conn);
    forall i | 0 <= i < |rows| ensures RowMeans(rows[i], rs.rows[i], rs.columns, conn) {
      RowReadsBack(rs.rows[i], rs.columns, conn);
      DecodeEncodedRow(fcs, rs.rows[i]);
    }
    assert [] + rows == rows;
  }

  // ---------------------------------------------------------------- transportability

  lemma {:induction false} ColumnPacketsAreNotErrors(cols: seq<ColumnDef>, p: Bytes)
    requires p in ColumnPackets(cols) && ValidColumns(cols)
    ensures !IsErrorPacket(p)
  {
    ColumnIsNotAnError(cols[0], [0, 0]);
    if p != EncodeColumn(cols[0], [0, 0]) {
      ColumnPacketsAreNotErrors(cols[1..], p);
    }
  }

  lemma {:induction false} RowPacketsAreNotErrors(rows: seq<seq<Cell>>, width: nat, p: Bytes)
    requires p in RowPackets(rows) && ValidRows(rows, width)
    ensures !IsErrorPacket(p)
  {
    RowIsNotAControlPacket(rows[0]);
    if p != EncodeRow(rows[0]) {
      RowPacketsAreNotErrors(rows[1..], width, p);
    }
  }

  /** No packet of a result set can be taken for an error packet on the way. */
  lemma PacketsAreNotErrors(rs: ResultData, p: Bytes)
    requires ValidResult(rs) && p in Packets(rs)
    ensures !IsErrorPacket(p)
  {
    CountPacket(New(false), |rs.columns|, Conn("", false));
    EofRoundTrip(rs.afterColumns);
    EofRoundTrip(rs.afterRows);
    if p in ColumnPackets(rs.columns) {
      ColumnPacketsAreNotErrors(rs.columns, p);
    }
    if p in RowPackets(rs.rows) {
      RowPacketsAreNotErrors(rs.rows, |rs.columns|, p);
    }
  }
}
