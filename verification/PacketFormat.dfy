/** How packets are recognised and read, in terms of the bytes themselves. */
module PacketFormat {
  import opened Bytes
  import opened Protocol
  import opened ResultSet
  import W = WireFormat

  // ---------------------------------------------------------------- length-encoded values

  /** The four forms of a length-encoded integer. */
  lemma LenencBytes(i: nat)
    ensures LenencInt(i) ==
            if i < 251 then [i]
            else if i < 65536 then [252, i % 256, i / 256 % 256]
            else if i < 0x100_0000 then [253, i % 256, i / 256 % 256, i / 65536 % 256]
            else [254, i % 256, i / 256 % 256, i / 65536 % 256, i / 0x100_0000 % 256]
                 + LittleEndian(i / 0x1_0000_0000, 4)
  {
    W.TwoBytes(i);
    W.ThreeBytes(i);
    W.FourBytes(i);
    W.EightBytes(i);
  }

  /** How many bytes follow the first one. */
  function Following(c: byte): nat { if c == 252 then 2 else if c == 253 then 3 else if c == 254 then 8 else 0 }

  /** What the first byte decides: a small value, NULL, an error, or the width of the value that follows. */
  lemma LenencExactly(d: Bytes, pos: nat)
    ensures ReadLenencIntAt(d, pos) ==
            if pos >= |d| then Bad(pos)
            else if d[pos] < 251 then Got(Some(d[pos]), pos + 1)
            else if d[pos] == 251 then Got(None, pos + 1)
            else if d[pos] == 255 || pos + 1 + Following(d[pos]) > |d| then Bad(pos + 1)
            else Got(Some(FromLittleEndian(d[pos + 1..pos + 1 + Following(d[pos])])), pos + 1 + Following(d[pos]))
  {
    HeaderByte(d, pos);
  }

  /** A column value: the NULL marker, or as many bytes as announced; anything else is an error. */
  lemma CellExactly(d: Bytes, pos: nat)
    ensures ReadLenencStrAt(d, pos) ==
            match ReadLenencIntAt(d, pos)
            case Bad(p) => Bad(p)
            case Got(None, p) => Got(Null, p)
            case Got(Some(n), p) => if p + n <= |d| then Got(Str(d[p..p + n]), p + n) else Bad(p)
  {
  }

  lemma NullMarker(d: Bytes, pos: nat)
    requires pos < |d|
    ensures ReadLenencStrAt(d, pos) == Got(Null, pos + 1) <==> d[pos] == 251
  {
    LenencExactly(d, pos);
  }

  // ---------------------------------------------------------------- packets, phase by phase

  function Pair(lo: int, hi: int): int { lo + 256 * hi }

  lemma ReadPair(a: byte, b: byte)
    ensures FromLittleEndian([a, b]) == Pair(a, b)
  {
    assert [a, b][1..] == [b] && [b][1..] == [];
    assert FromLittleEndian([b]) == b;
  }

  /** Where a response starts: an OK packet, a request for a file, a column count, or an error. */
  lemma InitialExactly(r: Reader, p: Bytes, conn: Conn)
    requires r.phase == Initial
    ensures var (r', res) := Feed(r, p, conn);
            if p == [] || p[0] == 255 then r' == r && res == Err(InternalError(2027))
            else if p[0] == 0 && |p| >= 7 then (r', res) == FeedOk(r, p)
            else if p[0] == 251 then r' == r && res == Err(OperationalError(2068))
            else if p[0] < 251 then
              && res == Ok(NeedMore)
              && r' == r.(fieldCount := p[0], fields := [], converters := [], rows := None, phase := Descriptions)
            else if |p| < 1 + Following(p[0]) then r' == r && res == Err(InternalError(2027))
            else
              && res == Ok(NeedMore) && r'.fieldCount == FromLittleEndian(p[1..1 + Following(p[0])])
              && r' == r.(fieldCount := r'.fieldCount, fields := [], converters := [], rows := None,
                          phase := Descriptions)
  {
    LenencExactly(p, 0);
  }

  /** An OK packet whose row count is NULL counts no rows; a malformed one changes nothing. */
  lemma OkWithoutCount(r: Reader, p: Bytes)
    ensures match ParseOkAt(p)
            case Bad(_) => FeedOk(r, p) == (r, Err(InternalError(2027)))
            case Got(ok, _) =>
              && FeedOk(r, p).1 == Ok(Finished) && FeedOk(r, p).0.phase == Done
              && (ok.affected == None ==> FeedOk(r, p).0.affectedRows == 0)
  {
  }

  predicate IsEndMarker(p: Bytes) { 1 <= |p| < 9 && p[0] == 0xFE }

  /** What an end marker tells: two bytes of warnings, two of status, of which bit 3 announces more results. */
  predicate Told(r: Reader, r': Reader, p: Bytes, phase: Phase)
    requires |p| >= 5
  {
    && r' == r.(warningCount := r'.warningCount, serverStatus := r'.serverStatus, hasNext := r'.hasNext, phase := phase)
    && r'.warningCount == Pair(p[1], p[2]) && r'.serverStatus == Some(Pair(p[3], p[4]))
    && (r'.hasNext <==> p[3] / 8 % 2 == 1)
  }

  lemma EndMarker(r: Reader, p: Bytes)
    requires IsEndMarker(p)
    ensures if |p| < 5 then CheckEof(r, p) == (r, Err(InternalError(2027)))
            else CheckEof(r, p).1 == Ok(true) && Told(r, CheckEof(r, p).0, p, r.phase)
  {
    if |p| >= 5 {
      assert p[1..3] == [p[1], p[2]] && p[3..5] == [p[3], p[4]];
      ReadPair(p[1], p[2]);
      ReadPair(p[3], p[4]);
      BitThree(p[3], p[4]);
    }
  }

  lemma BitThree(lo: byte, hi: byte)
    ensures Pair(lo, hi) / 8 % 2 == lo / 8 % 2
  {
    assert Pair(lo, hi) == lo + 8 * (32 * hi);
    assert Pair(lo, hi) / 8 == lo / 8 + 32 * hi;
  }

  /** After the announced columns only an end marker is accepted; what follows depends on the way of reading. */
  lemma DescriptionsExactly(r: Reader, p: Bytes, conn: Conn)
    requires r.phase == Descriptions && |r.fields| >= r.fieldCount
    ensures var (r', res) := Feed(r, p, conn);
            if !IsEndMarker(p) || |p| < 5 then r' == r && res == Err(InternalError(2027))
            else if r.unbuffered then res == Ok(Ready) && Told(r, r', p, UnbufferedReady)
            else res == Ok(NeedMore) && Told(r, r', p, Rows)
  {
    if IsEndMarker(p) {
      EndMarker(r, p);
    }
  }

  /** Before that every packet is a column definition. */
  lemma ColumnExactly(r: Reader, p: Bytes, conn: Conn)
    requires r.phase == Descriptions && |r.fields| < r.fieldCount
    ensures var (r', res) := Feed(r, p, conn);
            match ParseField(p, conn.encoding)
            case Err(e) => r' == r && res == Err(InternalError(2027))
            case Ok(f) =>
              && res == Ok(NeedMore) && r'.fields == r.fields + [f] && |r'.converters| == |r.converters| + 1
              && r' == r.(fields := r'.fields, converters := r'.converters)
  {
  }

  /** Among the rows an end marker finishes the result, and any other packet is a row of all columns or an error. */
  lemma RowsExactly(r: Reader, p: Bytes, conn: Conn)
    requires r.phase == Rows || r.phase == UnbufferedReady
    ensures var (r', res) := Feed(r, p, conn);
            if IsEndMarker(p) && |p| < 5 then r' == r && res == Err(InternalError(2027))
            else if IsEndMarker(p) then res == Ok(Finished) && Told(r, r', p, Done)
            else match DecodeRow(r.converters, p)
              case Err(_) => r' == r && res == Err(InternalError(2027))
              case Ok(row) =>
                && res == Ok(NeedMore) && r'.rows.Some? && r'.rows.value == Before(r) + [row]
                && r' == r.(rows := r'.rows)
  {
    if IsEndMarker(p) {
      EndMarker(r, p);
    }
  }

  function Before(r: Reader): seq<Row> {
    match r.rows
    case Some(rows) => rows
    case None => []
  }

  /** One unbuffered row at a time: only the last one is kept, and the end marker clears the flag. */
  lemma UnbufferedExactly(r: Reader, p: Bytes)
    requires r.unbuffered
    ensures var (r', res) := FeedUnbufferedRow(r, p);
            if IsEndMarker(p) && |p| < 5 then r' == r && res == Err(InternalError(2027))
            else if IsEndMarker(p) then res == Ok(None) && !r'.unbuffered && Told(r.(unbuffered := false), r', p, Done)
            else match DecodeRow(r.converters, p)
              case Err(_) => r' == r.(affectedRows := 1) && res == Err(InternalError(2027))
              case Ok(row) => res == Ok(Some(row)) && r' == r.(affectedRows := 1, rows := Some([row]))
  {
    if IsEndMarker(p) {
      EndMarker(r, p);
    }
  }
}
