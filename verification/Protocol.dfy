/** Packet cursors, packet kinds, length-encoded values, rows and column definitions. */
module Protocol {
  import opened Bytes
  import Framing

  // ---------------------------------------------------------------- packet kinds

  predicate StartsWith(p: Bytes, c: byte) { p != [] && p[0] == c }

  predicate IsOkPacket(p: Bytes) { StartsWith(p, 0) && |p| >= 7 }
  predicate IsEofPacket(p: Bytes) { StartsWith(p, 0xFE) && |p| < 9 }
  predicate IsAuthSwitchRequest(p: Bytes) { StartsWith(p, 0xFE) && |p| >= 8 }
  predicate IsExtraAuthData(p: Bytes) { StartsWith(p, 1) }
  predicate IsLoadLocalPacket(p: Bytes) { StartsWith(p, 0xFB) }
  predicate IsErrorPacket(p: Bytes) { Framing.IsErrorPacket(p) }

  // ---------------------------------------------------------------- reading at a position

  /** A read at a cursor: a value and the new position, or a malformed packet (with the position it leaves). */
  datatype Read<+T> = Got(value: T, pos: nat) | Bad(pos: nat) {
    predicate IsFailure() { Bad? }
    function PropagateFailure<U>(): Read<U>
      requires Bad?
    {
      Bad(pos)
    }
    function Extract(): (T, nat)
      requires Got?
    {
      (value, pos)
    }
  }

  function ReadAt(d: Bytes, pos: nat, size: nat): (r: Read<Bytes>)
    ensures r.Got? ==> r.pos <= |d|
  {
    if pos + size > |d| then Bad(pos) else Got(d[pos..pos + size], pos + size)
  }

  function ReadUintAt(d: Bytes, pos: nat, width: nat): (r: Read<nat>)
    ensures r.Got? ==> r.pos <= |d|
  {
    var (b, p) :- ReadAt(d, pos, width);
    Got(FromLittleEndian(b), p)
  }

  const NULL_COLUMN: byte := 251

  /** A length-encoded integer; `None` is the NULL marker. */
  function ReadLenencIntAt(d: Bytes, pos: nat): (r: Read<Option<nat>>)
    ensures r.Got? ==> r.pos <= |d|
  {
    var (c, p) :- ReadUintAt(d, pos, 1);
    if c == NULL_COLUMN then Got(None, p)
    else if c < NULL_COLUMN then Got(Some(c), p)
    else if c == 255 then Bad(p)
    else
      var (v, q) :- ReadUintAt(d, p, LenencWidth(c));
      Got(Some(v), q)
  }

  function LenencWidth(c: nat): nat {
    if c == 252 then 2 else if c == 253 then 3 else 8
  }

  function ReadLenencStrAt(d: Bytes, pos: nat): (r: Read<Cell>)
    ensures r.Got? ==> r.pos <= |d|
  {
    var (n, p) :- ReadLenencIntAt(d, pos);
    match n
    case None => Got(Null, p)
    case Some(len) =>
      var (b, q) :- ReadAt(d, p, len);
      Got(Str(b), q)
  }

  // ---------------------------------------------------------------- the cursor

  class MysqlPacket {
    const data: Bytes
    var position: nat

    ghost predicate Valid()
      reads this
    {
      position <= |data|
    }

    constructor (data: Bytes)
      ensures Valid() && this.data == data && position == 0
    {
      this.data, position := data, 0;
    }

    /** The result and the cursor are what the read `want` at the old position says. */
    ghost predicate Follows<T>(r: Result<T>, want: Read<T>)
      reads this
    {
      && position == want.pos
      && r == match want case Got(v, _) => Ok(v) case Bad(_) => Err(InternalError(CR_MALFORMED_PACKET))
    }

    method Read(size: nat) returns (r: Result<Bytes>)
      requires Valid()
      modifies this
      ensures Valid() && Follows(r, ReadAt(data, old(position), size))
    {
      var end := position + size;
      if end > |data| {
        return Err(InternalError(CR_MALFORMED_PACKET));
      }
      r := Ok(data[position..end]);
      position := end;
    }

    method ReadAll() returns (r: Bytes)
      requires Valid()
      modifies this
      ensures Valid() && r == data[old(position)..] && position == |data|
    {
      r := data[position..];
      position := |data|;
    }

    method Advance(length: nat) returns (r: Result<()>)
      requires Valid()
      modifies this
      ensures Valid()
      ensures r.Ok? <==> old(position) + length <= |data|
      ensures position == if r.Ok? then old(position) + length else old(position)
      ensures r.Err? ==> r.error == InternalError(CR_MALFORMED_PACKET)
    {
      if position + length > |data| {
        return Err(InternalError(CR_MALFORMED_PACKET));
      }
      position := position + length;
      r := Ok(());
    }

    /** The fixed-width little-endian reads of 1, 2, 3, 4 and 8 bytes. */
    method ReadUint(width: nat) returns (r: Result<nat>)
      requires Valid()
      modifies this
      ensures Valid() && Follows(r, ReadUintAt(data, old(position), width))
    {
      var b := Read(width);
      r := if b.Err? then Err(b.error) else Ok(FromLittleEndian(b.value));
    }

    method ReadLengthEncodedInteger() returns (r: Result<Option<nat>>)
      requires Valid()
      modifies this
      ensures Valid() && Follows(r, ReadLenencIntAt(data, old(position)))
    {
      var c := ReadUint(1);
      if c.Err? {
        return Err(c.error);
      }
      if c.value == NULL_COLUMN {
        return Ok(None);
      }
      if c.value < NULL_COLUMN {
        return Ok(Some(c.value));
      }
      var v: Result<nat>;
      match c.value {
        case 252 => v := ReadUint(2);
        case 253 => v := ReadUint(3);
        case 254 => v := ReadUint(8);
        case _ =>
          assert c.value == 255 by { HeaderByte(data, old(position)); }
          return Err(InternalError(CR_MALFORMED_PACKET));
      }
      r := if v.Err? then Err(v.error) else Ok(Some(v.value));
    }

    method ReadLengthCodedString() returns (r: Result<Cell>)
      requires Valid()
      modifies this
      ensures Valid() && Follows(r, ReadLenencStrAt(data, old(position)))
    {
      var length := ReadLengthEncodedInteger();
      if length.Err? {
        return Err(length.error);
      }
      match length.value {
        case None => r := Ok(Null);
        case Some(len) =>
          var b := Read(len);
          r := if b.Err? then Err(b.error) else Ok(Str(b.value));
      }
    }
  }

  lemma HeaderByte(d: Bytes, pos: nat)
    ensures ReadUintAt(d, pos, 1).Got? ==> pos < |d| && ReadUintAt(d, pos, 1) == Got(d[pos], pos + 1)
  {
    if pos < |d| {
      var b := d[pos..pos + 1];
      assert b == [d[pos]] && b[1..] == [];
      assert FromLittleEndian(b) == d[pos] + 256 * FromLittleEndian(b[1..]);
    }
  }

  // ---------------------------------------------------------------- length-encoded integers

  const USIZE_LIMIT: nat := 0x1_0000_0000_0000_0000

  function LenencInt(i: nat): (b: Bytes)
    ensures 0 < |b| <= 9
  {
    if i < 0xFB then [i]
    else if i < 0x1_0000 then [0xFC] + LittleEndian(i, 2)
    else if i < 0x100_0000 then [0xFD] + LittleEndian(i, 3)
    else [0xFE] + LittleEndian(i, 8)
  }

  /** The bytes `code` stand at position `pos` of `d`. */
  predicate At(d: Bytes, pos: nat, code: Bytes) {
    pos + |code| <= |d| && d[pos..pos + |code|] == code
  }

  lemma AtSplit(d: Bytes, pos: nat, a: Bytes, b: Bytes)
    requires At(d, pos, a + b)
    ensures At(d, pos, a) && At(d, pos + |a|, b)
  {
    var c := a + b;
    assert d[pos..pos + |a|] == c[..|a|] == a;
    assert d[pos + |a|..pos + |c|] == c[|a|..] == b;
  }

  lemma ReadUintWritten(d: Bytes, pos: nat, v: nat, width: nat)
    requires v < Pow256(width) && At(d, pos, LittleEndian(v, width))
    ensures ReadUintAt(d, pos, width) == Got(v, pos + width)
  {
    LittleEndianRoundTrip(v, width);
  }

  lemma ReadByteWritten(d: Bytes, pos: nat, c: byte)
    requires At(d, pos, [c])
    ensures ReadUintAt(d, pos, 1) == Got(c, pos + 1)
  {
    HeaderByte(d, pos);
    assert d[pos] == d[pos..pos + 1][0];
  }

  /** Decoding reads back the integer and consumes exactly its code, whatever surrounds it. */
  lemma LenencIntRoundTrip(d: Bytes, pos: nat, i: nat)
    requires i < USIZE_LIMIT && At(d, pos, LenencInt(i))
    ensures ReadLenencIntAt(d, pos) == Got(Some(i), pos + |LenencInt(i)|)
  {
    if i < 0xFB {
      ReadByteWritten(d, pos, i);
    } else {
      PowersOf256();
      var c, w := LenencInt(i)[0], |LenencInt(i)| - 1;
      AtSplit(d, pos, [c], LittleEndian(i, w));
      ReadByteWritten(d, pos, c);
      ReadUintWritten(d, pos + 1, i, w);
    }
  }

  /** No code is a prefix of another. */
  lemma LenencPrefixFree(i: nat, j: nat, x: Bytes, y: Bytes)
    requires i < USIZE_LIMIT && j < USIZE_LIMIT
    requires LenencInt(i) + x == LenencInt(j) + y
    ensures i == j && x == y
  {
    AtStart(LenencInt(i), x);
    AtStart(LenencInt(j), y);
    LenencIntRoundTrip(LenencInt(i) + x, 0, i);
    LenencIntRoundTrip(LenencInt(j) + y, 0, j);
  }

  lemma AtStart(code: Bytes, x: Bytes)
    ensures At(code + x, 0, code) && (code + x)[|code|..] == x
  {
  }

  // ---------------------------------------------------------------- strings and rows

  /** A column value on the wire: NULL or a byte string. */
  datatype Cell = Null | Str(bytes: Bytes)

  predicate Storable(c: Cell) { c.Str? ==> |c.bytes| < USIZE_LIMIT }

  function EncodeCell(c: Cell): (b: Bytes)
    ensures b != []
  {
    match c
    case Null => [NULL_COLUMN]
    case Str(s) => LenencInt(|s|) + s
  }

  function EncodeMany<T>(enc: T -> Bytes, xs: seq<T>): Bytes {
    if xs == [] then [] else enc(xs[0]) + EncodeMany(enc, xs[1..])
  }

  function ReadMany<T>(rd: (Bytes, nat) -> Read<T>, d: Bytes, pos: nat, n: nat): Read<seq<T>>
    decreases n
  {
    if n == 0 then Got([], pos)
    else
      var (x, p) :- rd(d, pos);
      var (xs, q) :- ReadMany(rd, d, p, n - 1);
      Got([x] + xs, q)
  }

  /** Wherever the code of an acceptable value stands, `rd` reads that value and consumes exactly its code. */
  ghost predicate Inverts<T(!new)>(rd: (Bytes, nat) -> Read<T>, enc: T -> Bytes, ok: T -> bool) {
    forall x: T, d: Bytes, pos: nat :: ok(x) && At(d, pos, enc(x)) ==> rd(d, pos) == Got(x, pos + |enc(x)|)
  }

  lemma {:induction false} ManyRoundTrip<T(!new)>(rd: (Bytes, nat) -> Read<T>, enc: T -> Bytes, ok: T -> bool,
                                                  d: Bytes, pos: nat, xs: seq<T>)
    requires Inverts(rd, enc, ok) && (forall i :: 0 <= i < |xs| ==> ok(xs[i])) && At(d, pos, EncodeMany(enc, xs))
    ensures ReadMany(rd, d, pos, |xs|) == Got(xs, pos + |EncodeMany(enc, xs)|)
    decreases |xs|
  {
    if xs != [] {
      var p := pos + |enc(xs[0])|;
      AtSplit(d, pos, enc(xs[0]), EncodeMany(enc, xs[1..]));
      assert ok(xs[0]) && rd(d, pos) == Got(xs[0], p);
      ManyRoundTrip(rd, enc, ok, d, p, xs[1..]);
      ReadManyStep(rd, d, pos, xs, p, pos + |EncodeMany(enc, xs)|);
    }
  }

  lemma ReadManyStep<T>(rd: (Bytes, nat) -> Read<T>, d: Bytes, pos: nat, xs: seq<T>, p: nat, q: nat)
    requires xs != [] && rd(d, pos) == Got(xs[0], p) && ReadMany(rd, d, p, |xs[1..]|) == Got(xs[1..], q)
    ensures ReadMany(rd, d, pos, |xs|) == Got(xs, q)
  {
    assert [xs[0]] + xs[1..] == xs;
  }

  function EncodeRow(row: seq<Cell>): Bytes { EncodeMany(EncodeCell, row) }

  function ReadCells(d: Bytes, pos: nat, n: nat): Read<seq<Cell>> { ReadMany(ReadLenencStrAt, d, pos, n) }

  lemma CellRoundTrip(d: Bytes, pos: nat, c: Cell)
    requires Storable(c) && At(d, pos, EncodeCell(c))
    ensures ReadLenencStrAt(d, pos) == Got(c, pos + |EncodeCell(c)|)
  {
    match c {
      case Null => ReadByteWritten(d, pos, NULL_COLUMN);
      case Str(s) =>
        AtSplit(d, pos, LenencInt(|s|), s);
        LenencIntRoundTrip(d, pos, |s|);
        StringAfterLength(d, pos, s, pos + |LenencInt(|s|)|);
    }
  }

  lemma StringAfterLength(d: Bytes, pos: nat, s: Bytes, p: nat)
    requires ReadLenencIntAt(d, pos) == Got(Some(|s|), p) && At(d, p, s)
    ensures ReadLenencStrAt(d, pos) == Got(Str(s), p + |s|)
  {
  }

  predicate StorableRow(row: seq<Cell>) {
    forall i :: 0 <= i < |row| ==> Storable(row[i])
  }

  lemma CellsInvert()
    ensures Inverts(ReadLenencStrAt, EncodeCell, Storable)
  {
    forall c: Cell, d: Bytes, pos: nat | Storable(c) && At(d, pos, EncodeCell(c))
      ensures ReadLenencStrAt(d, pos) == Got(c, pos + |EncodeCell(c)|)
    {
      CellRoundTrip(d, pos, c);
    }
  }

  /** Any row of NULLs and byte strings reads back as itself and consumes exactly its bytes. */
  lemma RowRoundTrip(d: Bytes, pos: nat, row: seq<Cell>)
    requires StorableRow(row) && At(d, pos, EncodeRow(row))
    ensures ReadCells(d, pos, |row|) == Got(row, pos + |EncodeRow(row)|)
  {
    CellsInvert();
    ManyRoundTrip(ReadLenencStrAt, EncodeCell, Storable, d, pos, row);
  }

  /** A row packet is never mistaken for the end of the rows or for an error. */
  lemma RowIsNotAControlPacket(row: seq<Cell>)
    requires StorableRow(row)
    ensures !IsEofPacket(EncodeRow(row)) && !IsErrorPacket(EncodeRow(row))
  {
    if row != [] {
      var code := EncodeCell(row[0]);
      assert EncodeRow(row)[0] == code[0] && |EncodeRow(row)| >= |code|;
      if row[0].Str? {
        assert code[0] == LenencInt(|row[0].bytes|)[0];
      }
    }
  }

  // ---------------------------------------------------------------- column definitions

  /** Text decoded from the wire, kept as the bytes and the character set they are read in. */
  datatype Text = Text(encoding: string, bytes: Bytes)

  datatype Field = Field(
    catalog: Cell, db: Cell, tableName: Text, orgTable: Text, name: Text, orgName: Text,
    charsetnr: nat, length: nat, typeCode: nat, flags: nat, scale: nat)

  function DecodeOrEmpty(c: Cell, encoding: string): Text {
    Text(encoding, if c.Str? then c.bytes else [])
  }

  /** The filler byte and the fixed-width values of a column definition. */
  datatype Tail = Tail(charsetnr: nat, length: nat, typeCode: nat, flags: nat, scale: nat)

  function ParseTailAt(d: Bytes, p: nat): Read<Tail> {
    var (filler, p0) :- ReadUintAt(d, p, 1);
    if filler != 0x0C then Bad(p0)
    else
      var (charsetnr, p1) :- ReadUintAt(d, p0, 2);
      var (length, p2) :- ReadUintAt(d, p1, 4);
      var (typeCode, p3) :- ReadUintAt(d, p2, 1);
      var (flags, p4) :- ReadUintAt(d, p3, 2);
      var (scale, p5) :- ReadUintAt(d, p4, 1);
      Got(Tail(charsetnr, length, typeCode, flags, scale), p5)
  }

  function MakeField(names: seq<Cell>, t: Tail, encoding: string): Field
    requires |names| == 6
  {
    Field(names[0], names[1], DecodeOrEmpty(names[2], encoding), DecodeOrEmpty(names[3], encoding),
          DecodeOrEmpty(names[4], encoding), DecodeOrEmpty(names[5], encoding),
          t.charsetnr, t.length, t.typeCode, t.flags, t.scale)
  }

  function ParseFieldAt(d: Bytes, encoding: string): Read<Field> {
    var (names, p) :- ReadCells(d, 0, 6);
    assert |names| == 6 by { ReadManyLength(ReadLenencStrAt, d, 0, 6); }
    var (tail, q) :- ParseTailAt(d, p);
    Got(MakeField(names, tail, encoding), q)
  }

  function ParseField(d: Bytes, encoding: string): Result<Field> {
    match ParseFieldAt(d, encoding)
    case Got(f, _) => Ok(f)
    case Bad(_) => Err(InternalError(CR_MALFORMED_PACKET))
  }

  lemma {:induction false} ReadManyLength<T>(rd: (Bytes, nat) -> Read<T>, d: Bytes, pos: nat, n: nat)
    ensures ReadMany(rd, d, pos, n).Got? ==> |ReadMany(rd, d, pos, n).value| == n
    decreases n
  {
    if n > 0 && rd(d, pos).Got? {
      ReadManyLength(rd, d, rd(d, pos).pos, n - 1);
    }
  }

  /** A column definition as a server sends it: the strings raw, NULL allowed. */
  datatype ColumnDef = ColumnDef(names: seq<Cell>, charsetnr: nat, length: nat, typeCode: byte, flags: nat, scale: byte)

  predicate ValidColumn(c: ColumnDef) {
    && |c.names| == 6 && StorableRow(c.names)
    && c.charsetnr < 0x1_0000 && c.length < 0x1_0000_0000 && c.flags < 0x1_0000
  }

  function EncodeTail(c: ColumnDef): Bytes {
    [0x0C]
    + (LittleEndian(c.charsetnr, 2)
       + (LittleEndian(c.length, 4) + ([c.typeCode] + (LittleEndian(c.flags, 2) + [c.scale]))))
  }

  /** The column definition packet; bytes after the ones read, such as the two-byte filler, are allowed. */
  function EncodeColumn(c: ColumnDef, trailing: Bytes): Bytes {
    EncodeRow(c.names) + (EncodeTail(c) + trailing)
  }

  function FieldOf(c: ColumnDef, encoding: string): Field
    requires |c.names| == 6
  {
    MakeField(c.names, Tail(c.charsetnr, c.length, c.typeCode, c.flags, c.scale), encoding)
  }

  lemma TailRoundTrip(d: Bytes, p: nat, c: ColumnDef)
    requires ValidColumn(c) && At(d, p, EncodeTail(c))
    ensures ParseTailAt(d, p) == Got(Tail(c.charsetnr, c.length, c.typeCode, c.flags, c.scale), p + 11)
  {
    PowersOf256();
    var t4 := LittleEndian(c.flags, 2) + [c.scale];
    var t3 := [c.typeCode] + t4;
    var t2 := LittleEndian(c.length, 4) + t3;
    var t1 := LittleEndian(c.charsetnr, 2) + t2;
    AtSplit(d, p, [0x0C], t1);
    AtSplit(d, p + 1, LittleEndian(c.charsetnr, 2), t2);
    AtSplit(d, p + 3, LittleEndian(c.length, 4), t3);
    AtSplit(d, p + 7, [c.typeCode], t4);
    AtSplit(d, p + 8, LittleEndian(c.flags, 2), [c.scale]);
    ReadByteWritten(d, p, 0x0C);
    ReadUintWritten(d, p + 1, c.charsetnr, 2);
    ReadUintWritten(d, p + 3, c.length, 4);
    ReadByteWritten(d, p + 7, c.typeCode);
    ReadUintWritten(d, p + 8, c.flags, 2);
    ReadByteWritten(d, p + 10, c.scale);
  }

  lemma ColumnParts(a: Bytes, b: Bytes, c: Bytes)
    ensures At(a + (b + c), 0, a) && At(a + (b + c), |a|, b)
  {
  }

  lemma ColumnRoundTrip(c: ColumnDef, trailing: Bytes, encoding: string)
    requires ValidColumn(c)
    ensures ParseField(EncodeColumn(c, trailing), encoding) == Ok(FieldOf(c, encoding))
  {
    var d, n := EncodeColumn(c, trailing), |EncodeRow(c.names)|;
    ColumnParts(EncodeRow(c.names), EncodeTail(c), trailing);
    assert ReadCells(d, 0, 6) == Got(c.names, n) by { RowRoundTrip(d, 0, c.names); }
    TailRoundTrip(d, n, c);
  }

  /** A column definition never looks like an error packet. */
  lemma ColumnIsNotAnError(c: ColumnDef, trailing: Bytes)
    requires ValidColumn(c)
    ensures !IsErrorPacket(EncodeColumn(c, trailing))
  {
    RowIsNotAControlPacket(c.names);
    assert EncodeRow(c.names) != [] && EncodeColumn(c, trailing)[0] == EncodeRow(c.names)[0];
  }
}
