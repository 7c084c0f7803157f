/** What the transport puts on the wire and makes of it, in terms of the bytes themselves. */
module WireFormat {
  import opened Bytes
  import opened Framing
  import opened Compression
  import opened PacketStream
  import T = Transport

  // ---------------------------------------------------------------- integers and headers

  lemma TwoBytes(v: nat)
    ensures LittleEndian(v, 2) == [v % 256, v / 256 % 256]
  {
    assert LittleEndian(v / 256, 1) == [v / 256 % 256] + LittleEndian(v / 256 / 256, 0);
  }

  lemma ThreeBytes(v: nat)
    ensures LittleEndian(v, 3) == [v % 256, v / 256 % 256, v / 65536 % 256]
  {
    TwoBytes(v / 256);
    assert v / 256 / 256 == v / 65536;
  }

  lemma FourBytes(v: nat)
    ensures LittleEndian(v, 4) == [v % 256, v / 256 % 256, v / 65536 % 256, v / 0x100_0000 % 256]
  {
    ThreeBytes(v / 256);
    assert v / 256 / 65536 == v / 0x100_0000 && v / 256 / 256 == v / 65536;
  }

  lemma EightBytes(v: nat)
    ensures LittleEndian(v, 8) == LittleEndian(v, 4) + LittleEndian(v / 0x1_0000_0000, 4)
  {
    var a, b, c := v / 256, v / 65536, v / 0x100_0000;
    assert a / 256 == b && b / 256 == c && c / 256 == v / 0x1_0000_0000;
    assert LittleEndian(c, 5) == [c % 256] + LittleEndian(v / 0x1_0000_0000, 4);
    assert LittleEndian(b, 6) == [b % 256] + LittleEndian(c, 5);
    assert LittleEndian(a, 7) == [a % 256] + LittleEndian(b, 6);
    FourBytes(v);
  }

  function Three(a: int, b: int, c: int): int { a + 256 * b + 65536 * c }

  lemma ReadThreeBytes(a: byte, b: byte, c: byte)
    ensures FromLittleEndian([a, b, c]) == Three(a, b, c)
  {
    assert [a, b, c][1..] == [b, c] && [b, c][1..] == [c] && [c][1..] == [];
    assert FromLittleEndian([c]) == c;
    assert FromLittleEndian([b, c]) == b + 256 * c;
  }

  /** A payload of less than 2^24-1 bytes: three bytes of length, one of number, and the payload. */
  lemma SingleFrameBytes(p: Bytes, s: byte)
    requires |p| < 0xFF_FFFF
    ensures Frames(p, s) == [|p| % 256, |p| / 256 % 256, |p| / 65536, s] + p && FrameCount(p) == 1
  {
    ThreeBytes(|p|);
  }

  lemma FullHeader(s: byte)
    ensures Header(0xFF_FFFF, s) == [255, 255, 255, s]
  {
    ThreeBytes(0xFF_FFFF);
  }

  /** A longer one: a full frame, and the frames of the rest with the next number modulo 256. */
  lemma LongPayloadBytes(p: Bytes, s: byte)
    requires |p| >= 0xFF_FFFF
    ensures Frames(p, s) == [255, 255, 255, s] + p[..0xFF_FFFF] + Frames(p[0xFF_FFFF..], (s + 1) % 256)
    ensures FrameCount(p) == 1 + FrameCount(p[0xFF_FFFF..])
  {
    FullHeader(s);
  }

  // ---------------------------------------------------------------- what a buffer is parsed to

  function Announced(b: Bytes): int
    requires |b| >= 4
  {
    Three(b[0], b[1], b[2])
  }

  lemma AnnouncedIsRead(b: Bytes)
    requires |b| >= 4
    ensures FrameLen(b) == Announced(b)
  {
    assert b[..3] == [b[0], b[1], b[2]];
    ReadThreeBytes(b[0], b[1], b[2]);
  }

  /** Without a complete frame at the front nothing happens, unless its header already announces too much. */
  lemma IncompleteExactly(b: Bytes, s: byte, max: nat)
    requires |b| < 4 || |b| < 4 + Announced(b)
    ensures ParsePlain(b, s, max) ==
            if |b| >= 4 && Announced(b) > max then Closed(OperationalError(2020), s) else Accepted([], b, s)
  {
    if |b| >= 4 {
      AnnouncedIsRead(b);
    }
  }

  /** A frame with another number than expected closes the stream: as lost if the number is 0, as out of sync if not. */
  lemma WrongNumber(b: Bytes, s: byte, max: nat)
    requires |b| >= 4 && |b| >= 4 + Announced(b) && Announced(b) <= max && b[3] != s
    ensures ParsePlain(b, s, max) == Closed(if b[3] == 0 then OperationalError(2013) else InternalError(2014), s)
  {
    AnnouncedIsRead(b);
  }

  predicate StartsWithErr(p: Bytes) { |p| >= 1 && p[0] == 0xFF }

  /**
    * What becomes of one written payload, in front of any bytes: queued, raised as the server's error if its first
    * byte is 0xFF, or refused as too large.
    */
  lemma PayloadExactly(p: Bytes, s: byte, max: nat, rest: Bytes)
    ensures var r := ParsePlain(Frames(p, s) + rest, s, max);
            var next := SeqPlus(s, FrameCount(p));
            if |p| > max then r.Closed? && r.error == OperationalError(2020)
            else if StartsWithErr(p) then r == Raised([], p, next)
            else r == Prepend([p], ParsePlain(rest, next, max))
  {
    AssembleFrames(p, s, max, [], rest);
    FramesStart(p, s, rest);
    ParseOneWritten(p, s, max, rest);
  }

  /** An ERR packet behind deliverable payloads: those are kept, and the error is raised. */
  lemma ErrorBehindPayloads(ps: seq<Bytes>, e: Bytes, s: byte, max: nat, rest: Bytes)
    requires forall p :: p in ps ==> |p| <= max && !StartsWithErr(p)
    requires |e| <= max && StartsWithErr(e)
    ensures ParsePlain(FramesAll(ps, s) + (Frames(e, SeqAfter(ps, s)) + rest), s, max)
            == Raised(ps, e, SeqPlus(SeqAfter(ps, s), FrameCount(e)))
  {
    ParseWritten(ps, s, max, Frames(e, SeqAfter(ps, s)) + rest);
    PayloadExactly(e, SeqAfter(ps, s), max, rest);
    assert ps + [] == ps;
  }

  /**
    * The same for a feed in plain mode: the error is returned, the packets before it stay in the queue, and the bytes
    * after it are dropped.
    */
  lemma FeedRaises(z: Zlib, st: State, ps: seq<Bytes>, e: Bytes, rest: Bytes, data: Bytes)
    requires T.PlainMode(st) && (forall p :: p in ps ==> |p| <= st.maxAllowed && !StartsWithErr(p))
    requires |e| <= st.maxAllowed && StartsWithErr(e)
    requires st.recvBuffer + data == FramesAll(ps, st.nextSeq) + (Frames(e, SeqAfter(ps, st.nextSeq)) + rest)
    ensures Feed(z, st, data) ==
            (st.(recvQueue := st.recvQueue + ps, recvBuffer := [],
                 nextSeq := SeqPlus(SeqAfter(ps, st.nextSeq), FrameCount(e))), Err(RaisedByServer(e)))
  {
    ErrorBehindPayloads(ps, e, st.nextSeq, st.maxAllowed, rest);
    T.PlainFeed(z, st, data);
  }

  /** And in compressed mode. */
  lemma CompressedFeedRaises(z: Zlib, st: State, ps: seq<Bytes>, e: Bytes, rest: Bytes, pieces: seq<Bytes>, t: Bytes,
                             data: Bytes)
    requires Inverse(z) && st.compressed && Compressible(z, pieces) && Sized(pieces) && !HasCFrame(t)
    requires st.recvBuffer + data == Flatten(CFrames(z, pieces, st.nextCSeq)) + t
    requires (forall p :: p in ps ==> |p| <= st.maxAllowed && !StartsWithErr(p))
    requires |e| <= st.maxAllowed && StartsWithErr(e)
    requires st.decompressed + Flatten(pieces) ==
             FramesAll(ps, st.nextSeq) + (Frames(e, SeqAfter(ps, st.nextSeq)) + rest)
    requires |st.decompressed| + |Flatten(pieces)| <= st.maxAllowed
    ensures var (st', r) := Feed(z, st, data);
            && r == Err(RaisedByServer(e)) && st'.recvQueue == st.recvQueue + ps
            && st'.nextSeq == SeqPlus(SeqAfter(ps, st.nextSeq), FrameCount(e))
            && st'.decompressed == [] && st'.recvBuffer == t && st'.nextCSeq == SeqPlus(st.nextCSeq, |pieces|)
  {
    ErrorBehindPayloads(ps, e, st.nextSeq, st.maxAllowed, rest);
    T.InflateWhole(z, pieces, st.nextCSeq, t, st.decompressed, st.maxAllowed);
  }

  /** In plain mode inflated bytes that are left over are parsed first, and both parses count. */
  lemma PlainFeedWithLeftovers(z: Zlib, st: State, data: Bytes)
    requires !st.compressed
    ensures var a := ParsePlain(st.decompressed, st.nextSeq, st.maxAllowed);
            a.Accepted? ==>
              var b := ParsePlain(st.recvBuffer + data, a.seqId, st.maxAllowed);
              b.Accepted? ==>
                Feed(z, st, data) ==
                (st.(recvQueue := st.recvQueue + a.packets + b.packets, decompressed := a.rest, recvBuffer := b.rest,
                     nextSeq := b.seqId), Ok(|a.packets| + |b.packets|))
  {
  }

  /** A refused stream is emptied, in both directions; only the counters stay. */
  lemma FeedCloses(z: Zlib, st: State, data: Bytes)
    requires T.PlainMode(st) && ParsePlain(st.recvBuffer + data, st.nextSeq, st.maxAllowed).Closed?
    ensures var (st', r) := Feed(z, st, data); var p := ParsePlain(st.recvBuffer + data, st.nextSeq, st.maxAllowed);
            && r == Err(p.error) && st'.sendQueue == [] && st'.recvQueue == [] && st'.recvBuffer == []
            && st'.decompressed == [] && st'.nextSeq == p.seqId && st'.nextCSeq == st.nextCSeq
            && st'.compressed == st.compressed && st'.maxAllowed == st.maxAllowed
  {
    T.PlainFeed(z, st, data);
  }

  // ---------------------------------------------------------------- the compressed layer

  lemma CHeaderBytes(len: nat, c: byte, raw: nat)
    requires len <= 0xFF_FFFF && raw <= 0xFF_FFFF
    ensures CHeader(len, c, raw) ==
            [len % 256, len / 256 % 256, len / 65536, c, raw % 256, raw / 256 % 256, raw / 65536]
  {
    ThreeBytes(len);
    ThreeBytes(raw);
  }

  /**
    * One piece on the wire: the length of the body, the number, the length before compression or 0, and the body. The
    * body is compressed if and only if that makes it shorter.
    */
  lemma CompressedFrameBytes(z: Zlib, piece: Bytes, c: byte)
    requires z.compress(piece).Some? && |piece| <= 0xFF_FFFF
    ensures var x := z.compress(piece).value;
            CFrame(z, piece, c) ==
            if |x| < |piece| then
              [|x| % 256, |x| / 256 % 256, |x| / 65536, c, |piece| % 256, |piece| / 256 % 256, |piece| / 65536] + x
            else [|piece| % 256, |piece| / 256 % 256, |piece| / 65536, c, 0, 0, 0] + piece
  {
    var x := z.compress(piece).value;
    if |x| < |piece| {
      CHeaderBytes(|x|, c, |piece|);
    } else {
      CHeaderBytes(|piece|, c, 0);
    }
  }

  function RawLength(b: Bytes): int
    requires |b| >= 7
  {
    Three(b[4], b[5], b[6])
  }

  predicate Complete(b: Bytes) { |b| >= 7 && |b| >= 7 + Announced(b) }

  lemma CompressedHeaderIsRead(b: Bytes)
    requires |b| >= 7
    ensures CLen(b) == Announced(b) && CRawLen(b) == RawLength(b) && HasCFrame(b) == Complete(b)
  {
    assert b[..3] == [b[0], b[1], b[2]] && b[4..7] == [b[4], b[5], b[6]];
    ReadThreeBytes(b[0], b[1], b[2]);
    ReadThreeBytes(b[4], b[5], b[6]);
  }

  /** Without a complete compressed frame nothing is inflated. */
  lemma IncompleteInflates(z: Zlib, b: Bytes, plain: Bytes, c: byte, max: nat)
    requires !Complete(b)
    ensures Inflate(z, b, plain, c, max) == Inflated(b, plain, c)
  {
    if |b| >= 7 {
      CompressedHeaderIsRead(b);
    }
  }

  /**
    * What becomes of a complete compressed frame, in the order of the checks: a wrong number; a body zlib cannot
    * inflate; an inflated length other than the announced one; more than the size limit; or its plain bytes.
    */
  lemma CompressedFrameExactly(z: Zlib, b: Bytes, plain: Bytes, c: byte, max: nat)
    requires Complete(b)
    ensures var body := b[7..7 + Announced(b)];
            var x := if RawLength(b) == 0 then Some(body) else z.decompress(body);
            Inflate(z, b, plain, c, max) ==
            if b[3] != c then Dropped(if b[3] == 0 then OperationalError(2013) else InternalError(2014), c)
            else if x.None? then Undecodable(b, plain, (c + 1) % 256)
            else if RawLength(b) != 0 && |x.value| != RawLength(b) then Dropped(OperationalError(2000), (c + 1) % 256)
            else if |plain| + |x.value| > max then Dropped(OperationalError(2020), (c + 1) % 256)
            else Inflate(z, b[7 + Announced(b)..], plain + x.value, (c + 1) % 256, max)
  {
    CompressedHeaderIsRead(b);
  }

  /** A body that cannot be inflated is an error that leaves the frame in the buffer; other errors empty the stream. */
  lemma CompressedFeedFails(z: Zlib, st: State, data: Bytes)
    requires st.compressed
    ensures var (st', r) := Feed(z, st, data);
            match Inflate(z, st.recvBuffer + data, st.decompressed, st.nextCSeq, st.maxAllowed)
            case Inflated(_, _, _) => true
            case Undecodable(recv, plain, c) =>
              && r == Err(OperationalError(2000))
              && st' == st.(recvBuffer := recv, decompressed := plain, nextCSeq := c)
            case Dropped(e, c) =>
              && r == Err(e) && st'.sendQueue == [] && st'.recvQueue == [] && st'.recvBuffer == []
              && st'.decompressed == [] && st'.nextSeq == st.nextSeq && st'.nextCSeq == c
  {
  }

  /** Where zlib fails, the frames before it have been queued and counted, and the error is 2000. */
  lemma {:induction false} DeflateUntil(z: Zlib, pieces: seq<Bytes>, c: byte, k: nat)
    requires k < |pieces| && z.compress(pieces[k]).None? && (forall i :: 0 <= i < k ==> z.compress(pieces[i]).Some?)
    ensures Deflate(z, pieces, c) == (CFrames(z, pieces[..k], c), false)
    decreases |pieces|
  {
    if k > 0 {
      DeflateUntil(z, pieces[1..], NextSeq(c), k - 1);
      assert pieces[..k][1..] == pieces[1..][..k - 1] && pieces[..k][0] == pieces[0];
    } else {
      assert pieces[..k] == [];
    }
  }

  lemma FailedWrite(z: Zlib, st: State, p: Bytes, k: nat)
    requires st.compressed
    requires var pieces := Pieces(Frames(p, st.nextSeq));
             && k < |pieces| && z.compress(pieces[k]).None? && (forall i :: 0 <= i < k ==> z.compress(pieces[i]).Some?)
    ensures var pieces := Pieces(Frames(p, st.nextSeq)); var (st', r) := Write(z, st, p);
            && r == Err(OperationalError(2000)) && st'.nextSeq == SeqPlus(st.nextSeq, FrameCount(p))
            && st'.sendQueue == st.sendQueue + CFrames(z, pieces[..k], st.nextCSeq)
            && st'.nextCSeq == SeqPlus(st.nextCSeq, k)
  {
    var pieces := Pieces(Frames(p, st.nextSeq));
    DeflateUntil(z, pieces, st.nextCSeq, k);
    CFramesLength(z, pieces[..k], st.nextCSeq);
  }

  lemma {:induction false} CFramesLength(z: Zlib, pieces: seq<Bytes>, c: byte)
    requires Compressible(z, pieces)
    ensures |CFrames(z, pieces, c)| == |pieces|
  {
    if pieces != [] {
      CFramesLength(z, pieces[1..], NextSeq(c));
    }
  }

  /** Every piece but the last has 2^24-1 bytes. */
  lemma {:induction false} PiecesAreFull(plain: Bytes, i: nat)
    requires i + 1 < |Pieces(plain)|
    ensures |Pieces(plain)[i]| == 0xFF_FFFF
    decreases |plain|
  {
    if i > 0 {
      PiecesAreFull(plain[0xFF_FFFF..], i - 1);
    }
  }
}
