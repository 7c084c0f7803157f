/** The compressed frame layer, around a zlib that is only known to invert itself. */
module Compression {
  import opened Bytes
  import opened Framing

  const COMPRESSED_HEADER_LEN: nat := 7

  /** The compression library: both directions may fail. */
  datatype Zlib = Zlib(compress: Bytes -> Option<Bytes>, decompress: Bytes -> Option<Bytes>)

  ghost predicate Inverse(z: Zlib) {
    forall x: Bytes :: z.compress(x).Some? ==> z.decompress(z.compress(x).value) == Some(x)
  }

  // ---------------------------------------------------------------- one compressed frame

  function CHeader(len: nat, c: byte, rawLen: nat): (h: Bytes)
    ensures |h| == COMPRESSED_HEADER_LEN
  {
    LittleEndian(len, 3) + [c] + LittleEndian(rawLen, 3)
  }

  function CLen(b: Bytes): nat
    requires |b| >= COMPRESSED_HEADER_LEN
  {
    FromLittleEndian(b[..3])
  }

  function CRawLen(b: Bytes): nat
    requires |b| >= COMPRESSED_HEADER_LEN
  {
    FromLittleEndian(b[4..7])
  }

  predicate HasCFrame(b: Bytes) {
    |b| >= COMPRESSED_HEADER_LEN && COMPRESSED_HEADER_LEN + CLen(b) <= |b|
  }

  function CPayload(b: Bytes): Bytes
    requires HasCFrame(b)
  {
    b[COMPRESSED_HEADER_LEN..COMPRESSED_HEADER_LEN + CLen(b)]
  }

  function AfterCFrame(b: Bytes): (rest: Bytes)
    requires HasCFrame(b)
    ensures |rest| < |b|
  {
    b[COMPRESSED_HEADER_LEN + CLen(b)..]
  }

  /** The reader's own oversize check can never fire: the length field has three bytes. */
  lemma CLenBound(b: Bytes)
    requires |b| >= COMPRESSED_HEADER_LEN
    ensures CLen(b) <= MAX_PACKET_LEN
  {
    FromLittleEndianRoundTrip(b[..3]);
    PowersOf256();
  }

  lemma CFrameParts(body: Bytes, c: byte, rawLen: nat, rest: Bytes)
    requires |body| <= MAX_PACKET_LEN && rawLen <= MAX_PACKET_LEN
    ensures var b := CHeader(|body|, c, rawLen) + body + rest;
            && HasCFrame(b) && CLen(b) == |body| && CRawLen(b) == rawLen && b[3] == c
            && CPayload(b) == body && AfterCFrame(b) == rest
  {
    PowersOf256();
    LittleEndianRoundTrip(|body|, 3);
    LittleEndianRoundTrip(rawLen, 3);
    var b := CHeader(|body|, c, rawLen) + body + rest;
    assert b[..3] == LittleEndian(|body|, 3) && b[4..7] == LittleEndian(rawLen, 3);
  }

  // ---------------------------------------------------------------- writing

  predicate Sized(pieces: seq<Bytes>) {
    forall i :: 0 <= i < |pieces| ==> 0 < |pieces[i]| <= MAX_PACKET_LEN
  }

  /** The pieces of a plain frame stream that are compressed one by one. */
  function Pieces(plain: Bytes): (cs: seq<Bytes>)
    ensures Sized(cs)
    decreases |plain|
  {
    if plain == [] then []
    else if |plain| <= MAX_PACKET_LEN then [plain]
    else [plain[..MAX_PACKET_LEN]] + Pieces(plain[MAX_PACKET_LEN..])
  }

  lemma {:induction false} PiecesFlatten(plain: Bytes)
    ensures Flatten(Pieces(plain)) == plain
    decreases |plain|
  {
    if |plain| > MAX_PACKET_LEN {
      PiecesFlatten(plain[MAX_PACKET_LEN..]);
      assert Pieces(plain)[1..] == Pieces(plain[MAX_PACKET_LEN..]);
    }
  }

  /** One piece as a compressed frame: sent raw, with length field 0, when compression does not make it shorter. */
  function CFrame(z: Zlib, piece: Bytes, c: byte): Bytes
    requires z.compress(piece).Some?
  {
    var x := z.compress(piece).value;
    if |x| >= |piece| then CHeader(|piece|, c, 0) + piece else CHeader(|x|, c, |piece|) + x
  }

  predicate Compressible(z: Zlib, pieces: seq<Bytes>) {
    forall i :: 0 <= i < |pieces| ==> z.compress(pieces[i]).Some?
  }

  function CFrames(z: Zlib, pieces: seq<Bytes>, c: byte): seq<Bytes>
    requires Compressible(z, pieces)
  {
    if pieces == [] then [] else [CFrame(z, pieces[0], c)] + CFrames(z, pieces[1..], NextSeq(c))
  }

  // ---------------------------------------------------------------- reading

  /** `Undecodable` leaves the offending frame in the buffer; `Dropped` empties every queue. */
  datatype Inflation =
    | Inflated(recv: Bytes, plain: Bytes, cseq: byte)
    | Undecodable(recv: Bytes, plain: Bytes, cseq: byte)
    | Dropped(error: Error, cseq: byte)

  /** The plain bytes of the first compressed frame, if zlib can decode it. */
  function Decoded(z: Zlib, b: Bytes): Option<Bytes>
    requires HasCFrame(b)
  {
    if CRawLen(b) == 0 then Some(CPayload(b)) else z.decompress(CPayload(b))
  }

  function Inflate(z: Zlib, recv: Bytes, plain: Bytes, c: byte, max: nat): Inflation
    decreases |recv|
  {
    if !HasCFrame(recv) then Inflated(recv, plain, c)
    else if recv[3] != c then Dropped(SequenceError(recv[3]), c)
    else match Decoded(z, recv)
      case None => Undecodable(recv, plain, NextSeq(c))
      case Some(x) =>
        if CRawLen(recv) != 0 && |x| != CRawLen(recv) then Dropped(OperationalError(CR_UNKNOWN_ERROR), NextSeq(c))
        else if |plain + x| > max then Dropped(OperationalError(CR_NET_PACKET_TOO_LARGE), NextSeq(c))
        else Inflate(z, AfterCFrame(recv), plain + x, NextSeq(c), max)
  }

  lemma InflateStep(z: Zlib, piece: Bytes, c: byte, rest: Bytes, plain: Bytes, max: nat)
    requires Inverse(z) && z.compress(piece).Some? && 0 < |piece| <= MAX_PACKET_LEN
    ensures var b := CFrame(z, piece, c) + rest;
            && HasCFrame(b) && b[3] == c && AfterCFrame(b) == rest
            && Inflate(z, b, plain, c, max) ==
               if |plain| + |piece| > max then Dropped(OperationalError(CR_NET_PACKET_TOO_LARGE), NextSeq(c))
               else Inflate(z, rest, plain + piece, NextSeq(c), max)
  {
    var x := z.compress(piece).value;
    if |x| >= |piece| {
      CFrameParts(piece, c, 0, rest);
    } else {
      CFrameParts(x, c, |piece|, rest);
    }
  }

  lemma CFramesUnfold(z: Zlib, pieces: seq<Bytes>, c: byte)
    requires pieces != [] && Compressible(z, pieces)
    ensures Flatten(CFrames(z, pieces, c)) == CFrame(z, pieces[0], c) + Flatten(CFrames(z, pieces[1..], NextSeq(c)))
  {
    assert CFrames(z, pieces, c)[1..] == CFrames(z, pieces[1..], NextSeq(c));
  }

  lemma InflateFirst(z: Zlib, pieces: seq<Bytes>, c: byte, rest: Bytes, plain: Bytes, max: nat)
    requires pieces != [] && Inverse(z) && Compressible(z, pieces) && 0 < |pieces[0]| <= MAX_PACKET_LEN
    ensures Inflate(z, Flatten(CFrames(z, pieces, c)) + rest, plain, c, max) ==
            if |plain| + |pieces[0]| > max then Dropped(OperationalError(CR_NET_PACKET_TOO_LARGE), NextSeq(c))
            else Inflate(z, Flatten(CFrames(z, pieces[1..], NextSeq(c))) + rest, plain + pieces[0], NextSeq(c), max)
  {
    var later := Flatten(CFrames(z, pieces[1..], NextSeq(c))) + rest;
    CFramesUnfold(z, pieces, c);
    assert Flatten(CFrames(z, pieces, c)) + rest == CFrame(z, pieces[0], c) + later;
    InflateStep(z, pieces[0], c, later, plain, max);
  }

  lemma FlattenUnfold(plain: Bytes, pieces: seq<Bytes>)
    requires pieces != []
    ensures plain + Flatten(pieces) == plain + pieces[0] + Flatten(pieces[1..])
    ensures |Flatten(pieces)| == |pieces[0]| + |Flatten(pieces[1..])|
  {
  }

  lemma InflateNothing(z: Zlib, c: byte, rest: Bytes, plain: Bytes, max: nat)
    ensures Inflate(z, Flatten(CFrames(z, [], c)) + rest, plain, c, max)
            == Inflate(z, rest, plain + Flatten([]), c, max)
  {
    assert Flatten(CFrames(z, [], c)) + rest == rest;
    assert plain + Flatten([]) == plain;
  }

  /** What a run of compressed frames inflates to, in front of any further bytes. */
  lemma {:induction false} InflateFrames(z: Zlib, pieces: seq<Bytes>, c: byte, rest: Bytes, plain: Bytes, max: nat)
    requires Inverse(z) && Compressible(z, pieces)
    requires Sized(pieces)
    requires |plain| + |Flatten(pieces)| <= max
    ensures Inflate(z, Flatten(CFrames(z, pieces, c)) + rest, plain, c, max)
            == Inflate(z, rest, plain + Flatten(pieces), SeqPlus(c, |pieces|), max)
    decreases |pieces|
  {
    if pieces == [] {
      InflateNothing(z, c, rest, plain, max);
    } else {
      FlattenUnfold(plain, pieces);
      InflateFirst(z, pieces, c, rest, plain, max);
      InflateFrames(z, pieces[1..], NextSeq(c), rest, plain + pieces[0], max);
    }
  }

  /** One feed of more than the size limit is refused, however small the packets inside are. */
  lemma {:induction false} InflateOverflow(z: Zlib, pieces: seq<Bytes>, c: byte, rest: Bytes, plain: Bytes, max: nat)
    requires Inverse(z) && Compressible(z, pieces)
    requires Sized(pieces)
    requires |plain| <= max < |plain| + |Flatten(pieces)|
    ensures var r := Inflate(z, Flatten(CFrames(z, pieces, c)) + rest, plain, c, max);
            r.Dropped? && r.error == OperationalError(CR_NET_PACKET_TOO_LARGE)
    decreases |pieces|
  {
    InflateFirst(z, pieces, c, rest, plain, max);
    if |plain| + |pieces[0]| <= max {
      InflateOverflow(z, pieces[1..], NextSeq(c), rest, plain + pieces[0], max);
    }
  }

  lemma CFrameExtend(b: Bytes, more: Bytes)
    requires HasCFrame(b)
    ensures HasCFrame(b + more) && b[3] == (b + more)[3] && CLen(b + more) == CLen(b)
            && AfterCFrame(b + more) == AfterCFrame(b) + more
  {
    assert (b + more)[..3] == b[..3];
  }

  lemma {:induction false} CFramesAppend(z: Zlib, p: seq<Bytes>, q: seq<Bytes>, c: byte)
    requires Compressible(z, p) && Compressible(z, q)
    ensures Compressible(z, p + q)
    ensures CFrames(z, p + q, c) == CFrames(z, p, c) + CFrames(z, q, SeqPlus(c, |p|))
  {
    if p == [] {
      assert p + q == q;
    } else {
      CFramesAppend(z, p[1..], q, NextSeq(c));
      assert (p + q)[1..] == p[1..] + q;
    }
  }

  lemma SamePrefix(f: Bytes, later: Bytes, x: Bytes, y: Bytes)
    requires f + later == x + y && |f| <= |x|
    ensures x == f + x[|f|..] && x[|f|..] + y == later
  {
    assert x == (x + y)[..|x|] && later == (f + later)[|f|..];
  }

  lemma {:induction false} PeelFrame(z: Zlib, pieces: seq<Bytes>, c: byte, x: Bytes, y: Bytes) returns (x': Bytes)
    requires pieces != [] && Inverse(z) && Compressible(z, pieces) && 0 < |pieces[0]| <= MAX_PACKET_LEN
    requires x + y == Flatten(CFrames(z, pieces, c)) && HasCFrame(x)
    ensures x == CFrame(z, pieces[0], c) + x'
    ensures x' + y == Flatten(CFrames(z, pieces[1..], NextSeq(c)))
  {
    var f, later := CFrame(z, pieces[0], c), Flatten(CFrames(z, pieces[1..], NextSeq(c)));
    CFramesUnfold(z, pieces, c);
    InflateStep(z, pieces[0], c, later, [], 0);
    CFrameExtend(x, y);
    SamePrefix(f, later, x, y);
    x' := x[|f|..];
  }

  /** Any prefix of a compressed stream is a number of whole frames and an incomplete one. */
  lemma {:induction false} SplitPrefix(z: Zlib, pieces: seq<Bytes>, c: byte, x: Bytes, y: Bytes)
    returns (k: nat, t: Bytes)
    requires Inverse(z) && Compressible(z, pieces)
    requires Sized(pieces)
    requires x + y == Flatten(CFrames(z, pieces, c))
    ensures k <= |pieces| && !HasCFrame(t)
    ensures x == Flatten(CFrames(z, pieces[..k], c)) + t
    ensures t + y == Flatten(CFrames(z, pieces[k..], SeqPlus(c, k)))
    decreases |pieces|
  {
    if !HasCFrame(x) || pieces == [] {
      k, t := 0, x;
      SplitNowhere(z, pieces, c, x);
    } else {
      var x' := PeelFrame(z, pieces, c, x, y);
      var k', t' := SplitPrefix(z, pieces[1..], NextSeq(c), x', y);
      SplitStep(z, pieces, c, k', x', t');
      k, t := k' + 1, t';
      assert pieces[k..] == pieces[1..][k'..];
    }
  }

  lemma SplitNowhere(z: Zlib, pieces: seq<Bytes>, c: byte, x: Bytes)
    ensures Flatten(CFrames(z, pieces[..0], c)) + x == x && pieces[0..] == pieces
  {
    assert pieces[..0] == [];
  }

  lemma SplitStep(z: Zlib, pieces: seq<Bytes>, c: byte, k: nat, x: Bytes, t: Bytes)
    requires Compressible(z, pieces) && k < |pieces|
    requires x == Flatten(CFrames(z, pieces[1..][..k], NextSeq(c))) + t
    ensures CFrame(z, pieces[0], c) + x == Flatten(CFrames(z, pieces[..k + 1], c)) + t
  {
    var first := pieces[..k + 1];
    assert first[1..] == pieces[1..][..k];
    CFramesUnfold(z, first, c);
    Associative(CFrame(z, pieces[0], c), Flatten(CFrames(z, first[1..], NextSeq(c))), t);
  }

  // ---------------------------------------------------------------- sequence numbers

  function CNumbers(b: Bytes): seq<byte>
    decreases |b|
  {
    if !HasCFrame(b) then [] else [b[3]] + CNumbers(AfterCFrame(b))
  }

  lemma {:induction false} InflatedNumbers(z: Zlib, recv: Bytes, plain: Bytes, c: byte, max: nat)
    requires Inflate(z, recv, plain, c, max).Inflated?
    ensures Consecutive(CNumbers(recv), c)
    ensures Inflate(z, recv, plain, c, max).cseq == SeqPlus(c, |CNumbers(recv)|)
    decreases |recv|
  {
    if HasCFrame(recv) {
      InflatedNumbers(z, AfterCFrame(recv), plain + Decoded(z, recv).value, NextSeq(c), max);
      assert CNumbers(recv)[1..] == CNumbers(AfterCFrame(recv));
    }
  }

  lemma {:induction false} CWrittenNumbers(z: Zlib, pieces: seq<Bytes>, c: byte)
    requires Compressible(z, pieces)
    requires Sized(pieces)
    ensures Consecutive(CNumbers(Flatten(CFrames(z, pieces, c))), c)
    ensures |CNumbers(Flatten(CFrames(z, pieces, c)))| == |pieces|
    decreases |pieces|
  {
    if pieces != [] {
      var later := Flatten(CFrames(z, pieces[1..], NextSeq(c)));
      assert CFrames(z, pieces, c)[1..] == CFrames(z, pieces[1..], NextSeq(c));
      var x := z.compress(pieces[0]).value;
      if |x| >= |pieces[0]| {
        CFrameParts(pieces[0], c, 0, later);
      } else {
        CFrameParts(x, c, |pieces[0]|, later);
      }
      CWrittenNumbers(z, pieces[1..], NextSeq(c));
      assert CNumbers(CFrame(z, pieces[0], c) + later) == [c] + CNumbers(later);
    }
  }
}
