/** The packet stream: send and receive queues, buffers and counters, updated in place. */
module PacketStream {
  import opened Bytes
  import opened Framing
  import opened Compression

  /** A snapshot of every field of the stream. */
  datatype State = State(
    sendQueue: seq<Bytes>,
    recvBuffer: Bytes,
    decompressed: Bytes,
    recvQueue: seq<Bytes>,
    nextSeq: byte,
    nextCSeq: byte,
    maxAllowed: nat,
    compressed: bool)

  function ForceClosed(st: State): State {
    st.(sendQueue := [], recvBuffer := [], decompressed := [], recvQueue := [])
  }

  /** Effect of parsing the buffer `b`, taken out of the stream; the second part is what is left of it. */
  function ParseInto(st: State, b: Bytes): (State, Result<(Bytes, nat)>) {
    match ParsePlain(b, st.nextSeq, st.maxAllowed)
    case Accepted(ps, rest, s) => (st.(recvQueue := st.recvQueue + ps, nextSeq := s), Ok((rest, |ps|)))
    case Raised(ps, p, s) => (st.(recvQueue := st.recvQueue + ps, nextSeq := s), Err(RaisedByServer(p)))
    case Closed(e, s) => (ForceClosed(st).(nextSeq := s), Err(e))
  }

  /** Effect of decoding all complete compressed frames. */
  function InflateInto(z: Zlib, st: State): (State, Result<()>) {
    match Inflate(z, st.recvBuffer, st.decompressed, st.nextCSeq, st.maxAllowed)
    case Inflated(recv, plain, c) => (st.(recvBuffer := recv, decompressed := plain, nextCSeq := c), Ok(()))
    case Undecodable(recv, plain, c) =>
      (st.(recvBuffer := recv, decompressed := plain, nextCSeq := c), Err(OperationalError(CR_UNKNOWN_ERROR)))
    case Dropped(e, c) => (ForceClosed(st).(nextCSeq := c), Err(e))
  }

  /** Effect of receiving `data`; the result counts the packets that became available. */
  function Feed(z: Zlib, st: State, data: Bytes): (State, Result<nat>) {
    var arrived := st.(recvBuffer := st.recvBuffer + data);
    if st.compressed then
      var (inflated, r) := InflateInto(z, arrived);
      if r.Err? then (inflated, Err(r.error)) else ParseDecompressed(inflated)
    else
      var (first, n) := ParseDecompressed(arrived);
      if n.Err? then (first, n) else ParseReceived(first, n.value)
  }

  function ParseDecompressed(st: State): (State, Result<nat>) {
    var (st', r) := ParseInto(st.(decompressed := []), st.decompressed);
    if r.Err? then (st', Err(r.error)) else (st'.(decompressed := r.value.0), Ok(r.value.1))
  }

  function ParseReceived(st: State, n: nat): (State, Result<nat>) {
    var (st', r) := ParseInto(st.(recvBuffer := []), st.recvBuffer);
    if r.Err? then (st', Err(r.error)) else (st'.(recvBuffer := r.value.0), Ok(n + r.value.1))
  }

  /** The compressed frames for `pieces`, up to the first piece zlib fails on. */
  function Deflate(z: Zlib, pieces: seq<Bytes>, c: byte): (r: (seq<Bytes>, bool)) {
    if pieces == [] then ([], true)
    else if z.compress(pieces[0]).None? then ([], false)
    else
      var (fs, ok) := Deflate(z, pieces[1..], NextSeq(c));
      ([CFrame(z, pieces[0], c)] + fs, ok)
  }

  /** The send queue, the compressed counter and the result after sending the plain frame stream `plain`. */
  function Sent(z: Zlib, queue: seq<Bytes>, plain: Bytes, c: byte): (seq<Bytes>, byte, Result<()>) {
    var (fs, ok) := Deflate(z, Pieces(plain), c);
    (queue + fs, SeqPlus(c, |fs|), if ok then Ok(()) else Err(OperationalError(CR_UNKNOWN_ERROR)))
  }

  /** Effect of sending `payload`. The only possible error is a failure of zlib itself. */
  function Write(z: Zlib, st: State, payload: Bytes): (State, Result<()>) {
    var plain := Frames(payload, st.nextSeq);
    var built := st.(nextSeq := SeqPlus(st.nextSeq, FrameCount(payload)));
    if !st.compressed then (built.(sendQueue := st.sendQueue + [plain]), Ok(()))
    else
      var (queue, c, r) := Sent(z, st.sendQueue, plain, st.nextCSeq);
      (built.(sendQueue := queue, nextCSeq := c), r)
  }

  class Stream {
    const zlib: Zlib
    const maxAllowed: nat
    var sendQueue: seq<Bytes>
    var recvBuffer: Bytes
    var decompressedBuffer: Bytes
    var recvQueue: seq<Bytes>
    var nextSeqId: byte
    var nextCompressedSeqId: byte
    var compressed: bool

    function Snapshot(): State
      reads this
    {
      State(sendQueue, recvBuffer, decompressedBuffer, recvQueue, nextSeqId, nextCompressedSeqId, maxAllowed,
            compressed)
    }

    constructor (zlib: Zlib, maxAllowed: nat)
      ensures this.zlib == zlib
      ensures Snapshot() == State([], [], [], [], 0, 0, maxAllowed, false)
    {
      this.zlib, this.maxAllowed := zlib, maxAllowed;
      sendQueue, recvBuffer, decompressedBuffer, recvQueue := [], [], [], [];
      nextSeqId, nextCompressedSeqId, compressed := 0, 0, false;
    }

    method EnableCompression()
      modifies this
      ensures Snapshot() == old(Snapshot()).(compressed := true, nextCSeq := 0)
    {
      compressed := true;
      nextCompressedSeqId := 0;
    }

    method ResetSeqId()
      modifies this
      ensures Snapshot() == old(Snapshot()).(nextSeq := 0, nextCSeq := 0)
    {
      nextSeqId := 0;
      nextCompressedSeqId := 0;
    }

    method ForceClose()
      modifies this
      ensures Snapshot() == ForceClosed(old(Snapshot()))
    {
      sendQueue, recvQueue, recvBuffer, decompressedBuffer := [], [], [], [];
    }

    method BuildPlainPackets(payload: Bytes) returns (data: Bytes)
      modifies this`nextSeqId
      ensures data == Frames(payload, old(nextSeqId))
      ensures nextSeqId == SeqPlus(old(nextSeqId), FrameCount(payload))
    {
      data := [];
      var offset := 0;
      var done := false;
      while !done
        invariant 0 <= offset <= |payload|
        invariant !done ==> data + Frames(payload[offset..], nextSeqId) == Frames(payload, old(nextSeqId))
        invariant !done ==>
                    SeqPlus(nextSeqId, FrameCount(payload[offset..])) == SeqPlus(old(nextSeqId), FrameCount(payload))
        invariant done ==> data == Frames(payload, old(nextSeqId))
        invariant done ==> nextSeqId == SeqPlus(old(nextSeqId), FrameCount(payload))
        decreases !done, |payload| - offset
      {
        var remaining := payload[offset..];
        var chunkLen := if |remaining| < MAX_PACKET_LEN then |remaining| else MAX_PACKET_LEN;
        var chunk := payload[offset..offset + chunkLen];
        assert chunk == remaining[..chunkLen];
        ghost var before, s := data, nextSeqId;
        data := data + LittleEndian(|chunk|, 3) + [nextSeqId] + chunk;
        nextSeqId := NextSeq(nextSeqId);
        assert data == before + (Header(chunkLen, s) + chunk);
        if chunkLen < MAX_PACKET_LEN {
          assert chunk == remaining;
          done := true;
        } else {
          offset := offset + chunkLen;
          assert payload[offset..] == remaining[MAX_PACKET_LEN..];
          Associative(before, Header(chunkLen, s) + chunk, Frames(remaining[MAX_PACKET_LEN..], nextSeqId));
        }
      }
    }

    method WritePacket(payload: Bytes) returns (r: Result<()>)
      modifies this
      ensures (Snapshot(), r) == Write(zlib, old(Snapshot()), payload)
    {
      if compressed {
        r := WriteCompressedPacket(payload);
      } else {
        var data := BuildPlainPackets(payload);
        sendQueue := sendQueue + [data];
        r := Ok(());
      }
    }

    method WriteCompressedPacket(payload: Bytes) returns (r: Result<()>)
      requires compressed
      modifies this
      ensures (Snapshot(), r) == Write(zlib, old(Snapshot()), payload)
    {
      var plain := BuildPlainPackets(payload);
      r := SendCompressed(plain);
    }

    /** The sending loop: one compressed packet for each stretch of at most the frame limit. */
    method SendCompressed(plain: Bytes) returns (r: Result<()>)
      modifies this`sendQueue, this`nextCompressedSeqId
      ensures (sendQueue, nextCompressedSeqId, r) == Sent(zlib, old(sendQueue), plain, old(nextCompressedSeqId))
    {
      var offset := 0;
      assert plain[0..] == plain;
      while offset < |plain|
        invariant 0 <= offset <= |plain|
        invariant Sent(zlib, sendQueue, plain[offset..], nextCompressedSeqId)
                  == Sent(zlib, old(sendQueue), plain, old(nextCompressedSeqId))
      {
        var end := if offset + MAX_PACKET_LEN < |plain| then offset + MAX_PACKET_LEN else |plain|;
        var chunk := plain[offset..end];
        Stretch(plain, offset, end);
        SentStep(zlib, sendQueue, plain[offset..], end - offset, nextCompressedSeqId);
        var packet := CompressedPacket(chunk);
        if packet.None? {
          return Err(OperationalError(CR_UNKNOWN_ERROR));
        }
        sendQueue := sendQueue + [packet.value];
        nextCompressedSeqId := NextSeq(nextCompressedSeqId);
        offset := end;
      }
      SentNothing(zlib, sendQueue, nextCompressedSeqId);
      r := Ok(());
    }

    /** One chunk behind a compressed header; `None` if zlib fails. */
    method CompressedPacket(chunk: Bytes) returns (packet: Option<Bytes>)
      requires |chunk| <= MAX_PACKET_LEN
      ensures packet.None? <==> zlib.compress(chunk).None?
      ensures packet.Some? ==> packet.value == CFrame(zlib, chunk, nextCompressedSeqId)
    {
      var compressedChunk := zlib.compress(chunk);
      if compressedChunk.None? {
        return None;
      }
      var body, rawLen := compressedChunk.value, |chunk|;
      if |body| >= |chunk| {
        body, rawLen := chunk, 0;
      }
      // A body over the limit would be refused here, but it is never longer than its chunk.
      assert |body| <= MAX_PACKET_LEN;
      packet := Some(LittleEndian(|body|, 3) + [nextCompressedSeqId] + LittleEndian(rawLen, 3) + body);
    }

    method FeedBytes(data: Bytes) returns (r: Result<nat>)
      modifies this
      ensures (Snapshot(), r) == Feed(zlib, old(Snapshot()), data)
    {
      recvBuffer := recvBuffer + data;
      if compressed {
        var inflated := FeedCompressedPackets();
        if inflated.Err? {
          return Err(inflated.error);
        }
      }
      var buffer := decompressedBuffer;
      decompressedBuffer := [];
      var added, rest := ParsePlainPackets(buffer);
      if added.Err? {
        return added;
      }
      decompressedBuffer := rest;
      if !compressed {
        buffer := recvBuffer;
        recvBuffer := [];
        var addedRaw, restRaw := ParsePlainPackets(buffer);
        if addedRaw.Err? {
          return addedRaw;
        }
        recvBuffer := restRaw;
        return Ok(added.value + addedRaw.value);
      }
      r := added;
    }

    method FeedCompressedPackets() returns (r: Result<()>)
      modifies this
      ensures (Snapshot(), r) == InflateInto(zlib, old(Snapshot()))
    {
      while |recvBuffer| >= COMPRESSED_HEADER_LEN && |recvBuffer| >= COMPRESSED_HEADER_LEN + CLen(recvBuffer)
        invariant InflateInto(zlib, Snapshot()) == InflateInto(zlib, old(Snapshot()))
        decreases |recvBuffer|
      {
        var compressedLen, seqNo, rawLen := CLen(recvBuffer), recvBuffer[3], CRawLen(recvBuffer);
        CLenBound(recvBuffer);
        ghost var before := Snapshot();
        if seqNo != nextCompressedSeqId {
          ForceClose();
          return Err(SequenceError(seqNo));
        }
        nextCompressedSeqId := NextSeq(nextCompressedSeqId);
        var payload := recvBuffer[COMPRESSED_HEADER_LEN..COMPRESSED_HEADER_LEN + compressedLen];
        if rawLen == 0 {
          decompressedBuffer := decompressedBuffer + payload;
        } else {
          var plain := zlib.decompress(payload);
          if plain.None? {
            return Err(OperationalError(CR_UNKNOWN_ERROR));
          }
          if |plain.value| != rawLen {
            ForceClose();
            return Err(OperationalError(CR_UNKNOWN_ERROR));
          }
          decompressedBuffer := decompressedBuffer + plain.value;
        }
        if |decompressedBuffer| > maxAllowed {
          ForceClose();
          return Err(OperationalError(CR_NET_PACKET_TOO_LARGE));
        }
        recvBuffer := recvBuffer[COMPRESSED_HEADER_LEN + compressedLen..];
        assert Decoded(zlib, before.recvBuffer).Some?
               && decompressedBuffer == before.decompressed + Decoded(zlib, before.recvBuffer).value;
      }
      r := Ok(());
    }

    method ParsePlainPackets(input: Bytes) returns (r: Result<nat>, buffer: Bytes)
      modifies this
      ensures Snapshot() == ParseInto(old(Snapshot()), input).0
      ensures match ParseInto(old(Snapshot()), input).1
              case Ok((rest, n)) => r == Ok(n) && buffer == rest
              case Err(e) => r == Err(e)
    {
      buffer := input;
      var packetsAdded := 0;
      ghost var ps: seq<Bytes> := [];
      ghost var st0 := Snapshot();
      PrependNothing(ParsePlain(input, nextSeqId, maxAllowed));
      while |buffer| >= HEADER_LEN
        invariant packetsAdded == |ps|
        invariant Snapshot() == st0.(recvQueue := st0.recvQueue + ps, nextSeq := nextSeqId)
        invariant ParsePlain(input, st0.nextSeq, maxAllowed) == Prepend(ps, ParsePlain(buffer, nextSeqId, maxAllowed))
        decreases |buffer|
      {
        if FrameLen(buffer) > maxAllowed {
          ForceClose();
          return Err(OperationalError(CR_NET_PACKET_TOO_LARGE)), buffer;
        }
        if |buffer| < HEADER_LEN + FrameLen(buffer) {
          break;
        }
        ghost var start, s := buffer, nextSeqId;
        var e, buff, rest := AssemblePacket(buffer);
        buffer := rest;
        if e.Some? {
          return Err(e.value), buffer;
        }
        if IsErrorPacket(buff) {
          assert ps + [] == ps;
          return Err(RaisedByServer(buff)), buffer;
        }
        ghost var later := ParsePlain(buffer, nextSeqId, maxAllowed);
        PrependPrepend(ps, [buff], later);
        Associative(st0.recvQueue, ps, [buff]);
        recvQueue := recvQueue + [buff];
        packetsAdded := packetsAdded + 1;
        ps := ps + [buff];
      }
      assert ps + [] == ps;
      r := Ok(packetsAdded);
    }

    /** The inner loop: joins the frames of one logical packet. */
    method AssemblePacket(input: Bytes) returns (e: Option<Error>, buff: Bytes, buffer: Bytes)
      modifies this
      ensures match Assemble(input, old(nextSeqId), maxAllowed, [])
              case Broken(err, s) => e == Some(err) && Snapshot() == ForceClosed(old(Snapshot())).(nextSeq := s)
              case Whole(p, rest, s) =>
                e == None && buff == p && buffer == rest && Snapshot() == old(Snapshot()).(nextSeq := s)
              case Partial(p, rest, s) =>
                e == None && buff == p && buffer == rest && Snapshot() == old(Snapshot()).(nextSeq := s)
    {
      buff, buffer, e := [], input, None;
      while |buffer| >= HEADER_LEN
        invariant Snapshot() == old(Snapshot()).(nextSeq := nextSeqId)
        invariant Assemble(input, old(nextSeqId), maxAllowed, []) == Assemble(buffer, nextSeqId, maxAllowed, buff)
        decreases |buffer|
      {
        var chunkLen := FrameLen(buffer);
        if chunkLen > maxAllowed {
          ForceClose();
          e := Some(OperationalError(CR_NET_PACKET_TOO_LARGE));
          return;
        }
        if |buffer| < HEADER_LEN + chunkLen {
          return;
        }
        var packetNumber := buffer[3];
        if packetNumber != nextSeqId {
          ForceClose();
          e := Some(SequenceError(packetNumber));
          return;
        }
        nextSeqId := NextSeq(nextSeqId);
        if |buff| + chunkLen > maxAllowed {
          ForceClose();
          e := Some(OperationalError(CR_NET_PACKET_TOO_LARGE));
          return;
        }
        buff := buff + buffer[HEADER_LEN..HEADER_LEN + chunkLen];
        buffer := buffer[HEADER_LEN + chunkLen..];
        if chunkLen < MAX_PACKET_LEN {
          return;
        }
      }
    }

    method ReadPacket() returns (r: Result<Bytes>)
      modifies this`recvQueue
      ensures old(recvQueue) == [] ==> r == Err(NeedMoreData) && recvQueue == []
      ensures old(recvQueue) != [] ==> r == Ok(old(recvQueue)[0]) && recvQueue == old(recvQueue)[1..]
    {
      if recvQueue == [] {
        return Err(NeedMoreData);
      }
      r := Ok(recvQueue[0]);
      recvQueue := recvQueue[1..];
    }
  }

  lemma Stretch(plain: Bytes, offset: nat, end: nat)
    requires offset <= end <= |plain|
    ensures plain[offset..][..end - offset] == plain[offset..end] && plain[offset..][end - offset..] == plain[end..]
  {
  }

  lemma PiecesFirst(plain: Bytes)
    requires plain != []
    ensures var n := if |plain| <= MAX_PACKET_LEN then |plain| else MAX_PACKET_LEN;
            Pieces(plain) == [plain[..n]] + Pieces(plain[n..])
  {
    if |plain| <= MAX_PACKET_LEN {
      assert plain[..|plain|] == plain && plain[|plain|..] == [];
    }
  }

  lemma SentStep(z: Zlib, queue: seq<Bytes>, plain: Bytes, n: nat, c: byte)
    requires plain != [] && n == if |plain| <= MAX_PACKET_LEN then |plain| else MAX_PACKET_LEN
    ensures z.compress(plain[..n]).None? ==>
              Sent(z, queue, plain, c) == (queue, c, Err(OperationalError(CR_UNKNOWN_ERROR)))
    ensures z.compress(plain[..n]).Some? ==>
              Sent(z, queue, plain, c) == Sent(z, queue + [CFrame(z, plain[..n], c)], plain[n..], NextSeq(c))
  {
    PiecesFirst(plain);
    var ps := Pieces(plain);
    assert ps[0] == plain[..n] && ps[1..] == Pieces(plain[n..]);
    if z.compress(ps[0]).Some? {
      DeflateUnfold(z, ps, c);
      Associative(queue, [CFrame(z, ps[0], c)], Deflate(z, ps[1..], NextSeq(c)).0);
    } else {
      assert queue + [] == queue;
    }
  }

  lemma SentNothing(z: Zlib, queue: seq<Bytes>, c: byte)
    ensures Sent(z, queue, [], c) == (queue, c, Ok(()))
  {
    assert queue + [] == queue;
  }

  lemma DeflateUnfold(z: Zlib, ps: seq<Bytes>, c: byte)
    requires ps != [] && z.compress(ps[0]).Some?
    ensures Deflate(z, ps, c).0 == [CFrame(z, ps[0], c)] + Deflate(z, ps[1..], NextSeq(c)).0
    ensures Deflate(z, ps, c).1 == Deflate(z, ps[1..], NextSeq(c)).1
    ensures SeqPlus(c, |Deflate(z, ps, c).0|) == SeqPlus(NextSeq(c), |Deflate(z, ps[1..], NextSeq(c)).0|)
  {
  }
}
