/** From bytes on the wire to rows: the transport, the queue and the reader together. */
module EndToEnd {
  import opened Bytes
  import Framing
  import Compression
  import P = PacketStream
  import T = Transport
  import opened Protocol
  import opened ResultSet
  import opened ResultAgreement
  import opened ResultEncoding

  /** The packet stream, and the bytes still to arrive, in the pieces in which they will. */
  datatype Link = Link(st: P.State, chunks: seq<Bytes>)

  /** Take a packet if one is queued, otherwise receive pieces of bytes until one is. */
  function NextPacket(z: Compression.Zlib, l: Link): (r: (Link, Result<Bytes>))
    ensures |r.0.chunks| <= |l.chunks|
    ensures r.1.Ok? && |r.0.chunks| == |l.chunks| ==> |r.0.st.recvQueue| < |l.st.recvQueue|
    decreases |l.chunks|
  {
    var q := l.st.recvQueue;
    if q != [] then (Link(l.st.(recvQueue := q[1..]), l.chunks), Ok(q[0]))
    else if l.chunks == [] then (l, Err(NeedMoreData))
    else match P.Feed(z, l.st, l.chunks[0])
      case (st', Err(e)) => (Link(st', l.chunks[1..]), Err(e))
      case (st', Ok(_)) => NextPacket(z, Link(st', l.chunks[1..]))
  }

  /** The driver's reading loop: packets go to the reader until the response is complete or the columns are known. */
  function Pump(z: Compression.Zlib, l: Link, r: Reader, conn: Conn): (Link, Reader, Result<()>)
    decreases |l.chunks|, |l.st.recvQueue|
  {
    match NextPacket(z, l)
    case (l', Err(e)) => (l', r, Err(e))
    case (l', Ok(p)) =>
      match Feed(r, p, conn)
      case (r', Err(e)) => (l', r', Err(e))
      case (r', Ok(NeedMore)) => Pump(z, l', r', conn)
      case (r', Ok(_)) => (l', r', Ok(()))
  }

  /** The driver's loop over the rows of an unbuffered result. */
  function PumpRows(z: Compression.Zlib, l: Link, r: Reader): (Link, Reader, Result<seq<Row>>)
    decreases |l.chunks|, |l.st.recvQueue|
  {
    if !r.unbuffered then (l, r, Ok([]))
    else match NextPacket(z, l)
      case (l', Err(e)) => (l', r, Err(e))
      case (l', Ok(p)) =>
        match FeedUnbufferedRow(r, p)
        case (r', Err(e)) => (l', r', Err(e))
        case (r', Ok(None)) => (l', r', Ok([]))
        case (r', Ok(Some(row))) =>
          match PumpRows(z, l', r')
          case (l'', r'', Ok(rows)) => (l'', r'', Ok([row] + rows))
          case (l'', r'', Err(e)) => (l'', r'', Err(e))
  }

  /** All that is still to arrive can be received. */
  predicate Receivable(z: Compression.Zlib, l: Link) { T.FeedAll(z, l.st.(recvQueue := []), l.chunks).1.Ok? }

  /** The packets that are queued or will be. */
  function Coming(z: Compression.Zlib, l: Link): seq<Bytes> {
    l.st.recvQueue + T.FeedAll(z, l.st.(recvQueue := []), l.chunks).0.recvQueue
  }

  /** Receiving never looks at the packets already queued; it only appends to them. */
  lemma ReceiveIgnoresQueue(z: Compression.Zlib, st: P.State, data: Bytes, q: seq<Bytes>)
    requires P.Feed(z, st.(recvQueue := []), data).1.Ok?
    ensures var (st', n) := P.Feed(z, st.(recvQueue := []), data);
            P.Feed(z, st.(recvQueue := q), data) == (st'.(recvQueue := q + st'.recvQueue), n)
  {
    if !st.compressed {
      var b := st.decompressed;
      var first := Framing.ParsePlain(b, st.nextSeq, st.maxAllowed);
      if first.Accepted? {
        var second := Framing.ParsePlain(st.recvBuffer + data, first.seqId, st.maxAllowed);
        if second.Accepted? {
          Associative(q, first.packets, second.packets);
          assert [] + first.packets == first.packets;
        }
      }
    } else {
      var inflated := P.InflateInto(z, st.(recvBuffer := st.recvBuffer + data)).0;
      var parsed := Framing.ParsePlain(inflated.decompressed, st.nextSeq, st.maxAllowed);
      if parsed.Accepted? {
        assert [] + parsed.packets == parsed.packets;
      }
    }
  }

  lemma {:induction false} ReceiveAllIgnoresQueue(z: Compression.Zlib, st: P.State, chunks: seq<Bytes>, q: seq<Bytes>)
    requires T.FeedAll(z, st.(recvQueue := []), chunks).1.Ok?
    ensures T.FeedAll(z, st.(recvQueue := q), chunks).1.Ok?
    ensures T.FeedAll(z, st.(recvQueue := q), chunks).0.recvQueue
            == q + T.FeedAll(z, st.(recvQueue := []), chunks).0.recvQueue
    decreases |chunks|
  {
    if chunks == [] {
      assert q + [] == q;
    } else {
      ReceiveIgnoresQueue(z, st, chunks[0], q);
      var st' := P.Feed(z, st.(recvQueue := []), chunks[0]).0;
      var ps := st'.recvQueue;
      ReceiveRest(z, st', chunks[1..]);
      ReceiveAllIgnoresQueue(z, st', chunks[1..], ps);
      ReceiveAllIgnoresQueue(z, st', chunks[1..], q + ps);
      Associative(q, ps, T.FeedAll(z, st'.(recvQueue := []), chunks[1..]).0.recvQueue);
      assert st'.(recvQueue := ps) == st';
    }
  }

  /** Emptying the queue does not make a successful reception fail. */
  lemma {:induction false} ReceiveRest(z: Compression.Zlib, st: P.State, chunks: seq<Bytes>)
    requires T.FeedAll(z, st, chunks).1.Ok?
    ensures T.FeedAll(z, st.(recvQueue := []), chunks).1.Ok?
    decreases |chunks|
  {
    if chunks != [] {
      EmptyQueueAccepts(z, st, chunks[0]);
      ReceiveIgnoresQueue(z, st, chunks[0], st.recvQueue);
      assert st.(recvQueue := st.recvQueue) == st;
      var st1 := P.Feed(z, st, chunks[0]).0;
      var st2 := P.Feed(z, st.(recvQueue := []), chunks[0]).0;
      ReceiveRest(z, st1, chunks[1..]);
      assert st1.(recvQueue := []) == st2.(recvQueue := []);
      if chunks[1..] != [] {
        ReceiveAllIgnoresQueue(z, st2, chunks[1..], st2.recvQueue);
        assert st2.(recvQueue := st2.recvQueue) == st2;
      }
    }
  }

  lemma EmptyQueueAccepts(z: Compression.Zlib, st: P.State, data: Bytes)
    requires P.Feed(z, st, data).1.Ok?
    ensures P.Feed(z, st.(recvQueue := []), data).1.Ok?
  {
  }

  /** Receiving one more piece does not change which packets are coming. */
  lemma ReceiveOne(z: Compression.Zlib, l: Link)
    requires Receivable(z, l) && l.st.recvQueue == [] && l.chunks != []
    ensures var (st', r) := P.Feed(z, l.st, l.chunks[0]);
            r.Ok? && Receivable(z, Link(st', l.chunks[1..])) && Coming(z, Link(st', l.chunks[1..])) == Coming(z, l)
  {
    var st, rest := l.st, l.chunks[1..];
    assert st.(recvQueue := []) == st;
    var st' := P.Feed(z, st, l.chunks[0]).0;
    ReceiveRest(z, st', rest);
    ReceiveAllIgnoresQueue(z, st', rest, st'.recvQueue);
    assert st'.(recvQueue := st'.recvQueue) == st';
  }

  lemma TakeOne(z: Compression.Zlib, l: Link)
    requires Receivable(z, l) && l.st.recvQueue != []
    ensures var (l', p) := NextPacket(z, l); var q := Coming(z, l);
            q != [] && Receivable(z, l') && p == Ok(q[0]) && Coming(z, l') == q[1..]
  {
    HeadAndTail(l.st.recvQueue, T.FeedAll(z, l.st.(recvQueue := []), l.chunks).0.recvQueue);
    var l' := Link(l.st.(recvQueue := l.st.recvQueue[1..]), l.chunks);
    assert l'.st.(recvQueue := []) == l.st.(recvQueue := []);
  }

  lemma HeadAndTail(a: seq<Bytes>, b: seq<Bytes>)
    requires a != []
    ensures (a + b)[0] == a[0] && (a + b)[1..] == a[1..] + b
  {
  }

  /** Taking packets as they arrive gives the same packets, in the same order, as taking them from the whole queue. */
  lemma {:induction false} NextPacketIsComing(z: Compression.Zlib, l: Link)
    requires Receivable(z, l)
    ensures var (l', p) := NextPacket(z, l); var q := Coming(z, l);
            && Receivable(z, l')
            && (if q == [] then p == Err(NeedMoreData) && Coming(z, l') == []
                else p == Ok(q[0]) && Coming(z, l') == q[1..])
    decreases |l.chunks|
  {
    if l.st.recvQueue != [] {
      TakeOne(z, l);
    } else if l.chunks != [] {
      ReceiveOne(z, l);
      NextPacketIsComing(z, Link(P.Feed(z, l.st, l.chunks[0]).0, l.chunks[1..]));
    }
  }

  /**
    * The driver delivers: if all chunks can be received, the interleaved loop gives the reader exactly what
    * reading the complete packet queue would, and leaves the packets that would be left.
    */
  lemma {:induction false} PumpDelivers(z: Compression.Zlib, l: Link, r: Reader, conn: Conn)
    requires Receivable(z, l)
    ensures var (l', r', res) := Pump(z, l, r, conn);
            Receivable(z, l') && (r', Coming(z, l'), res) == Drive(r, Coming(z, l), conn)
    decreases |l.chunks|, |l.st.recvQueue|
  {
    NextPacketIsComing(z, l);
    var (l', p) := NextPacket(z, l);
    if p.Ok? && Feed(r, p.value, conn).1 == Ok(NeedMore) {
      PumpDelivers(z, l', Feed(r, p.value, conn).0, conn);
    }
  }

  /** The same for the rows of an unbuffered result. */
  lemma {:induction false} PumpRowsDelivers(z: Compression.Zlib, l: Link, r: Reader)
    requires Receivable(z, l)
    ensures var (l', r', rows) := PumpRows(z, l, r);
            Receivable(z, l') && (r', Coming(z, l'), rows) == FetchAll(r, Coming(z, l))
    decreases |l.chunks|, |l.st.recvQueue|
  {
    if r.unbuffered {
      NextPacketIsComing(z, l);
      var (l', p) := NextPacket(z, l);
      if p.Ok? {
        var (r', row) := FeedUnbufferedRow(r, p.value);
        if row.Ok? && row.value.Some? {
          PumpRowsDelivers(z, l', r');
        }
      }
    }
  }

  predicate Transportable(rs: ResultData, max: nat) {
    forall i :: 0 <= i < |Packets(rs)| ==> |Packets(rs)[i]| <= max
  }

  /** Every packet fits in one frame. */
  predicate SingleFrames(rs: ResultData) {
    forall i :: 0 <= i < |Packets(rs)| ==> |Packets(rs)[i]| < Framing.MAX_PACKET_LEN
  }

  lemma AllDeliverable(rs: ResultData, max: nat)
    requires ValidResult(rs) && Transportable(rs, max)
    ensures forall p :: p in Packets(rs) ==> Framing.Deliverable(p, max) && !IsErrorPacket(p)
  {
    forall p | p in Packets(rs) ensures Framing.Deliverable(p, max) && !IsErrorPacket(p) {
      PacketsAreNotErrors(rs, p);
    }
  }

  /** The values a client should see for the rows of `rs`. */
  function RowValues(rs: ResultData, conn: Conn): seq<Row>
    requires ValidResult(rs)
  {
    ValuesOf(ConvertersOf(rs.columns, conn), rs.rows)
  }

  /**
    * What it means for a result set to get through. Read at once: exactly its rows, in order, with the reader done, the
    * columns known and the final status of the server. Read row by row: exactly its rows, and the same outcome. Nothing
    * is left over.
    */
  predicate GetsThrough(z: Compression.Zlib, l: Link, rs: ResultData, conn: Conn)
    requires ValidResult(rs)
  {
    var (lb, b, br) := Pump(z, l, New(false), conn);
    var (l1, u, ur) := Pump(z, l, New(true), conn);
    var (lu, u', rows) := PumpRows(z, l1, u);
    && br == Ok(()) && Shows(b, rs, conn)
    && ur.Ok? && rows.Ok? && RowsMean(rows.value, rs, conn) && SameOutcome(b, u')
    && Coming(z, lb) == [] && Coming(z, lu) == []
  }

  /** Reading a complete result set from its packets. */
  lemma ReadAtOnce(rs: ResultData, conn: Conn)
    requires ValidResult(rs)
    ensures Drive(New(false), Packets(rs), conn) == (ReadBack(rs, conn), [], Ok(()))
    ensures RowsOf(ReadBack(rs, conn)) == RowValues(rs, conn) && ReadBack(rs, conn).phase == Done
  {
    assert Packets(rs) + [] == Packets(rs);
    ReadEncoded(rs, [], conn);
    assert [] + RowValues(rs, conn) == RowValues(rs, conn);
  }

  lemma ResultIsNotOk(rs: ResultData)
    requires ValidResult(rs)
    ensures !AnswersOk(Packets(rs))
  {
    assert Packets(rs)[0] == LenencInt(|rs.columns|);
  }

  /** The same row by row. */
  lemma ReadRowByRow(rs: ResultData, conn: Conn)
    requires ValidResult(rs)
    ensures var (u, uq, ur) := Drive(New(true), Packets(rs), conn);
            && ur.Ok? && FetchAll(u, uq).2 == Ok(RowValues(rs, conn)) && FetchAll(u, uq).1 == []
            && SameOutcome(ReadBack(rs, conn), FetchAll(u, uq).0)
  {
    ReadAtOnce(rs, conn);
    ResultIsNotOk(rs);
    BufferedAndUnbufferedAgree(Packets(rs), conn);
    AgreeMeans(Drive(New(false), Packets(rs), conn), Drive(New(true), Packets(rs), conn));
  }

  lemma FromQueue(z: Compression.Zlib, l: Link, rs: ResultData, conn: Conn)
    requires ValidResult(rs) && Receivable(z, l) && Coming(z, l) == Packets(rs)
    ensures GetsThrough(z, l, rs, conn)
  {
    ReadAtOnce(rs, conn);
    ReadRowByRow(rs, conn);
    ReadBackShows(rs, conn);
    PumpDelivers(z, l, New(false), conn);
    PumpDelivers(z, l, New(true), conn);
    var (l1, u, _) := Pump(z, l, New(true), conn);
    PumpRowsDelivers(z, l1, u);
  }

  lemma Complete(z: Compression.Zlib, st: P.State, rs: ResultData, chunks: seq<Bytes>)
    requires st.recvQueue == []
    requires T.FeedAll(z, st, chunks).1.Ok? && T.FeedAll(z, st, chunks).0.recvQueue == [] + Packets(rs)
    ensures Receivable(z, Link(st, chunks)) && Coming(z, Link(st, chunks)) == Packets(rs)
  {
    assert st.(recvQueue := []) == st;
    assert [] + ([] + Packets(rs)) == Packets(rs);
  }

  /**
    * End to end: a result set framed by a server and received in any cut of the bytes without an open feed gets
    * through.
    */
  lemma ResultSetEndToEnd(z: Compression.Zlib, st: P.State, rs: ResultData, chunks: seq<Bytes>, conn: Conn)
    requires ValidResult(rs) && Transportable(rs, st.maxAllowed)
    requires T.PlainMode(st) && st.recvBuffer == [] && st.recvQueue == []
    requires Flatten(chunks) == Framing.FramesAll(Packets(rs), st.nextSeq)
    requires Framing.OpenFeeds([], chunks) == 0
    ensures GetsThrough(z, Link(st, chunks), rs, conn)
  {
    AllDeliverable(rs, st.maxAllowed);
    T.PlainDelivery(z, st, Packets(rs), chunks);
    Complete(z, st, rs, chunks);
    FromQueue(z, Link(st, chunks), rs, conn);
  }

  /** If every packet fits in one frame, the bytes may be cut anywhere. */
  lemma AnyCutGetsThrough(z: Compression.Zlib, st: P.State, rs: ResultData, chunks: seq<Bytes>, conn: Conn)
    requires ValidResult(rs) && Transportable(rs, st.maxAllowed) && SingleFrames(rs)
    requires T.PlainMode(st) && st.recvBuffer == [] && st.recvQueue == []
    requires Flatten(chunks) == Framing.FramesAll(Packets(rs), st.nextSeq)
    ensures GetsThrough(z, Link(st, chunks), rs, conn)
  {
    T.ShortCutsAreSafe(Packets(rs), st.nextSeq, chunks);
    ResultSetEndToEnd(z, st, rs, chunks, conn);
  }

  /** The same through the compressed layer, when every feed is within the size limit. */
  lemma CompressedResultSetEndToEnd(z: Compression.Zlib, w: P.State, st: P.State, rs: ResultData, chunks: seq<Bytes>,
                                    conn: Conn)
    requires ValidResult(rs) && Transportable(rs, st.maxAllowed)
    requires T.InStep(z, w, st, Packets(rs), chunks) && st.recvQueue == []
    requires Framing.OpenFeeds([], T.InflatedChunks(z, st, Packets(rs), chunks)) == 0
    requires T.FitsFeeds([], T.InflatedChunks(z, st, Packets(rs), chunks), st.maxAllowed)
    ensures GetsThrough(z, Link(st, chunks), rs, conn)
  {
    AllDeliverable(rs, st.maxAllowed);
    T.CompressedDelivery(z, w, st, Packets(rs), chunks);
    Complete(z, st, rs, chunks);
    FromQueue(z, Link(st, chunks), rs, conn);
  }

  /** If every packet fits in one frame and all of them in the size limit, the compressed bytes may be cut anywhere. */
  lemma AnyCompressedCutGetsThrough(z: Compression.Zlib, w: P.State, st: P.State, rs: ResultData, chunks: seq<Bytes>,
                                    conn: Conn)
    requires ValidResult(rs) && SingleFrames(rs)
    requires T.InStep(z, w, st, Packets(rs), chunks) && st.recvQueue == []
    requires |Framing.FramesAll(Packets(rs), w.nextSeq)| <= st.maxAllowed
    ensures GetsThrough(z, Link(st, chunks), rs, conn)
  {
    forall p | p in Packets(rs) ensures !IsErrorPacket(p) {
      PacketsAreNotErrors(rs, p);
    }
    T.CompressedAnyCut(z, w, st, Packets(rs), chunks);
    Complete(z, st, rs, chunks);
    FromQueue(z, Link(st, chunks), rs, conn);
  }
}
