/** Whole-run properties of the packet stream: delivery under any cut of the bytes, and sequence numbers. */
module Transport {
  import opened Bytes
  import opened Framing
  import opened Compression
  import opened PacketStream

  /** Feed several chunks; the result counts all packets that became available. */
  function FeedAll(z: Zlib, st: State, chunks: seq<Bytes>): (State, Result<nat>)
    decreases |chunks|
  {
    if chunks == [] then (st, Ok(0))
    else
      var (st', r) := Feed(z, st, chunks[0]);
      if r.Err? then (st', r)
      else
        var (st'', r') := FeedAll(z, st', chunks[1..]);
        (st'', if r'.Err? then r' else Ok(r.value + r'.value))
  }

  function WriteAll(z: Zlib, st: State, payloads: seq<Bytes>): (State, Result<()>)
    decreases |payloads|
  {
    if payloads == [] then (st, Ok(()))
    else
      var (st', r) := Write(z, st, payloads[0]);
      if r.Err? then (st', r) else WriteAll(z, st', payloads[1..])
  }

  /** What a writer has added to its send queue, as one byte stream. */
  function SentBytes(before: State, after: State): Bytes {
    if |before.sendQueue| <= |after.sendQueue| then Flatten(after.sendQueue[|before.sendQueue|..]) else []
  }

  predicate PlainMode(st: State) {
    !st.compressed && st.decompressed == []
  }

  // ---------------------------------------------------------------- plain mode

  function Apply(st: State, r: Parse): (State, Result<nat>) {
    match r
    case Accepted(ps, rest, s) => (st.(recvQueue := st.recvQueue + ps, recvBuffer := rest, nextSeq := s), Ok(|ps|))
    case Raised(ps, p, s) =>
      (st.(recvQueue := st.recvQueue + ps, recvBuffer := [], nextSeq := s), Err(RaisedByServer(p)))
    case Closed(e, s) => (ForceClosed(st).(nextSeq := s), Err(e))
  }

  lemma PlainFeed(z: Zlib, st: State, data: Bytes)
    requires PlainMode(st)
    ensures Feed(z, st, data) == Apply(st, ParsePlain(st.recvBuffer + data, st.nextSeq, st.maxAllowed))
  {
    assert st.recvQueue + [] == st.recvQueue;
  }

  /** Applying an accepted parse and then a later one is applying both at once. */
  lemma ApplyTwice(st: State, r: Parse, later: Parse)
    requires r.Accepted?
    ensures Apply(Apply(st, r).0, later).0 == Apply(st, Prepend(r.packets, later)).0
    ensures match Apply(Apply(st, r).0, later).1
            case Ok(n) => Apply(st, Prepend(r.packets, later)).1 == Ok(|r.packets| + n)
            case Err(e) => Apply(st, Prepend(r.packets, later)).1 == Err(e)
  {
    if !later.Closed? {
      Associative(st.recvQueue, r.packets, later.packets);
    }
  }

  lemma {:induction false} PlainFeedAll(z: Zlib, st: State, chunks: seq<Bytes>)
    requires PlainMode(st)
    ensures FeedAll(z, st, chunks) == Apply(st, FeedChunks(st.recvBuffer, st.nextSeq, st.maxAllowed, chunks))
    decreases |chunks|
  {
    if chunks == [] {
      assert st.recvQueue + [] == st.recvQueue;
    } else {
      PlainFeed(z, st, chunks[0]);
      var r := ParsePlain(st.recvBuffer + chunks[0], st.nextSeq, st.maxAllowed);
      if r.Accepted? {
        PlainFeedAll(z, Apply(st, r).0, chunks[1..]);
        ApplyTwice(st, r, FeedChunks(r.rest, r.seqId, st.maxAllowed, chunks[1..]));
      }
    }
  }

  /** Cut independence of the stream: same queue, leftover, counters and total, or the same error. */
  lemma PlainCutIndependence(z: Zlib, st: State, chunks: seq<Bytes>)
    requires PlainMode(st) && chunks != []
    requires forall i :: 0 < i < |chunks| ==> !Open(st.recvBuffer + Flatten(chunks[..i]), false)
    ensures FeedAll(z, st, chunks) == Feed(z, st, Flatten(chunks))
  {
    PlainFeedAll(z, st, chunks);
    FeedChunksFrom(st.recvBuffer, st.nextSeq, st.maxAllowed, chunks);
    PlainFeed(z, st, Flatten(chunks));
  }

  /** In plain mode writing always succeeds and sends exactly the frames of the payloads. */
  lemma {:induction false} PlainWritten(z: Zlib, w: State, ps: seq<Bytes>)
    requires !w.compressed
    ensures var (w', r) := WriteAll(z, w, ps);
            && r.Ok? && w'.nextSeq == SeqAfter(ps, w.nextSeq)
            && w.sendQueue <= w'.sendQueue && SentBytes(w, w') == FramesAll(ps, w.nextSeq)
    decreases |ps|
  {
    if ps != [] {
      var w1, w' := Write(z, w, ps[0]).0, WriteAll(z, w, ps).0;
      PlainWritten(z, w1, ps[1..]);
      var first := Frames(ps[0], w.nextSeq);
      assert w'.sendQueue[|w.sendQueue|..] == [first] + w'.sendQueue[|w1.sendQueue|..];
    }
  }

  /** A stream of single-frame payloads can be cut anywhere. */
  lemma ShortCutsAreSafe(ps: seq<Bytes>, s: byte, chunks: seq<Bytes>)
    requires Flatten(chunks) == FramesAll(ps, s)
    requires forall p :: p in ps ==> |p| < MAX_PACKET_LEN
    ensures OpenFeeds([], chunks) == 0
  {
    SingleFramesAreShort(ps, s);
    assert [] + Flatten(chunks) == Flatten(chunks);
    ShortFeeds([], chunks);
  }

  /** What feeding the written payloads in pieces comes to, exactly. */
  lemma FeedWritten(ps: seq<Bytes>, s: byte, max: nat, chunks: seq<Bytes>)
    requires (forall p :: p in ps ==> Deliverable(p, max)) && Flatten(chunks) == FramesAll(ps, s)
    ensures FeedChunks([], s, max, chunks) == Accepted(ps, [], SeqAfter(ps, s)) <==> OpenFeeds([], chunks) == 0
  {
    FramingRoundTrip(ps, s, max);
    WrittenCloses(ps, s);
    assert [] + Flatten(chunks) == Flatten(chunks);
    if chunks != [] {
      CutsExactly([], s, max, chunks);
    }
  }

  /**
    * Deliverable payloads arrive in order if and only if no feed is open, that is, completes a full-size frame
    * as its last: there the code would deliver a payload in parts.
    */
  lemma PlainDelivery(z: Zlib, st: State, ps: seq<Bytes>, chunks: seq<Bytes>)
    requires PlainMode(st) && st.recvBuffer == []
    requires forall p :: p in ps ==> Deliverable(p, st.maxAllowed)
    requires Flatten(chunks) == FramesAll(ps, st.nextSeq)
    ensures FeedAll(z, st, chunks) ==
            (st.(recvQueue := st.recvQueue + ps, nextSeq := SeqAfter(ps, st.nextSeq)), Ok(|ps|))
            <==> OpenFeeds([], chunks) == 0
  {
    FeedWritten(ps, st.nextSeq, st.maxAllowed, chunks);
    PlainFeedAll(z, st, chunks);
    ApplyInjective(st, FeedChunks([], st.nextSeq, st.maxAllowed, chunks), ps, SeqAfter(ps, st.nextSeq));
  }

  lemma ApplyInjective(st: State, r: Parse, ps: seq<Bytes>, s: byte)
    requires st.recvBuffer == []
    ensures Apply(st, r) == (st.(recvQueue := st.recvQueue + ps, nextSeq := s), Ok(|ps|)) <==> r == Accepted(ps, [], s)
  {
    if r.Accepted? && st.recvQueue + r.packets == st.recvQueue + ps {
      SameSuffix(st.recvQueue, r.packets, ps);
    }
  }

  lemma SameSuffix(q: seq<Bytes>, a: seq<Bytes>, b: seq<Bytes>)
    requires q + a == q + b
    ensures a == b
  {
    assert a == (q + a)[|q|..] && b == (q + b)[|q|..];
  }

  // ---------------------------------------------------------------- compressed mode

  lemma FlattenSplit(plain: Bytes, pieces: seq<Bytes>, k: nat)
    requires k <= |pieces|
    ensures plain + Flatten(pieces) == plain + Flatten(pieces[..k]) + Flatten(pieces[k..])
  {
    assert Flatten(pieces) == Flatten(pieces[..k]) + Flatten(pieces[k..]) by {
      assert pieces == pieces[..k] + pieces[k..];
      FlattenAppend(pieces[..k], pieces[k..]);
    }
    Associative(plain, Flatten(pieces[..k]), Flatten(pieces[k..]));
  }

  /** The reader is about to receive the compressed frames of `pieces`, of which `recvBuffer` is the start. */
  ghost predicate Receiving(z: Zlib, st: State, pieces: seq<Bytes>, coming: Bytes) {
    && st.compressed && Compressible(z, pieces) && Sized(pieces)
    && st.recvBuffer + coming == Flatten(CFrames(z, pieces, st.nextCSeq))
  }

  /** The plain bytes that each of the chunks `ds` of compressed bytes brings in, up to `limit` for each. */
  function PlainChunks(z: Zlib, recv: Bytes, c: byte, limit: nat, ds: seq<Bytes>): seq<Bytes>
    decreases |ds|
  {
    if ds == [] then []
    else match Inflate(z, recv + ds[0], [], c, limit)
      case Inflated(t, plain, c') => [plain] + PlainChunks(z, t, c', limit, ds[1..])
      case _ => []
  }

  /** At every feed, what is left of the plain bytes and what the feed brings in are together within the size limit. */
  predicate FitsFeeds(rest: Bytes, xs: seq<Bytes>, max: nat)
    decreases |xs|
  {
    xs == [] || (|rest| + |xs[0]| <= max && FitsFeeds(Tail(rest + xs[0]), xs[1..], max))
  }

  /** A stream that is within the limit as a whole fits however it is cut. */
  lemma {:induction false} WholeFits(rest: Bytes, xs: seq<Bytes>, max: nat)
    requires |rest| + |Flatten(xs)| <= max
    ensures FitsFeeds(rest, xs, max)
    decreases |xs|
  {
    if xs != [] {
      WholeFits(Tail(rest + xs[0]), xs[1..], max);
    }
  }

  /** The outcome once the plain bytes parse as `r` and `k` more compressed frames have come. */
  function Then(st: State, r: Parse, k: nat): (State, Result<nat>)
    requires r.Accepted?
  {
    (st.(recvQueue := st.recvQueue + r.packets, recvBuffer := [], decompressed := r.rest, nextSeq := r.seqId,
         nextCSeq := SeqPlus(st.nextCSeq, k)),
     Ok(|r.packets|))
  }

  /** The state after a feed that brought `k` frames, whose plain bytes parsed as `r`, and left `t` in the buffer. */
  function Advanced(st: State, r: Parse, t: Bytes, k: nat): State
    requires r.Accepted?
  {
    st.(recvQueue := st.recvQueue + r.packets, recvBuffer := t, decompressed := r.rest, nextSeq := r.seqId,
        nextCSeq := SeqPlus(st.nextCSeq, k))
  }

  function ErrorOf(r: Parse): Error
    requires !r.Accepted?
  {
    if r.Raised? then RaisedByServer(r.payload) else r.error
  }

  lemma ThenStep(st: State, r: Parse, t: Bytes, k: nat, r': Parse, k': nat)
    requires r.Accepted? && r'.Accepted?
    ensures Prepend(r.packets, r').Accepted?
    ensures Then(Advanced(st, r, t, k), r', k').0 == Then(st, Prepend(r.packets, r'), k + k').0
    ensures Then(st, Prepend(r.packets, r'), k + k').1 == Ok(|r.packets| + |r'.packets|)
  {
    SeqPlusAdd(st.nextCSeq, k, k');
    Associative(st.recvQueue, r.packets, r'.packets);
  }

  /** One feed that inflates to the plain bytes `plain` and leaves `t` in the buffer. */
  lemma CompressedFeed(z: Zlib, st: State, data: Bytes, plain: Bytes, t: Bytes, k: nat)
    requires st.compressed
    requires Inflate(z, st.recvBuffer + data, st.decompressed, st.nextCSeq, st.maxAllowed)
             == Inflated(t, plain, SeqPlus(st.nextCSeq, k))
    ensures var r := ParsePlain(plain, st.nextSeq, st.maxAllowed);
            if r.Accepted? then Feed(z, st, data) == (Advanced(st, r, t, k), Ok(|r.packets|))
            else RefusedAs(st, Feed(z, st, data), r)
  {
  }

  /** Inflating whole frames and an incomplete one. */
  lemma InflateWhole(z: Zlib, pieces: seq<Bytes>, c: byte, t: Bytes, plain: Bytes, max: nat)
    requires Inverse(z) && Compressible(z, pieces) && Sized(pieces) && !HasCFrame(t)
    requires |plain| + |Flatten(pieces)| <= max
    ensures Inflate(z, Flatten(CFrames(z, pieces, c)) + t, plain, c, max)
            == Inflated(t, plain + Flatten(pieces), SeqPlus(c, |pieces|))
  {
    InflateFrames(z, pieces, c, t, plain, max);
  }

  /** One chunk of compressed bytes brings in some whole pieces. */
  lemma {:induction false} InflateChunk(z: Zlib, st: State, pieces: seq<Bytes>, data: Bytes, coming: Bytes, limit: nat)
    returns (k: nat, t: Bytes)
    requires Inverse(z) && Receiving(z, st, pieces, data + coming) && |Flatten(pieces)| <= limit
    ensures k <= |pieces| && !HasCFrame(t)
    ensures st.recvBuffer + data == Flatten(CFrames(z, pieces[..k], st.nextCSeq)) + t
    ensures Inflate(z, st.recvBuffer + data, [], st.nextCSeq, limit)
            == Inflated(t, Flatten(pieces[..k]), SeqPlus(st.nextCSeq, k))
    ensures t + coming == Flatten(CFrames(z, pieces[k..], SeqPlus(st.nextCSeq, k)))
    ensures Flatten(pieces) == Flatten(pieces[..k]) + Flatten(pieces[k..])
  {
    Associative(st.recvBuffer, data, coming);
    k, t := SplitPrefix(z, pieces, st.nextCSeq, st.recvBuffer + data, coming);
    FlattenSplit([], pieces, k);
    assert [] + Flatten(pieces[..k]) == Flatten(pieces[..k]) && [] + Flatten(pieces) == Flatten(pieces);
    InflateWhole(z, pieces[..k], st.nextCSeq, t, [], limit);
  }

  /** It is received as those plain bytes if they fit, and refused otherwise. */
  lemma ReceiveChunk(z: Zlib, st: State, pieces: seq<Bytes>, data: Bytes, t: Bytes)
    requires Inverse(z) && st.compressed && Compressible(z, pieces) && Sized(pieces) && !HasCFrame(t)
    requires st.recvBuffer + data == Flatten(CFrames(z, pieces, st.nextCSeq)) + t
    ensures var r := ParsePlain(st.decompressed + Flatten(pieces), st.nextSeq, st.maxAllowed);
            if |st.decompressed| + |Flatten(pieces)| > st.maxAllowed then
              |st.decompressed| <= st.maxAllowed ==>
                Feed(z, st, data).1 == Err(OperationalError(CR_NET_PACKET_TOO_LARGE))
            else if r.Accepted? then Feed(z, st, data) == (Advanced(st, r, t, |pieces|), Ok(|r.packets|))
            else RefusedAs(st, Feed(z, st, data), r)
  {
    if |st.decompressed| + |Flatten(pieces)| <= st.maxAllowed {
      InflateWhole(z, pieces, st.nextCSeq, t, st.decompressed, st.maxAllowed);
      CompressedFeed(z, st, data, st.decompressed + Flatten(pieces), t, |pieces|);
    } else if |st.decompressed| <= st.maxAllowed {
      InflateOverflow(z, pieces, st.nextCSeq, t, st.decompressed, st.maxAllowed);
    }
  }

  /** The compressed bytes, however they are cut, inflate to the plain stream, cut accordingly. */
  lemma {:induction false} PlainChunksFlatten(z: Zlib, st: State, pieces: seq<Bytes>, ds: seq<Bytes>, limit: nat)
    requires Inverse(z) && Receiving(z, st, pieces, Flatten(ds)) && |Flatten(pieces)| <= limit
    requires ds == [] ==> !HasCFrame(st.recvBuffer)
    ensures var xs := PlainChunks(z, st.recvBuffer, st.nextCSeq, limit, ds);
            |xs| == |ds| && Flatten(xs) == Flatten(pieces)
    decreases |ds|
  {
    if ds == [] {
      NothingLeft(z, pieces, st.nextCSeq, st.recvBuffer);
    } else {
      var k, t := InflateChunk(z, st, pieces, ds[0], Flatten(ds[1..]), limit);
      var st' := st.(recvBuffer := t, nextCSeq := SeqPlus(st.nextCSeq, k));
      PlainChunksFlatten(z, st', pieces[k..], ds[1..], limit);
    }
  }

  /**
    * A stream that is refused: the error, the packets kept (those before an ERR packet, or none) and the number of the
    * next frame are what the parse says.
    */
  predicate RefusedAs(st: State, outcome: (State, Result<nat>), r: Parse)
    requires !r.Accepted?
  {
    && outcome.1 == Err(ErrorOf(r)) && outcome.0.nextSeq == r.seqId
    && outcome.0.recvQueue == if r.Raised? then st.recvQueue + r.packets else []
  }

  /** The outcomes of feeding compressed chunks and of feeding plain chunks that parse as `r` are the same. */
  ghost predicate Refines(z: Zlib, st: State, ds: seq<Bytes>, r: Parse, k: nat) {
    if r.Accepted? then FeedAll(z, st, ds) == Then(st, r, k) else RefusedAs(st, FeedAll(z, st, ds), r)
  }

  /** Feeding plain chunks, one at a time. */
  lemma FirstChunk(rest: Bytes, s: byte, max: nat, x: Bytes, later: seq<Bytes>)
    ensures var r := ParsePlain(rest + x, s, max);
            if r.Accepted? then
              && FeedChunks(rest, s, max, [x] + later) == Prepend(r.packets, FeedChunks(r.rest, r.seqId, max, later))
              && FitsFeeds(rest, [x] + later, max) == (|rest| + |x| <= max && FitsFeeds(r.rest, later, max))
              && |r.rest| <= |rest| + |x|
            else
              && (FitsFeeds(rest, [x] + later, max) ==> |rest| + |x| <= max)
              && !FeedChunks(rest, s, max, [x] + later).Accepted?
              && FeedChunks(rest, s, max, [x] + later) == r
  {
    assert ([x] + later)[1..] == later;
    if ParsePlain(rest + x, s, max).Accepted? {
      ParseTail(rest + x, s, max);
    }
  }

  /** What the first of several feeds brings in, and what is left to receive. */
  lemma {:induction false} FirstInflate(z: Zlib, st: State, pieces: seq<Bytes>, ds: seq<Bytes>, limit: nat)
    returns (k: nat, t: Bytes, later: seq<Bytes>)
    requires Inverse(z) && ds != [] && Receiving(z, st, pieces, Flatten(ds)) && |Flatten(pieces)| <= limit
    ensures k <= |pieces| && !HasCFrame(t) && |Flatten(pieces[k..])| <= limit
    ensures Compressible(z, pieces[..k]) && Sized(pieces[..k])
    ensures st.recvBuffer + ds[0] == Flatten(CFrames(z, pieces[..k], st.nextCSeq)) + t
    ensures PlainChunks(z, st.recvBuffer, st.nextCSeq, limit, ds) == [Flatten(pieces[..k])] + later
    ensures later == PlainChunks(z, t, SeqPlus(st.nextCSeq, k), limit, ds[1..])
    ensures var st' := st.(recvBuffer := t, nextCSeq := SeqPlus(st.nextCSeq, k));
            Receiving(z, st', pieces[k..], Flatten(ds[1..]))
  {
    k, t := InflateChunk(z, st, pieces, ds[0], Flatten(ds[1..]), limit);
    later := PlainChunks(z, t, SeqPlus(st.nextCSeq, k), limit, ds[1..]);
  }

  /** The first of several feeds, on both layers. */
  lemma {:induction false} FirstFeed(z: Zlib, st: State, pieces: seq<Bytes>, ds: seq<Bytes>, limit: nat)
    returns (k: nat, t: Bytes, x: Bytes, later: seq<Bytes>)
    requires Inverse(z) && ds != [] && Receiving(z, st, pieces, Flatten(ds)) && |Flatten(pieces)| <= limit
    ensures k <= |pieces| && !HasCFrame(t) && |Flatten(pieces[k..])| <= limit
    ensures PlainChunks(z, st.recvBuffer, st.nextCSeq, limit, ds) == [x] + later
    ensures later == PlainChunks(z, t, SeqPlus(st.nextCSeq, k), limit, ds[1..])
    ensures var st' := st.(recvBuffer := t, nextCSeq := SeqPlus(st.nextCSeq, k));
            Receiving(z, st', pieces[k..], Flatten(ds[1..]))
    ensures var r := ParsePlain(st.decompressed + x, st.nextSeq, st.maxAllowed);
            if |st.decompressed| + |x| > st.maxAllowed then
              |st.decompressed| <= st.maxAllowed ==>
                Feed(z, st, ds[0]).1 == Err(OperationalError(CR_NET_PACKET_TOO_LARGE))
            else if r.Accepted? then Feed(z, st, ds[0]) == (Advanced(st, r, t, k), Ok(|r.packets|))
            else RefusedAs(st, Feed(z, st, ds[0]), r)
  {
    k, t, later := FirstInflate(z, st, pieces, ds, limit);
    x := Flatten(pieces[..k]);
    ReceiveChunk(z, st, pieces[..k], ds[0], t);
  }

  /**
    * Compressed transport refines plain transport: however the compressed bytes are cut, if every feed fits, the
    * outcome is that of feeding the plain frame stream, cut where the inflated bytes are cut. This holds for payloads
    * of any size, for partial payloads, and for streams that are refused.
    */
  lemma {:induction false} CompressedRefinesPlain(z: Zlib, st: State, pieces: seq<Bytes>, ds: seq<Bytes>, limit: nat)
    requires Inverse(z) && Receiving(z, st, pieces, Flatten(ds)) && |Flatten(pieces)| <= limit
    requires ds == [] ==> !HasCFrame(st.recvBuffer)
    requires FitsFeeds(st.decompressed, PlainChunks(z, st.recvBuffer, st.nextCSeq, limit, ds), st.maxAllowed)
    ensures var xs := PlainChunks(z, st.recvBuffer, st.nextCSeq, limit, ds);
            Refines(z, st, ds, FeedChunks(st.decompressed, st.nextSeq, st.maxAllowed, xs), |pieces|)
    decreases |ds|
  {
    if ds == [] {
      NothingLeft(z, pieces, st.nextCSeq, st.recvBuffer);
      NoFeeds(z, st);
    } else {
      var k, t, x, later := FirstFeed(z, st, pieces, ds, limit);
      FirstChunk(st.decompressed, st.nextSeq, st.maxAllowed, x, later);
      var r := ParsePlain(st.decompressed + x, st.nextSeq, st.maxAllowed);
      if r.Accepted? {
        CompressedRefinesPlain(z, Advanced(st, r, t, k), pieces[k..], ds[1..], limit);
      }
      RefinesFirst(z, st, ds, x, later, t, k, |pieces|);
    }
  }

  /** The first feed refines the first plain chunk, and the others the rest. */
  lemma RefinesFirst(z: Zlib, st: State, ds: seq<Bytes>, x: Bytes, later: seq<Bytes>, t: Bytes, k: nat, n: nat)
    requires ds != [] && k <= n
    requires var r := ParsePlain(st.decompressed + x, st.nextSeq, st.maxAllowed);
             if r.Accepted? then
               && Feed(z, st, ds[0]) == (Advanced(st, r, t, k), Ok(|r.packets|))
               && Refines(z, Advanced(st, r, t, k), ds[1..], FeedChunks(r.rest, r.seqId, st.maxAllowed, later), n - k)
             else RefusedAs(st, Feed(z, st, ds[0]), r)
    ensures Refines(z, st, ds, FeedChunks(st.decompressed, st.nextSeq, st.maxAllowed, [x] + later), n)
  {
    FirstChunk(st.decompressed, st.nextSeq, st.maxAllowed, x, later);
    var r := ParsePlain(st.decompressed + x, st.nextSeq, st.maxAllowed);
    if r.Accepted? {
      RefinesStep(z, st, ds, r, t, k, FeedChunks(r.rest, r.seqId, st.maxAllowed, later), n - k);
    } else {
      RefusedFirst(z, st, ds, r);
    }
  }

  lemma NoFeeds(z: Zlib, st: State)
    requires st.recvBuffer == []
    ensures FeedAll(z, st, []) == Then(st, Accepted([], st.decompressed, st.nextSeq), 0)
  {
    assert st.recvQueue + [] == st.recvQueue;
  }

  lemma RefusedFirst(z: Zlib, st: State, ds: seq<Bytes>, r: Parse)
    requires ds != [] && !r.Accepted? && RefusedAs(st, Feed(z, st, ds[0]), r)
    ensures RefusedAs(st, FeedAll(z, st, ds), r)
  {
  }

  /** The condition is exact: a stream that would be accepted is refused as soon as one feed does not fit. */
  lemma {:induction false} OverfullFeedRefused(z: Zlib, st: State, pieces: seq<Bytes>, ds: seq<Bytes>, limit: nat)
    requires Inverse(z) && Receiving(z, st, pieces, Flatten(ds)) && |Flatten(pieces)| <= limit
    requires |st.decompressed| <= st.maxAllowed
    requires var xs := PlainChunks(z, st.recvBuffer, st.nextCSeq, limit, ds);
             && !FitsFeeds(st.decompressed, xs, st.maxAllowed)
             && FeedChunks(st.decompressed, st.nextSeq, st.maxAllowed, xs).Accepted?
    ensures FeedAll(z, st, ds).1 == Err(OperationalError(CR_NET_PACKET_TOO_LARGE))
    decreases |ds|
  {
    var k, t, x, later := FirstFeed(z, st, pieces, ds, limit);
    FirstChunk(st.decompressed, st.nextSeq, st.maxAllowed, x, later);
    if |st.decompressed| + |x| <= st.maxAllowed {
      var r := ParsePlain(st.decompressed + x, st.nextSeq, st.maxAllowed);
      OverfullFeedRefused(z, Advanced(st, r, t, k), pieces[k..], ds[1..], limit);
    }
  }

  /** A feed that does not fit makes the reader fail, unless it has failed before. */
  lemma {:induction false} OverfullFeedFails(z: Zlib, st: State, pieces: seq<Bytes>, ds: seq<Bytes>, limit: nat)
    requires Inverse(z) && Receiving(z, st, pieces, Flatten(ds)) && |Flatten(pieces)| <= limit
    requires |st.decompressed| <= st.maxAllowed
    requires !FitsFeeds(st.decompressed, PlainChunks(z, st.recvBuffer, st.nextCSeq, limit, ds), st.maxAllowed)
    ensures FeedAll(z, st, ds).1.Err?
    decreases |ds|
  {
    var k, t, x, later := FirstFeed(z, st, pieces, ds, limit);
    FirstChunk(st.decompressed, st.nextSeq, st.maxAllowed, x, later);
    var r := ParsePlain(st.decompressed + x, st.nextSeq, st.maxAllowed);
    if |st.decompressed| + |x| <= st.maxAllowed && r.Accepted? {
      OverfullFeedFails(z, Advanced(st, r, t, k), pieces[k..], ds[1..], limit);
    }
  }

  lemma RefinesStep(z: Zlib, st: State, ds: seq<Bytes>, r: Parse, t: Bytes, k: nat, r': Parse, k': nat)
    requires ds != [] && r.Accepted? && Feed(z, st, ds[0]) == (Advanced(st, r, t, k), Ok(|r.packets|))
    requires Refines(z, Advanced(st, r, t, k), ds[1..], r', k')
    ensures Refines(z, st, ds, Prepend(r.packets, r'), k + k')
  {
    if r'.Accepted? {
      ThenStep(st, r, t, k, r', k');
    } else if r'.Raised? {
      Associative(st.recvQueue, r.packets, r'.packets);
    }
  }

  lemma NothingLeft(z: Zlib, pieces: seq<Bytes>, c: byte, t: Bytes)
    requires Inverse(z) && Compressible(z, pieces) && !HasCFrame(t)
    requires Sized(pieces)
    requires t + Flatten<byte>([]) == Flatten(CFrames(z, pieces, c))
    ensures pieces == [] && t == []
  {
    if pieces != [] {
      CFramesUnfold(z, pieces, c);
      InflateStep(z, pieces[0], c, Flatten(CFrames(z, pieces[1..], NextSeq(c))), [], 0);
    }
    assert t + [] == t;
  }

  lemma {:induction false} DeflateSucceeds(z: Zlib, pieces: seq<Bytes>, c: byte)
    ensures Deflate(z, pieces, c).1 <==> forall p :: p in pieces ==> z.compress(p).Some?
    decreases |pieces|
  {
    if pieces != [] {
      DeflateSucceeds(z, pieces[1..], NextSeq(c));
      assert pieces == [pieces[0]] + pieces[1..];
    }
  }

  /** Writing fails only where zlib does: no payload is too large to write, in either mode. */
  lemma {:induction false} WritesSucceed(z: Zlib, w: State, ps: seq<Bytes>)
    requires w.compressed ==> forall b :: z.compress(b).Some?
    ensures WriteAll(z, w, ps).1.Ok?
    decreases |ps|
  {
    if ps != [] {
      DeflateSucceeds(z, Pieces(Frames(ps[0], w.nextSeq)), w.nextCSeq);
      WritesSucceed(z, Write(z, w, ps[0]).0, ps[1..]);
    }
  }

  /** Every write that succeeds puts the compressed frames of its plain frame stream on the queue. */
  lemma {:induction false} DeflateOk(z: Zlib, pieces: seq<Bytes>, c: byte)
    requires Deflate(z, pieces, c).1
    ensures Compressible(z, pieces) && Deflate(z, pieces, c).0 == CFrames(z, pieces, c)
    ensures |CFrames(z, pieces, c)| == |pieces|
    decreases |pieces|
  {
    if pieces != [] {
      DeflateOk(z, pieces[1..], NextSeq(c));
    }
  }

  lemma {:induction false} WrittenOne(z: Zlib, w: State, p: Bytes) returns (pieces: seq<Bytes>)
    requires w.compressed && Write(z, w, p).1.Ok?
    ensures Compressible(z, pieces) && Sized(pieces)
    ensures Flatten(pieces) == Frames(p, w.nextSeq)
    ensures Write(z, w, p).0 ==
            w.(sendQueue := w.sendQueue + CFrames(z, pieces, w.nextCSeq), nextSeq := SeqPlus(w.nextSeq, FrameCount(p)),
               nextCSeq := SeqPlus(w.nextCSeq, |pieces|))
  {
    pieces := Pieces(Frames(p, w.nextSeq));
    PiecesFlatten(Frames(p, w.nextSeq));
    DeflateOk(z, pieces, w.nextCSeq);
  }

  lemma {:induction false} JoinPieces(z: Zlib, queue: seq<Bytes>, first: seq<Bytes>, more: seq<Bytes>, c: byte)
    returns (pieces: seq<Bytes>)
    requires Compressible(z, first) && Compressible(z, more) && Sized(first) && Sized(more)
    ensures pieces == first + more && Compressible(z, pieces) && Sized(pieces)
    ensures Flatten(pieces) == Flatten(first) + Flatten(more)
    ensures queue + CFrames(z, first, c) + CFrames(z, more, SeqPlus(c, |first|)) == queue + CFrames(z, pieces, c)
    ensures SeqPlus(SeqPlus(c, |first|), |more|) == SeqPlus(c, |pieces|)
  {
    pieces := first + more;
    FlattenAppend(first, more);
    CFramesAppend(z, first, more, c);
    SeqPlusAdd(c, |first|, |more|);
    Associative(queue, CFrames(z, first, c), CFrames(z, more, SeqPlus(c, |first|)));
  }

  lemma {:induction false} WrittenPieces(z: Zlib, w: State, ps: seq<Bytes>) returns (pieces: seq<Bytes>)
    requires w.compressed && WriteAll(z, w, ps).1.Ok?
    ensures Compressible(z, pieces) && Sized(pieces)
    ensures Flatten(pieces) == FramesAll(ps, w.nextSeq)
    ensures WriteAll(z, w, ps).0 ==
            w.(sendQueue := w.sendQueue + CFrames(z, pieces, w.nextCSeq), nextSeq := SeqAfter(ps, w.nextSeq),
               nextCSeq := SeqPlus(w.nextCSeq, |pieces|))
    decreases |ps|
  {
    if ps == [] {
      pieces := [];
      assert w.sendQueue + CFrames(z, [], w.nextCSeq) == w.sendQueue;
    } else {
      var first := WrittenOne(z, w, ps[0]);
      var w' := Write(z, w, ps[0]).0;
      var more := WrittenPieces(z, w', ps[1..]);
      pieces := JoinPieces(z, w.sendQueue, first, more, w.nextCSeq);
    }
  }

  /** The frames of the payloads `ps`, cut as the compressed bytes `ds` that carry them are. */
  function InflatedChunks(z: Zlib, st: State, ps: seq<Bytes>, ds: seq<Bytes>): seq<Bytes> {
    PlainChunks(z, st.recvBuffer, st.nextCSeq, |FramesAll(ps, st.nextSeq)|, ds)
  }

  /** A reader in step with the writer is sent the payloads `ps`. */
  ghost predicate InStep(z: Zlib, w: State, st: State, ps: seq<Bytes>, ds: seq<Bytes>) {
    && Inverse(z) && w.compressed && WriteAll(z, w, ps).1.Ok?
    && st.compressed && st.recvBuffer == [] && st.decompressed == []
    && st.nextSeq == w.nextSeq && st.nextCSeq == w.nextCSeq
    && Flatten(ds) == SentBytes(w, WriteAll(z, w, ps).0)
  }

  /** All payloads arrived, in order, and the counters of both layers are the writer's. */
  predicate Delivered(z: Zlib, w: State, st: State, ps: seq<Bytes>, ds: seq<Bytes>) {
    var w' := WriteAll(z, w, ps).0;
    FeedAll(z, st, ds) ==
    (st.(recvQueue := st.recvQueue + ps, nextSeq := w'.nextSeq, nextCSeq := w'.nextCSeq), Ok(|ps|))
  }

  /**
    * Deliverable payloads written in compressed mode arrive at a reader in step with the writer, however the compressed
    * bytes are cut, if and only if at every feed the undrained plain bytes are within the size limit and no feed is
    * open.
    */
  lemma CompressedDelivery(z: Zlib, w: State, st: State, ps: seq<Bytes>, ds: seq<Bytes>)
    requires InStep(z, w, st, ps, ds) && (forall p :: p in ps ==> Deliverable(p, st.maxAllowed))
    ensures var xs := InflatedChunks(z, st, ps, ds);
            Delivered(z, w, st, ps, ds) <==> FitsFeeds([], xs, st.maxAllowed) && OpenFeeds([], xs) == 0
  {
    var xs, total := InflatedChunks(z, st, ps, ds), |FramesAll(ps, st.nextSeq)|;
    var pieces := SentPieces(z, w, st, ps, ds);
    PlainChunksFlatten(z, st, pieces, ds, total);
    FeedWritten(ps, st.nextSeq, st.maxAllowed, xs);
    if FitsFeeds([], xs, st.maxAllowed) {
      CompressedRefinesPlain(z, st, pieces, ds, total);
      ThenInjective(st, FeedChunks([], st.nextSeq, st.maxAllowed, xs), |pieces|, ps, SeqAfter(ps, st.nextSeq));
    } else {
      OverfullFeedFails(z, st, pieces, ds, total);
    }
  }

  lemma ThenInjective(st: State, r: Parse, k: nat, ps: seq<Bytes>, s: byte)
    requires st.recvBuffer == [] && st.decompressed == []
    ensures r.Accepted? ==>
              (Then(st, r, k) ==
               (st.(recvQueue := st.recvQueue + ps, nextSeq := s, nextCSeq := SeqPlus(st.nextCSeq, k)), Ok(|ps|))
               <==> r == Accepted(ps, [], s))
  {
    if r.Accepted? && st.recvQueue + r.packets == st.recvQueue + ps {
      SameSuffix(st.recvQueue, r.packets, ps);
    }
  }

  lemma {:induction false} SentPieces(z: Zlib, w: State, st: State, ps: seq<Bytes>, ds: seq<Bytes>)
    returns (pieces: seq<Bytes>)
    requires InStep(z, w, st, ps, ds)
    ensures Receiving(z, st, pieces, Flatten(ds)) && Flatten(pieces) == FramesAll(ps, w.nextSeq)
    ensures var w' := WriteAll(z, w, ps).0;
            w'.nextSeq == SeqAfter(ps, w.nextSeq) && w'.nextCSeq == SeqPlus(w.nextCSeq, |pieces|)
  {
    pieces := WrittenPieces(z, w, ps);
    var w' := WriteAll(z, w, ps).0;
    assert w'.sendQueue[|w.sendQueue|..] == CFrames(z, pieces, w.nextCSeq);
    assert [] + Flatten(ds) == Flatten(ds);
  }

  /** Single-frame payloads that are within the limit as a whole arrive for every cut of the compressed bytes. */
  lemma CompressedAnyCut(z: Zlib, w: State, st: State, ps: seq<Bytes>, ds: seq<Bytes>)
    requires InStep(z, w, st, ps, ds) && |FramesAll(ps, w.nextSeq)| <= st.maxAllowed
    requires forall p :: p in ps ==> |p| < MAX_PACKET_LEN && !IsErrorPacket(p)
    ensures Delivered(z, w, st, ps, ds)
  {
    var xs := InflatedChunks(z, st, ps, ds);
    var pieces := SentPieces(z, w, st, ps, ds);
    PlainChunksFlatten(z, st, pieces, ds, |FramesAll(ps, st.nextSeq)|);
    ShortCutsAreSafe(ps, w.nextSeq, xs);
    WholeFits([], xs, st.maxAllowed);
    forall p | p in ps ensures Deliverable(p, st.maxAllowed) {
      PayloadWithinStream(ps, w.nextSeq, p);
    }
    CompressedDelivery(z, w, st, ps, ds);
  }

  lemma {:induction false} FramesAreLonger(p: Bytes, s: byte)
    ensures |p| <= |Frames(p, s)|
    decreases |p|
  {
    if |p| >= MAX_PACKET_LEN {
      FramesAreLonger(p[MAX_PACKET_LEN..], NextSeq(s));
    }
  }

  lemma {:induction false} PayloadWithinStream(ps: seq<Bytes>, s: byte, p: Bytes)
    requires p in ps
    ensures |p| <= |FramesAll(ps, s)|
  {
    FramesAreLonger(ps[0], s);
    if p != ps[0] {
      PayloadWithinStream(ps[1..], SeqPlus(s, FrameCount(ps[0])), p);
    }
  }

  /** One feed that brings in a longer plain stream than the size limit is refused and empties the reader. */
  lemma CompressedLimit(z: Zlib, w: State, st: State, ps: seq<Bytes>)
    requires Inverse(z) && w.compressed && WriteAll(z, w, ps).1.Ok?
    requires st.compressed && st.recvBuffer == [] && st.decompressed == [] && st.nextCSeq == w.nextCSeq
    requires |FramesAll(ps, w.nextSeq)| > st.maxAllowed
    ensures var (st', r) := Feed(z, st, SentBytes(w, WriteAll(z, w, ps).0));
            r == Err(OperationalError(CR_NET_PACKET_TOO_LARGE)) && st'.recvQueue == []
  {
    var pieces := WrittenPieces(z, w, ps);
    var w' := WriteAll(z, w, ps).0;
    assert w'.sendQueue[|w.sendQueue|..] == CFrames(z, pieces, w.nextCSeq);
    var bytes := Flatten(CFrames(z, pieces, w.nextCSeq));
    assert [] + bytes == bytes + [];
    InflateOverflow(z, pieces, w.nextCSeq, [], [], st.maxAllowed);
  }

  // ---------------------------------------------------------------- sequence numbers over runs

  datatype Op = Send(payload: Bytes) | Receive(data: Bytes) | Take

  function Step(z: Zlib, st: State, op: Op): (State, bool) {
    match op
    case Send(p) => var (st', r) := Write(z, st, p); (st', r.Ok?)
    case Receive(d) => var (st', r) := Feed(z, st, d); (st', r.Ok?)
    case Take => if st.recvQueue == [] then (st, false) else (st.(recvQueue := st.recvQueue[1..]), true)
  }

  /** The bytes whose frames an operation puts on the wire or takes off it. */
  function WireBytes(z: Zlib, st: State, op: Op): Bytes {
    match op
    case Send(p) =>
      var st' := Write(z, st, p).0;
      SentBytes(st, st')
    case Receive(d) => st.recvBuffer + d
    case Take => []
  }

  /** The plain frame stream an operation handles: in compressed mode, the one inside the compressed frames. */
  function InnerBytes(z: Zlib, st: State, op: Op): Bytes {
    match op
    case Send(p) => Frames(p, st.nextSeq)
    case Receive(d) =>
      if st.compressed then InflateInto(z, st.(recvBuffer := st.recvBuffer + d)).0.decompressed else st.recvBuffer + d
    case Take => []
  }

  function Run(z: Zlib, st: State, ops: seq<Op>): (State, bool)
    decreases |ops|
  {
    if ops == [] then (st, true)
    else
      var (st', ok) := Step(z, st, ops[0]);
      if ok then Run(z, st', ops[1..]) else (st', false)
  }

  function OuterLog(z: Zlib, st: State, ops: seq<Op>): seq<byte>
    decreases |ops|
  {
    if ops == [] then []
    else
      var b := WireBytes(z, st, ops[0]);
      (if st.compressed then CNumbers(b) else Numbers(b)) + OuterLog(z, Step(z, st, ops[0]).0, ops[1..])
  }

  function InnerLog(z: Zlib, st: State, ops: seq<Op>): seq<byte>
    decreases |ops|
  {
    if ops == [] then []
    else Numbers(InnerBytes(z, st, ops[0])) + InnerLog(z, Step(z, st, ops[0]).0, ops[1..])
  }

  function OuterCounter(st: State): byte { if st.compressed then st.nextCSeq else st.nextSeq }

  predicate RunMode(st: State) { st.compressed || PlainMode(st) }

  lemma StepNumbers(z: Zlib, st: State, op: Op)
    requires RunMode(st) && Step(z, st, op).1
    ensures RunMode(Step(z, st, op).0) && Step(z, st, op).0.compressed == st.compressed
    ensures var ns := Numbers(InnerBytes(z, st, op));
            Consecutive(ns, st.nextSeq) && Step(z, st, op).0.nextSeq == SeqPlus(st.nextSeq, |ns|)
  {
    match op
    case Send(p) => WrittenNumbers(p, st.nextSeq);
    case Receive(d) =>
      if st.compressed {
        AcceptedNumbers(InnerBytes(z, st, op), st.nextSeq, st.maxAllowed);
      } else {
        PlainFeed(z, st, d);
        AcceptedNumbers(st.recvBuffer + d, st.nextSeq, st.maxAllowed);
      }
    case Take =>
  }

  /** In plain mode the frames on the wire are the inner frames. */
  lemma PlainWire(z: Zlib, st: State, op: Op)
    requires PlainMode(st) && Step(z, st, op).1
    ensures WireBytes(z, st, op) == InnerBytes(z, st, op)
  {
    if op.Send? {
      PlainWritten(z, st, [op.payload]);
      var frames := Frames(op.payload, st.nextSeq);
      assert FramesAll([op.payload], st.nextSeq) == frames;
      assert WriteAll(z, st, [op.payload]).0 == Write(z, st, op.payload).0;
    }
  }

  lemma CompressedSendNumbers(z: Zlib, st: State, p: Bytes)
    requires st.compressed && Write(z, st, p).1.Ok?
    ensures var st' := Write(z, st, p).0; var ns := CNumbers(SentBytes(st, st'));
            Consecutive(ns, st.nextCSeq) && st'.nextCSeq == SeqPlus(st.nextCSeq, |ns|)
  {
    var st', pieces := Write(z, st, p).0, Pieces(Frames(p, st.nextSeq));
    DeflateOk(z, pieces, st.nextCSeq);
    CWrittenNumbers(z, pieces, st.nextCSeq);
    assert st'.sendQueue[|st.sendQueue|..] == CFrames(z, pieces, st.nextCSeq);
  }

  lemma StepOuterNumbers(z: Zlib, st: State, op: Op)
    requires RunMode(st) && Step(z, st, op).1
    ensures var b := WireBytes(z, st, op);
            var ns := if st.compressed then CNumbers(b) else Numbers(b);
            Consecutive(ns, OuterCounter(st)) && OuterCounter(Step(z, st, op).0) == SeqPlus(OuterCounter(st), |ns|)
  {
    if !st.compressed {
      StepNumbers(z, st, op);
      PlainWire(z, st, op);
    } else {
      match op
      case Send(p) => CompressedSendNumbers(z, st, p);
      case Receive(d) => InflatedNumbers(z, st.recvBuffer + d, st.decompressed, st.nextCSeq, st.maxAllowed);
      case Take =>
    }
  }

  /**
    * Over every successful run of sends, receives and takes, in plain or compressed mode: the frames of
    * each layer, in both directions together, are numbered consecutively modulo 256, and each counter
    * has advanced by the number of its frames.
    */
  lemma {:induction false} SequenceNumbersOverRuns(z: Zlib, st: State, ops: seq<Op>)
    requires RunMode(st) && Run(z, st, ops).1
    ensures Consecutive(InnerLog(z, st, ops), st.nextSeq)
    ensures Run(z, st, ops).0.nextSeq == SeqPlus(st.nextSeq, |InnerLog(z, st, ops)|)
    ensures Consecutive(OuterLog(z, st, ops), OuterCounter(st))
    ensures OuterCounter(Run(z, st, ops).0) == SeqPlus(OuterCounter(st), |OuterLog(z, st, ops)|)
    decreases |ops|
  {
    if ops != [] {
      var st' := Step(z, st, ops[0]).0;
      StepNumbers(z, st, ops[0]);
      StepOuterNumbers(z, st, ops[0]);
      SequenceNumbersOverRuns(z, st', ops[1..]);
      RunLogStep(Numbers(InnerBytes(z, st, ops[0])), InnerLog(z, st', ops[1..]), st.nextSeq);
      var b := WireBytes(z, st, ops[0]);
      RunLogStep(if st.compressed then CNumbers(b) else Numbers(b), OuterLog(z, st', ops[1..]), OuterCounter(st));
    }
  }

  lemma RunLogStep(ns: seq<byte>, ms: seq<byte>, s: byte)
    requires Consecutive(ns, s) && Consecutive(ms, SeqPlus(s, |ns|))
    ensures Consecutive(ns + ms, s) && SeqPlus(SeqPlus(s, |ns|), |ms|) == SeqPlus(s, |ns + ms|)
  {
    ConsecutiveAppend(ns, ms, s);
    SeqPlusAdd(s, |ns|, |ms|);
  }

  lemma {:induction false} CountedFromZero(log: seq<byte>)
    requires Consecutive(log, 0)
    ensures forall i :: 0 <= i < |log| ==> log[i] == i % 256
    ensures SeqPlus(0, |log|) == |log| % 256
  {
    forall i | 0 <= i < |log| ensures log[i] == i % 256 {
      ConsecutiveAt(log, 0, i);
      SeqPlusValue(0, i);
    }
    SeqPlusValue(0, |log|);
  }

  /** After a reset, the i-th frame carries i modulo 256, and each counter is the number of its frames modulo 256. */
  lemma NumbersSinceReset(z: Zlib, st: State, ops: seq<Op>)
    requires RunMode(st) && st.nextSeq == 0 && OuterCounter(st) == 0 && Run(z, st, ops).1
    ensures forall i :: 0 <= i < |OuterLog(z, st, ops)| ==> OuterLog(z, st, ops)[i] == i % 256
    ensures forall i :: 0 <= i < |InnerLog(z, st, ops)| ==> InnerLog(z, st, ops)[i] == i % 256
    ensures OuterCounter(Run(z, st, ops).0) == |OuterLog(z, st, ops)| % 256
    ensures Run(z, st, ops).0.nextSeq == |InnerLog(z, st, ops)| % 256
  {
    SequenceNumbersOverRuns(z, st, ops);
    CountedFromZero(OuterLog(z, st, ops));
    CountedFromZero(InnerLog(z, st, ops));
  }
}
