/** What the driver's bounded reads can deliver: it feeds the packet stream at most 4096 bytes at a time. */
module SmallReads {
  import opened Bytes
  import opened Framing
  import Compression
  import opened PacketStream
  import T = Transport

  const READ_SIZE: nat := 4096

  predicate Bounded(chunks: seq<Bytes>) {
    forall i :: 0 <= i < |chunks| ==> |chunks[i]| <= READ_SIZE
  }

  /** After its first full-size frame, the rest of the payload's frames is longer than what one read can still bring. */
  predicate TooLong(p: Bytes) { |p| >= MAX_PACKET_LEN + READ_SIZE - HEADER_LEN }

  // ---------------------------------------------------------------- too long payloads never arrive

  /** The number of bytes up to the end of the payload that is going on; more than there are if it does not end. */
  function Closing(b: Bytes): nat
    decreases |b|
  {
    if !HasFrame(b) then |b| + 1
    else HEADER_LEN + FrameLen(b) + if FrameLen(b) < MAX_PACKET_LEN then 0 else Closing(AfterFrame(b))
  }

  /** Somewhere a full-size frame is followed by at least a whole read of the same payload. */
  predicate HasLong(b: Bytes)
    decreases |b|
  {
    HasFrame(b) && ((FrameLen(b) == MAX_PACKET_LEN && Closing(AfterFrame(b)) >= READ_SIZE) || HasLong(AfterFrame(b)))
  }

  lemma {:induction false} ClosingIsOpen(b: Bytes, more: Bytes)
    requires Closing(b + more) > |b|
    ensures Open(b, true)
    decreases |b|
  {
    if HasFrame(b) {
      FrameExtend(b, more);
      FrameLenBound(b);
      if FrameLen(b) == MAX_PACKET_LEN {
        ClosingIsOpen(AfterFrame(b), more);
      }
    }
  }

  /** A feed that is not open does not reach past a long payload, so that payload is still to come. */
  lemma {:induction false} StillLong(b: Bytes, more: Bytes)
    requires HasLong(b + more)
    requires HasFrame(b) ==> !Open(b, false) && |AfterFrame(b)| < READ_SIZE
    ensures HasLong(Tail(b) + more)
    decreases |b|
  {
    if HasFrame(b) {
      FrameExtend(b, more);
      var rest := AfterFrame(b);
      if FrameLen(b) == MAX_PACKET_LEN && Closing(rest + more) >= READ_SIZE {
        ClosingIsOpen(rest, more);
      } else {
        StillLong(rest, more);
      }
    }
  }

  /** A read that completes a frame leaves less than its own bytes after it. */
  lemma FrameEndsInChunk(rest: Bytes, chunk: Bytes)
    requires !HasFrame(rest) && HasFrame(rest + chunk)
    ensures |AfterFrame(rest + chunk)| < |chunk|
  {
    var b := rest + chunk;
    assert |AfterFrame(b)| == |b| - HEADER_LEN - FrameLen(b);
    if |rest| >= HEADER_LEN {
      assert b[..3] == rest[..3];
    }
  }

  lemma {:induction false} LongIsOpen(rest: Bytes, chunks: seq<Bytes>)
    requires HasLong(rest + Flatten(chunks)) && !HasFrame(rest) && Bounded(chunks)
    ensures OpenFeeds(rest, chunks) > 0
    decreases |chunks|
  {
    assert chunks == [] ==> rest + Flatten(chunks) == rest;
    var b, later := rest + chunks[0], chunks[1..];
    FlattenFirst(rest, chunks);
    if !Open(b, false) {
      if HasFrame(b) {
        FrameEndsInChunk(rest, chunks[0]);
      }
      StillLong(b, Flatten(later));
      LongIsOpen(Tail(b), later);
    }
  }

  lemma {:induction false} FramesClosing(p: Bytes, s: byte, rest: Bytes)
    ensures Closing(Frames(p, s) + rest) == |Frames(p, s)|
    decreases |p|
  {
    if |p| < MAX_PACKET_LEN {
      FrameOf(p, s, rest);
    } else {
      var chunk, later := p[..MAX_PACKET_LEN], Frames(p[MAX_PACKET_LEN..], NextSeq(s));
      FrameOf(chunk, s, later + rest);
      FramesUnfold(p, s, rest);
      FramesClosing(p[MAX_PACKET_LEN..], NextSeq(s), rest);
    }
  }

  lemma {:induction false} FramesLength(p: Bytes, s: byte)
    ensures |Frames(p, s)| >= |p| + HEADER_LEN
    ensures |p| < MAX_PACKET_LEN ==> |Frames(p, s)| == |p| + HEADER_LEN
    decreases |p|
  {
    if |p| >= MAX_PACKET_LEN {
      FramesLength(p[MAX_PACKET_LEN..], NextSeq(s));
    }
  }

  lemma LongFrames(p: Bytes, s: byte, rest: Bytes)
    requires TooLong(p)
    ensures HasLong(Frames(p, s) + rest)
  {
    var chunk, more := p[..MAX_PACKET_LEN], p[MAX_PACKET_LEN..];
    FramesUnfold(p, s, rest);
    FrameOf(chunk, s, Frames(more, NextSeq(s)) + rest);
    FramesClosing(more, NextSeq(s), rest);
    FramesLength(more, NextSeq(s));
  }

  lemma {:induction false} LongAfterFrames(p: Bytes, s: byte, rest: Bytes)
    requires HasLong(rest)
    ensures HasLong(Frames(p, s) + rest)
    decreases |p|
  {
    if |p| < MAX_PACKET_LEN {
      FrameOf(p, s, rest);
    } else {
      var chunk, more := p[..MAX_PACKET_LEN], p[MAX_PACKET_LEN..];
      FramesUnfold(p, s, rest);
      FrameOf(chunk, s, Frames(more, NextSeq(s)) + rest);
      LongAfterFrames(more, NextSeq(s), rest);
    }
  }

  lemma {:induction false} LongWritten(ps: seq<Bytes>, s: byte, p: Bytes)
    requires p in ps && TooLong(p)
    ensures HasLong(FramesAll(ps, s))
  {
    var s' := SeqPlus(s, FrameCount(ps[0]));
    if p == ps[0] {
      LongFrames(p, s, FramesAll(ps[1..], s'));
    } else {
      LongWritten(ps[1..], s', p);
      LongAfterFrames(ps[0], s, FramesAll(ps[1..], s'));
    }
  }

  // ---------------------------------------------------------------- all others can

  /** Cut into reads of full size and a last one. */
  function Slices(b: Bytes): (chunks: seq<Bytes>)
    ensures Bounded(chunks)
    decreases |b|
  {
    if |b| <= READ_SIZE then [b] else [b[..READ_SIZE]] + Slices(b[READ_SIZE..])
  }

  lemma {:induction false} SlicesFlatten(b: Bytes)
    ensures Flatten(Slices(b)) == b
    decreases |b|
  {
    if |b| <= READ_SIZE {
      FlattenSingle(b);
    } else {
      SlicesFlatten(b[READ_SIZE..]);
      assert Slices(b)[1..] == Slices(b[READ_SIZE..]);
    }
  }

  /** Reads in which no frame is completed are not open. */
  lemma {:induction false} NoFrameNoOpen(rest: Bytes, chunks: seq<Bytes>)
    requires !HasFrame(rest + Flatten(chunks))
    ensures OpenFeeds(rest, chunks) == 0
    decreases |chunks|
  {
    if chunks != [] {
      FlattenFirst(rest, chunks);
      var b, more := rest + chunks[0], Flatten(chunks[1..]);
      if HasFrame(b) {
        FrameExtend(b, more);
      }
      NoFrameNoOpen(b, chunks[1..]);
    }
  }

  lemma {:induction false} OpenFeedsAppend(rest: Bytes, a: seq<Bytes>, b: seq<Bytes>)
    requires !HasFrame(rest)
    ensures OpenFeeds(rest, a + b) == OpenFeeds(rest, a) + OpenFeeds(Tail(rest + Flatten(a)), b)
    decreases |a|
  {
    if a == [] {
      assert a + b == b && rest + Flatten(a) == rest;
    } else {
      var first, later := rest + a[0], a[1..];
      assert (a + b)[0] == a[0] && (a + b)[1..] == later + b;
      OpenFeedsAppend(Tail(first), later, b);
      FlattenFirst(rest, a);
      OpenCut(first, Flatten(later), false);
    }
  }

  /** The frames of one payload leave nothing after them. */
  lemma {:induction false} FramesTail(p: Bytes, s: byte)
    ensures Tail(Frames(p, s)) == [] && !Open(Frames(p, s), false)
    decreases |p|
  {
    FramesClose(p, s, [], false);
    assert Frames(p, s) + [] == Frames(p, s);
    if |p| < MAX_PACKET_LEN {
      FrameOf(p, s, []);
    } else {
      var more := p[MAX_PACKET_LEN..];
      FramesUnfold(p, s, []);
      FrameOf(p[..MAX_PACKET_LEN], s, Frames(more, NextSeq(s)) + []);
      assert Frames(more, NextSeq(s)) + [] == Frames(more, NextSeq(s));
      FramesTail(more, NextSeq(s));
    }
  }

  /** The first bytes of a payload's frames, short of one complete frame. */
  lemma NoFrameYet(p: Bytes, s: byte, n: nat)
    requires n < HEADER_LEN + if |p| < MAX_PACKET_LEN then |p| else MAX_PACKET_LEN
    ensures n <= |Frames(p, s)| && !HasFrame(Frames(p, s)[..n])
  {
    var b := Frames(p, s);
    FramesLength(p, s);
    FirstFrameLength(p, s);
    assert n >= HEADER_LEN ==> b[..n][..3] == b[..3];
  }

  lemma FirstFrameLength(p: Bytes, s: byte)
    ensures FrameLen(Frames(p, s)) == if |p| < MAX_PACKET_LEN then |p| else MAX_PACKET_LEN
  {
    if |p| < MAX_PACKET_LEN {
      FrameOf(p, s, []);
      assert Frames(p, s) + [] == Frames(p, s);
    } else {
      FramesUnfold(p, s, []);
      FrameOf(p[..MAX_PACKET_LEN], s, Frames(p[MAX_PACKET_LEN..], NextSeq(s)) + []);
      assert Frames(p, s) + [] == Frames(p, s);
    }
  }

  /** A payload that is not too long: everything but its first frame's last byte, and then the rest in one read. */
  lemma {:induction false} GoodReads(p: Bytes, s: byte) returns (chunks: seq<Bytes>)
    requires !TooLong(p)
    ensures Bounded(chunks) && Flatten(chunks) == Frames(p, s) && OpenFeeds([], chunks) == 0
  {
    var b := Frames(p, s);
    var n := HEADER_LEN + (if |p| < MAX_PACKET_LEN then |p| else MAX_PACKET_LEN) - 1;
    NoFrameYet(p, s, n);
    ShortRest(p, s);
    var start, last := b[..n], b[n..];
    chunks := Slices(start) + [last];
    SlicesFlatten(start);
    FlattenAppend(Slices(start), [last]);
    FlattenSingle(last);
    assert start + last == b;
    LastReadCloses(p, s, start, last);
  }

  lemma FlattenSingle(b: Bytes)
    ensures [b][1..] == [] && Flatten([b]) == b
  {
    assert b + Flatten<byte>([]) == b;
  }

  lemma ShortRest(p: Bytes, s: byte)
    requires !TooLong(p)
    ensures |Frames(p, s)| <= HEADER_LEN + (if |p| < MAX_PACKET_LEN then |p| else MAX_PACKET_LEN) - 1 + READ_SIZE
  {
    FramesLength(p, s);
    if |p| >= MAX_PACKET_LEN {
      FramesLength(p[MAX_PACKET_LEN..], NextSeq(s));
    }
  }

  lemma LastReadCloses(p: Bytes, s: byte, start: Bytes, last: Bytes)
    requires start + last == Frames(p, s) && !HasFrame(start)
    ensures OpenFeeds([], Slices(start) + [last]) == 0
  {
    SlicesFlatten(start);
    assert [] + Flatten(Slices(start)) == start;
    NoFrameNoOpen([], Slices(start));
    OpenFeedsAppend([], Slices(start), [last]);
    FramesTail(p, s);
    FlattenSingle(last);
  }

  lemma {:induction false} AllGoodReads(ps: seq<Bytes>, s: byte) returns (chunks: seq<Bytes>)
    requires forall p :: p in ps ==> !TooLong(p)
    ensures Bounded(chunks) && Flatten(chunks) == FramesAll(ps, s) && OpenFeeds([], chunks) == 0
  {
    if ps == [] {
      chunks := [];
    } else {
      var first := GoodReads(ps[0], s);
      var more := AllGoodReads(ps[1..], SeqPlus(s, FrameCount(ps[0])));
      chunks := first + more;
      FlattenAppend(first, more);
      OpenFeedsAppend([], first, more);
      assert [] + Flatten(first) == Frames(ps[0], s);
      FramesTail(ps[0], s);
    }
  }

  // ---------------------------------------------------------------- what the driver can deliver

  predicate Arrive(z: Compression.Zlib, st: State, ps: seq<Bytes>, chunks: seq<Bytes>) {
    T.FeedAll(z, st, chunks) == (st.(recvQueue := st.recvQueue + ps, nextSeq := SeqAfter(ps, st.nextSeq)), Ok(|ps|))
  }

  ghost predicate SomeReadsDeliver(z: Compression.Zlib, st: State, ps: seq<Bytes>) {
    exists chunks: seq<Bytes> ::
      Bounded(chunks) && Flatten(chunks) == FramesAll(ps, st.nextSeq) && Arrive(z, st, ps, chunks)
  }

  /** However the reads fall, payloads of which one is too long do not arrive whole in plain mode. */
  lemma TooLongNeverArrives(z: Compression.Zlib, st: State, ps: seq<Bytes>, chunks: seq<Bytes>, p: Bytes)
    requires T.PlainMode(st) && st.recvBuffer == [] && (forall q :: q in ps ==> Deliverable(q, st.maxAllowed))
    requires Bounded(chunks) && Flatten(chunks) == FramesAll(ps, st.nextSeq)
    requires p in ps && TooLong(p)
    ensures !Arrive(z, st, ps, chunks)
  {
    LongWritten(ps, st.nextSeq, p);
    assert [] + Flatten(chunks) == Flatten(chunks);
    LongIsOpen([], chunks);
    T.PlainDelivery(z, st, ps, chunks);
  }

  /** Exactly which deliverable payloads the driver can receive in plain mode at all: those that are not too long. */
  lemma ReceivableExactly(z: Compression.Zlib, st: State, ps: seq<Bytes>)
    requires T.PlainMode(st) && st.recvBuffer == [] && (forall p :: p in ps ==> Deliverable(p, st.maxAllowed))
    ensures SomeReadsDeliver(z, st, ps) <==> forall p :: p in ps ==> !TooLong(p)
  {
    if p :| p in ps && TooLong(p) {
      forall chunks: seq<Bytes> | Bounded(chunks) && Flatten(chunks) == FramesAll(ps, st.nextSeq)
        ensures !Arrive(z, st, ps, chunks)
      {
        TooLongNeverArrives(z, st, ps, chunks, p);
      }
    } else {
      var chunks := AllGoodReads(ps, st.nextSeq);
      T.PlainDelivery(z, st, ps, chunks);
    }
  }
}
