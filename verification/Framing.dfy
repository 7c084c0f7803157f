/**
  * The plain frame layer: how a payload is cut into frames of at most 2^24-1 bytes, and how
  * a receive buffer is turned back into payloads.
  */
module Framing {
  import opened Bytes

  const MAX_PACKET_LEN: nat := 0xFF_FFFF
  const HEADER_LEN: nat := 4

  function NextSeq(s: byte): byte { (s + 1) % 256 }

  function SeqPlus(s: byte, n: nat): byte
    decreases n
  {
    if n == 0 then s else SeqPlus(NextSeq(s), n - 1)
  }

  lemma {:induction false} SeqPlusValue(s: byte, n: nat)
    ensures SeqPlus(s, n) == (s + n) % 256
    decreases n
  {
    if n > 0 {
      SeqPlusValue(NextSeq(s), n - 1);
      if s == 255 {
        assert s + n == (n - 1) + 256;
      } else {
        assert NextSeq(s) == s + 1;
      }
    }
  }

  lemma {:induction false} SeqPlusAdd(s: byte, m: nat, n: nat)
    ensures SeqPlus(SeqPlus(s, m), n) == SeqPlus(s, m + n)
    decreases m
  {
    if m > 0 {
      SeqPlusAdd(NextSeq(s), m - 1, n);
    }
  }

  // ---------------------------------------------------------------- one frame

  function Header(len: nat, seqId: byte): (h: Bytes)
    ensures |h| == HEADER_LEN
  {
    LittleEndian(len, 3) + [seqId]
  }

  function FrameLen(b: Bytes): nat
    requires |b| >= HEADER_LEN
  {
    FromLittleEndian(b[..3])
  }

  predicate HasFrame(b: Bytes) {
    |b| >= HEADER_LEN && HEADER_LEN + FrameLen(b) <= |b|
  }

  function FramePayload(b: Bytes): (p: Bytes)
    requires HasFrame(b)
    ensures |p| == FrameLen(b)
  {
    b[HEADER_LEN..HEADER_LEN + FrameLen(b)]
  }

  function AfterFrame(b: Bytes): (rest: Bytes)
    requires HasFrame(b)
    ensures |rest| < |b|
  {
    b[HEADER_LEN + FrameLen(b)..]
  }

  /** A three-byte length field can never announce more than the frame limit. */
  lemma FrameLenBound(b: Bytes)
    requires |b| >= HEADER_LEN
    ensures FrameLen(b) <= MAX_PACKET_LEN
  {
    FromLittleEndianRoundTrip(b[..3]);
    PowersOf256();
  }

  lemma FrameOf(p: Bytes, seqId: byte, rest: Bytes)
    requires |p| <= MAX_PACKET_LEN
    ensures var b := Header(|p|, seqId) + p + rest;
            HasFrame(b) && FrameLen(b) == |p| && b[3] == seqId
            && FramePayload(b) == p && AfterFrame(b) == rest
  {
    PowersOf256();
    LittleEndianRoundTrip(|p|, 3);
    var b := Header(|p|, seqId) + p + rest;
    assert b[..3] == LittleEndian(|p|, 3);
  }

  lemma FrameExtend(b: Bytes, more: Bytes)
    requires |b| >= HEADER_LEN
    ensures FrameLen(b + more) == FrameLen(b) && (b + more)[3] == b[3]
    ensures HasFrame(b) ==> HasFrame(b + more) && FramePayload(b + more) == FramePayload(b)
                            && AfterFrame(b + more) == AfterFrame(b) + more
  {
    assert (b + more)[..3] == b[..3];
  }

  // ---------------------------------------------------------------- writing

  /** The frames that carry `payload`; a payload of an exact multiple of the limit ends with an empty frame. */
  function Frames(payload: Bytes, seqId: byte): Bytes
    decreases |payload|
  {
    if |payload| < MAX_PACKET_LEN then
      Header(|payload|, seqId) + payload
    else
      Header(MAX_PACKET_LEN, seqId) + payload[..MAX_PACKET_LEN] + Frames(payload[MAX_PACKET_LEN..], NextSeq(seqId))
  }

  function FrameCount(payload: Bytes): nat
    decreases |payload|
  {
    if |payload| < MAX_PACKET_LEN then 1 else FrameCount(payload[MAX_PACKET_LEN..]) + 1
  }


  function FramesAll(payloads: seq<Bytes>, seqId: byte): Bytes {
    if payloads == [] then []
    else Frames(payloads[0], seqId) + FramesAll(payloads[1..], SeqPlus(seqId, FrameCount(payloads[0])))
  }

  function SeqAfter(payloads: seq<Bytes>, seqId: byte): byte {
    if payloads == [] then seqId
    else SeqAfter(payloads[1..], SeqPlus(seqId, FrameCount(payloads[0])))
  }

  // ---------------------------------------------------------------- reading

  /** What the inner loop makes of a buffer: a terminated payload, an unterminated one, or an error. */
  datatype Assembly =
    | Whole(payload: Bytes, rest: Bytes, seqId: byte)
    | Partial(payload: Bytes, rest: Bytes, seqId: byte)
    | Broken(error: Error, seqId: byte)

  function SequenceError(got: byte): Error {
    if got == 0 then OperationalError(CR_SERVER_LOST) else InternalError(CR_COMMANDS_OUT_OF_SYNC)
  }

  function Assemble(b: Bytes, s: byte, max: nat, acc: Bytes): (r: Assembly)
    ensures !r.Broken? ==> |r.rest| <= |b| && (HasFrame(b) ==> |r.rest| < |b|)
    decreases |b|
  {
    if |b| < HEADER_LEN then Partial(acc, b, s)
    else if FrameLen(b) > max then Broken(OperationalError(CR_NET_PACKET_TOO_LARGE), s)
    else if !HasFrame(b) then Partial(acc, b, s)
    else if b[3] != s then Broken(SequenceError(b[3]), s)
    else if |acc| + FrameLen(b) > max then Broken(OperationalError(CR_NET_PACKET_TOO_LARGE), NextSeq(s))
    else if FrameLen(b) < MAX_PACKET_LEN then Whole(acc + FramePayload(b), AfterFrame(b), NextSeq(s))
    else Assemble(AfterFrame(b), NextSeq(s), max, acc + FramePayload(b))
  }

  predicate IsErrorPacket(p: Bytes) { p != [] && p[0] == 0xFF }

  /** Outcome of parsing a buffer. `Closed` drops all queues; `Raised` keeps the packets before the ERR packet. */
  datatype Parse =
    | Accepted(packets: seq<Bytes>, rest: Bytes, seqId: byte)
    | Raised(packets: seq<Bytes>, payload: Bytes, seqId: byte)
    | Closed(error: Error, seqId: byte)

  function Prepend(ps: seq<Bytes>, r: Parse): Parse {
    match r
    case Accepted(qs, rest, s) => Accepted(ps + qs, rest, s)
    case Raised(qs, p, s) => Raised(ps + qs, p, s)
    case Closed(_, _) => r
  }

  function ParsePlain(b: Bytes, s: byte, max: nat): Parse
    decreases |b|
  {
    if |b| < HEADER_LEN then Accepted([], b, s)
    else if FrameLen(b) > max then Closed(OperationalError(CR_NET_PACKET_TOO_LARGE), s)
    else if !HasFrame(b) then Accepted([], b, s)
    else match Assemble(b, s, max, [])
      case Broken(e, s') => Closed(e, s')
      case Whole(p, rest, s') => if IsErrorPacket(p) then Raised([], p, s') else Prepend([p], ParsePlain(rest, s', max))
      case Partial(p, rest, s') =>
        if IsErrorPacket(p) then Raised([], p, s') else Prepend([p], ParsePlain(rest, s', max))
  }

  lemma PrependPrepend(ps: seq<Bytes>, qs: seq<Bytes>, r: Parse)
    ensures Prepend(ps, Prepend(qs, r)) == Prepend(ps + qs, r)
  {
    if !r.Closed? {
      assert ps + (qs + r.packets) == (ps + qs) + r.packets;
    }
  }

  lemma PrependNothing(r: Parse)
    ensures Prepend([], r) == r
  {
    if !r.Closed? {
      assert [] + r.packets == r.packets;
    }
  }

  // ---------------------------------------------------------------- round trip

  /** What the reader is able to deliver. */
  predicate Deliverable(p: Bytes, max: nat) {
    |p| <= max && !IsErrorPacket(p)
  }

  /** One turn of the inner loop on a buffer that starts with a well-formed frame. */
  lemma AssembleStep(chunk: Bytes, s: byte, max: nat, acc: Bytes, rest: Bytes)
    requires |chunk| <= MAX_PACKET_LEN
    ensures Assemble(Header(|chunk|, s) + chunk + rest, s, max, acc) ==
            if |chunk| > max then Broken(OperationalError(CR_NET_PACKET_TOO_LARGE), s)
            else if |acc| + |chunk| > max then Broken(OperationalError(CR_NET_PACKET_TOO_LARGE), NextSeq(s))
            else if |chunk| < MAX_PACKET_LEN then Whole(acc + chunk, rest, NextSeq(s))
            else Assemble(rest, NextSeq(s), max, acc + chunk)
  {
    FrameOf(chunk, s, rest);
  }

  lemma FramesUnfold(p: Bytes, s: byte, rest: Bytes)
    requires |p| >= MAX_PACKET_LEN
    ensures Frames(p, s) + rest ==
            Header(MAX_PACKET_LEN, s) + p[..MAX_PACKET_LEN] + (Frames(p[MAX_PACKET_LEN..], NextSeq(s)) + rest)
  {
  }

  lemma AssembleLongFrames(p: Bytes, s: byte, max: nat, acc: Bytes, rest: Bytes)
    requires |p| >= MAX_PACKET_LEN
    ensures Assemble(Frames(p, s) + rest, s, max, acc) ==
            if MAX_PACKET_LEN > max then Broken(OperationalError(CR_NET_PACKET_TOO_LARGE), s)
            else if |acc| + MAX_PACKET_LEN > max then Broken(OperationalError(CR_NET_PACKET_TOO_LARGE), NextSeq(s))
            else Assemble(Frames(p[MAX_PACKET_LEN..], NextSeq(s)) + rest, NextSeq(s), max, acc + p[..MAX_PACKET_LEN])
  {
    FramesUnfold(p, s, rest);
    AssembleStep(p[..MAX_PACKET_LEN], s, max, acc, Frames(p[MAX_PACKET_LEN..], NextSeq(s)) + rest);
  }

  lemma AssembleShortFrames(p: Bytes, s: byte, max: nat, acc: Bytes, rest: Bytes)
    requires |p| < MAX_PACKET_LEN
    ensures Assemble(Frames(p, s) + rest, s, max, acc) ==
            if |p| > max then Broken(OperationalError(CR_NET_PACKET_TOO_LARGE), s)
            else if |acc| + |p| > max then Broken(OperationalError(CR_NET_PACKET_TOO_LARGE), NextSeq(s))
            else Whole(acc + p, rest, NextSeq(s))
  {
    AssembleStep(p, s, max, acc, rest);
  }

  lemma {:induction false} AssembleFrames(p: Bytes, s: byte, max: nat, acc: Bytes, rest: Bytes)
    ensures |acc| + |p| <= max ==>
              Assemble(Frames(p, s) + rest, s, max, acc) == Whole(acc + p, rest, SeqPlus(s, FrameCount(p)))
    ensures |acc| + |p| > max ==> var r := Assemble(Frames(p, s) + rest, s, max, acc);
                                  r.Broken? && r.error == OperationalError(CR_NET_PACKET_TOO_LARGE)
    decreases |p|
  {
    if |p| < MAX_PACKET_LEN {
      AssembleShortFrames(p, s, max, acc, rest);
    } else {
      var chunk, more := p[..MAX_PACKET_LEN], p[MAX_PACKET_LEN..];
      AssembleLongFrames(p, s, max, acc, rest);
      AssembleFrames(more, NextSeq(s), max, acc + chunk, rest);
      assert acc + p == acc + chunk + more by { assert p == chunk + more; }
    }
  }

  lemma {:induction false} FramesStart(p: Bytes, s: byte, rest: Bytes)
    ensures var b := Frames(p, s) + rest;
            HasFrame(b) && FrameLen(b) == if |p| < MAX_PACKET_LEN then |p| else MAX_PACKET_LEN
  {
    if |p| < MAX_PACKET_LEN {
      FrameOf(p, s, rest);
    } else {
      var tail := Frames(p[MAX_PACKET_LEN..], NextSeq(s));
      FrameOf(p[..MAX_PACKET_LEN], s, tail + rest);
      assert Frames(p, s) + rest == Header(MAX_PACKET_LEN, s) + p[..MAX_PACKET_LEN] + (tail + rest);
    }
  }

  lemma ParseOneWritten(p: Bytes, s: byte, max: nat, rest: Bytes)
    ensures Deliverable(p, max) ==>
              ParsePlain(Frames(p, s) + rest, s, max) == Prepend([p], ParsePlain(rest, SeqPlus(s, FrameCount(p)), max))
    ensures !Deliverable(p, max) ==> !ParsePlain(Frames(p, s) + rest, s, max).Accepted?
  {
    FramesStart(p, s, rest);
    AssembleFrames(p, s, max, [], rest);
    assert [] + p == p;
  }

  /** Writing any deliverable payloads and parsing them back, in front of any further bytes. */
  lemma {:induction false} ParseWritten(ps: seq<Bytes>, s: byte, max: nat, rest: Bytes)
    requires forall p :: p in ps ==> Deliverable(p, max)
    ensures ParsePlain(FramesAll(ps, s) + rest, s, max) == Prepend(ps, ParsePlain(rest, SeqAfter(ps, s), max))
  {
    if ps == [] {
      assert FramesAll(ps, s) + rest == rest;
      PrependNothing(ParsePlain(rest, s, max));
    } else {
      var s' := SeqPlus(s, FrameCount(ps[0]));
      ParseOneWritten(ps[0], s, max, FramesAll(ps[1..], s') + rest);
      FramesAllFirst(ps, s, rest);
      ParseWritten(ps[1..], s', max, rest);
      PrependFirst(ps, ParsePlain(rest, SeqAfter(ps[1..], s'), max));
    }
  }

  lemma FramesAllFirst(ps: seq<Bytes>, s: byte, rest: Bytes)
    requires ps != []
    ensures var s' := SeqPlus(s, FrameCount(ps[0]));
            && FramesAll(ps, s) + rest == Frames(ps[0], s) + (FramesAll(ps[1..], s') + rest)
            && SeqAfter(ps, s) == SeqAfter(ps[1..], s')
  {
    var s' := SeqPlus(s, FrameCount(ps[0]));
    Associative(Frames(ps[0], s), FramesAll(ps[1..], s'), rest);
  }

  lemma PrependFirst(ps: seq<Bytes>, r: Parse)
    requires ps != []
    ensures Prepend([ps[0]], Prepend(ps[1..], r)) == Prepend(ps, r)
  {
    PrependPrepend([ps[0]], ps[1..], r);
    assert [ps[0]] + ps[1..] == ps;
  }

  lemma {:induction false} UndeliverableRejected(ps: seq<Bytes>, s: byte, max: nat)
    requires exists p :: p in ps && !Deliverable(p, max)
    ensures !ParsePlain(FramesAll(ps, s), s, max).Accepted?
  {
    var s' := SeqPlus(s, FrameCount(ps[0]));
    ParseOneWritten(ps[0], s, max, FramesAll(ps[1..], s'));
    if Deliverable(ps[0], max) {
      var p :| p in ps && !Deliverable(p, max);
      assert p in ps[1..];
      UndeliverableRejected(ps[1..], s', max);
    }
  }

  /**
    * Framing round trip: one feed of everything written gives back exactly the payloads, an empty
    * buffer and the writer's next number, if and only if every payload is within the size limit and
    * is not an ERR packet.
    */
  lemma FramingRoundTrip(ps: seq<Bytes>, s: byte, max: nat)
    ensures ParsePlain(FramesAll(ps, s), s, max) == Accepted(ps, [], SeqAfter(ps, s))
            <==> forall p :: p in ps ==> Deliverable(p, max)
  {
    if forall p :: p in ps ==> Deliverable(p, max) {
      ParseWritten(ps, s, max, []);
      assert FramesAll(ps, s) + [] == FramesAll(ps, s);
      assert ps + [] == ps;
    } else {
      UndeliverableRejected(ps, s, max);
    }
  }

  // ---------------------------------------------------------------- cuts

  /**
    * Is the last complete frame of `b` full-size, so that its payload is not finished? Part of the next frame may have
    * arrived. `mid` is the answer if there is no complete frame.
    */
  predicate Open(b: Bytes, mid: bool)
    decreases |b|
  {
    if !HasFrame(b) then mid else Open(AfterFrame(b), FrameLen(b) == MAX_PACKET_LEN)
  }

  /** The bytes after the last complete frame. */
  function Tail(b: Bytes): (t: Bytes)
    ensures !HasFrame(t) && |t| <= |b|
    decreases |b|
  {
    if !HasFrame(b) then b else Tail(AfterFrame(b))
  }

  lemma {:induction false} OpenCut(b1: Bytes, b2: Bytes, mid: bool)
    ensures Open(b1 + b2, mid) == Open(Tail(b1) + b2, Open(b1, mid))
    ensures Tail(b1 + b2) == Tail(Tail(b1) + b2)
    decreases |b1|
  {
    if HasFrame(b1) {
      FrameExtend(b1, b2);
      OpenCut(AfterFrame(b1), b2, FrameLen(b1) == MAX_PACKET_LEN);
    }
  }

  lemma {:induction false} AssembleShape(b: Bytes, s: byte, max: nat, acc: Bytes, mid: bool)
    ensures var r := Assemble(b, s, max, acc);
            && (r.Whole? ==> Open(b, mid) == Open(r.rest, false) && Tail(b) == Tail(r.rest))
            && (r.Partial? ==> r.rest == Tail(b) && Open(b, mid) == (mid || HasFrame(b))
                               && (|r.rest| >= HEADER_LEN ==> FrameLen(r.rest) <= max))
            && (!r.Broken? ==> acc <= r.payload)
    decreases |b|
  {
    if HasFrame(b) && FrameLen(b) <= max && b[3] == s && |acc| + FrameLen(b) <= max {
      FrameLenBound(b);
      if FrameLen(b) == MAX_PACKET_LEN {
        AssembleShape(AfterFrame(b), NextSeq(s), max, acc + FramePayload(b), true);
      }
    }
  }

  lemma {:induction false} ParseTail(b: Bytes, s: byte, max: nat)
    requires ParsePlain(b, s, max).Accepted?
    ensures ParsePlain(b, s, max).rest == Tail(b)
    decreases |b|
  {
    if HasFrame(b) {
      AssembleShape(b, s, max, [], false);
      ParseTail(Assemble(b, s, max, []).rest, Assemble(b, s, max, []).seqId, max);
    }
  }

  /** More bytes never change what the inner loop already decided; an unterminated payload just goes on. */
  lemma {:induction false} AssembleCut(b1: Bytes, b2: Bytes, s: byte, max: nat, acc: Bytes)
    ensures Assemble(b1 + b2, s, max, acc) ==
            match Assemble(b1, s, max, acc)
            case Broken(e, s') => Broken(e, s')
            case Whole(p, rest, s') => Whole(p, rest + b2, s')
            case Partial(p, rest, s') => Assemble(rest + b2, s', max, p)
    decreases |b1|
  {
    if |b1| >= HEADER_LEN {
      FrameExtend(b1, b2);
      if HasFrame(b1) {
        AssembleCut(AfterFrame(b1), b2, NextSeq(s), max, acc + FramePayload(b1));
      }
    }
  }

  /** Go on with `more` bytes after the outcome `r` of an earlier feed. */
  function Resume(r: Parse, more: Bytes, max: nat): Parse {
    match r
    case Accepted(ps, rest, s) => Prepend(ps, ParsePlain(rest + more, s, max))
    case Raised(_, _, _) => r
    case Closed(_, _) => r
  }

  lemma ResumePrepend(ps: seq<Bytes>, r: Parse, more: Bytes, max: nat)
    ensures Resume(Prepend(ps, r), more, max) == Prepend(ps, Resume(r, more, max))
  {
    if r.Accepted? {
      PrependPrepend(ps, r.packets, ParsePlain(r.rest + more, r.seqId, max));
    }
  }

  /**
    * Cut independence: unless the last complete frame of the first piece is full-size, feeding two pieces is
    * the same as feeding them at once, in every outcome including the errors.
    */
  lemma {:induction false} ParseCut(b1: Bytes, b2: Bytes, s: byte, max: nat)
    requires !Open(b1, false)
    ensures ParsePlain(b1 + b2, s, max) == Resume(ParsePlain(b1, s, max), b2, max)
    decreases |b1|
  {
    if |b1| >= HEADER_LEN {
      FrameExtend(b1, b2);
    }
    if HasFrame(b1) && FrameLen(b1) <= max {
      AssembleCut(b1, b2, s, max, []);
      AssembleShape(b1, s, max, [], false);
      var a := Assemble(b1, s, max, []);
      if a.Whole? && !IsErrorPacket(a.payload) {
        ParseCut(a.rest, b2, a.seqId, max);
        ResumePrepend([a.payload], ParsePlain(a.rest, a.seqId, max), b2, max);
      }
    } else {
      PrependNothing(ParsePlain(b1 + b2, s, max));
    }
  }

  /** A larger accumulator only makes the size check stricter. */
  lemma {:induction false} AssembleDropAcc(b: Bytes, s: byte, max: nat, acc: Bytes, acc': Bytes)
    requires !Assemble(b, s, max, acc + acc').Broken?
    ensures var r := Assemble(b, s, max, acc + acc');
            acc <= r.payload && Assemble(b, s, max, acc') == r.(payload := r.payload[|acc|..])
    decreases |b|
  {
    if HasFrame(b) {
      var p := FramePayload(b);
      assert acc + acc' + p == acc + (acc' + p);
      if FrameLen(b) >= MAX_PACKET_LEN {
        AssembleDropAcc(AfterFrame(b), NextSeq(s), max, acc, acc' + p);
      }
    }
  }

  /** If everything at once is accepted, so is every first piece. */
  lemma {:induction false} AcceptedPrefix(b1: Bytes, b2: Bytes, s: byte, max: nat)
    requires ParsePlain(b1 + b2, s, max).Accepted?
    ensures ParsePlain(b1, s, max).Accepted?
    decreases |b1|
  {
    if |b1| >= HEADER_LEN {
      FrameExtend(b1, b2);
    }
    if HasFrame(b1) {
      AssembleCut(b1, b2, s, max, []);
      AssembleShape(b1, s, max, [], false);
      var a := Assemble(b1, s, max, []);
      if a.Whole? {
        AcceptedPrefix(a.rest, b2, a.seqId, max);
      } else {
        AssembleShape(a.rest + b2, a.seqId, max, a.payload, true);
      }
    }
  }

  /** An unterminated payload is queued as it stands, although more bytes would have continued it. */
  lemma PartialIsQueued(b1: Bytes, b2: Bytes, s: byte, max: nat)
    requires ParsePlain(b1 + b2, s, max).Accepted?
    requires HasFrame(b1) && Assemble(b1, s, max, []).Partial?
    ensures var a := Assemble(b1, s, max, []);
            && ParsePlain(b1, s, max) == Accepted([a.payload], Tail(b1), a.seqId)
            && HasFrame(b1 + b2)
            && Assemble(b1 + b2, s, max, []) == Assemble(Tail(b1) + b2, a.seqId, max, a.payload)
            && !Assemble(b1 + b2, s, max, []).Broken?
  {
    AcceptedPrefix(b1, b2, s, max);
    FrameExtend(b1, b2);
    AssembleCut(b1, b2, s, max, []);
    AssembleShape(b1, s, max, [], false);
  }

  /** The last step of the exact cut condition: the last complete frame of the first piece is full-size. */
  lemma OpenCutDiffers(b1: Bytes, b2: Bytes, s: byte, max: nat)
    requires ParsePlain(b1 + b2, s, max).Accepted?
    requires HasFrame(b1) && Assemble(b1, s, max, []).Partial?
    ensures (Resume(ParsePlain(b1, s, max), b2, max) == ParsePlain(b1 + b2, s, max)) <==> !HasFrame(Tail(b1) + b2)
  {
    PartialIsQueued(b1, b2, s, max);
    var a := Assemble(b1, s, max, []);
    var x := Tail(b1) + b2;
    var whole := ParsePlain(b1 + b2, s, max);
    if !HasFrame(x) {
      assert Assemble(x, a.seqId, max, a.payload) == Partial(a.payload, x, a.seqId);
    } else {
      assert a.payload + [] == a.payload;
      AssembleDropAcc(x, a.seqId, max, a.payload, []);
      var w := Assemble(x, a.seqId, max, a.payload);
      var more := ParsePlain(w.rest, w.seqId, max);
      assert whole == Prepend([w.payload], more);
      if ParsePlain(x, a.seqId, max).Accepted? {
        assert ParsePlain(x, a.seqId, max) == Prepend([w.payload[|a.payload|..]], more);
        assert |Resume(ParsePlain(b1, s, max), b2, max).packets| == |whole.packets| + 1;
      }
    }
  }

  lemma {:induction false} CutConditionAux(b1: Bytes, b2: Bytes, s: byte, max: nat)
    requires ParsePlain(b1 + b2, s, max).Accepted?
    requires Open(b1, false)
    ensures (Resume(ParsePlain(b1, s, max), b2, max) == ParsePlain(b1 + b2, s, max)) <==> !HasFrame(Tail(b1) + b2)
    decreases |b1|
  {
    AcceptedPrefix(b1, b2, s, max);
    FrameExtend(b1, b2);
    AssembleCut(b1, b2, s, max, []);
    AssembleShape(b1, s, max, [], false);
    var a := Assemble(b1, s, max, []);
    if a.Partial? {
      OpenCutDiffers(b1, b2, s, max);
    } else {
      CutConditionAux(a.rest, b2, a.seqId, max);
      ResumePrepend([a.payload], ParsePlain(a.rest, a.seqId, max), b2, max);
      PrependInjective([a.payload], Resume(ParsePlain(a.rest, a.seqId, max), b2, max),
                       ParsePlain(a.rest + b2, a.seqId, max));
    }
  }

  lemma PrependInjective(ps: seq<Bytes>, r: Parse, r': Parse)
    ensures Prepend(ps, r) == Prepend(ps, r') <==> r == r'
  {
    if Prepend(ps, r) == Prepend(ps, r') && !r.Closed? {
      assert r.packets == (ps + r.packets)[|ps|..];
      assert r'.packets == (ps + r'.packets)[|ps|..];
    }
  }

  /**
    * Exactly when a cut is harmless, for a stream that is accepted in one piece: the last complete frame of the
    * first piece must not be full-size, or the second must not complete another frame.
    */
  lemma CutCondition(b1: Bytes, b2: Bytes, s: byte, max: nat)
    requires ParsePlain(b1 + b2, s, max).Accepted?
    ensures Resume(ParsePlain(b1, s, max), b2, max) == ParsePlain(b1 + b2, s, max)
            <==> !Open(b1, false) || !HasFrame(Tail(b1) + b2)
  {
    if Open(b1, false) {
      CutConditionAux(b1, b2, s, max);
    } else {
      ParseCut(b1, b2, s, max);
    }
  }

  lemma FullFrameFrames(p: Bytes)
    requires |p| == MAX_PACKET_LEN
    ensures Frames(p, 0) == Header(MAX_PACKET_LEN, 0) + p + Header(0, 1) && FrameCount(p) == 2
  {
    assert p[..MAX_PACKET_LEN] == p && p[MAX_PACKET_LEN..] == [];
    assert Frames([], 1) == Header(0, 1);
  }

  lemma FullFrameTerminated(p: Bytes)
    requires |p| == MAX_PACKET_LEN && p[0] == 0
    ensures ParsePlain(Header(MAX_PACKET_LEN, 0) + p + Header(0, 1), 0, MAX_PACKET_LEN) == Accepted([p], [], 2)
  {
    FullFrameFrames(p);
    RoundTripOne(p, 0, MAX_PACKET_LEN);
    TwoFrames();
  }

  lemma RoundTripOne(p: Bytes, s: byte, max: nat)
    requires Deliverable(p, max)
    ensures ParsePlain(Frames(p, s), s, max) == Accepted([p], [], SeqPlus(s, FrameCount(p)))
  {
    ParseOneWritten(p, s, max, []);
    assert Frames(p, s) + [] == Frames(p, s);
  }

  lemma TwoFrames()
    ensures SeqPlus(0, 2) == 2
  {
    assert SeqPlus(0, 2) == SeqPlus(1, 1);
  }

  lemma FullFrameAlone(p: Bytes)
    requires |p| == MAX_PACKET_LEN && p[0] == 0
    ensures ParsePlain(Header(MAX_PACKET_LEN, 0) + p, 0, MAX_PACKET_LEN) == Accepted([p], [], 1)
  {
    var b := Header(MAX_PACKET_LEN, 0) + p;
    assert Header(|p|, 0) + p + [] == b;
    FrameOf(p, 0, []);
    AssembleAlone(b, p, 0, MAX_PACKET_LEN);
  }

  lemma AssembleAlone(b: Bytes, p: Bytes, s: byte, max: nat)
    requires HasFrame(b) && FrameLen(b) == MAX_PACKET_LEN <= max && b[3] == s
    requires FramePayload(b) == p && AfterFrame(b) == [] && !IsErrorPacket(p)
    ensures ParsePlain(b, s, max) == Accepted([p], [], NextSeq(s))
  {
    assert [] + p == p && [p] + [] == [p];
    assert Assemble(b, s, max, []) == Assemble([], NextSeq(s), max, p);
  }

  lemma TerminatorAlone()
    ensures ParsePlain(Header(0, 1), 1, MAX_PACKET_LEN) == Accepted([[]], [], 2)
  {
    assert Frames([], 1) + [] == Header(0, 1);
    ParseOneWritten([], 1, MAX_PACKET_LEN, []);
  }

  /** A cut that changes the result: a payload of exactly one full frame, cut before its empty terminator. */
  lemma CutCanSplitAPayload(p: Bytes)
    requires |p| == MAX_PACKET_LEN && p[0] == 0
    ensures var b1 := Header(MAX_PACKET_LEN, 0) + p; var b2 := Header(0, 1);
            && ParsePlain(b1 + b2, 0, MAX_PACKET_LEN) == Accepted([p], [], 2)
            && Resume(ParsePlain(b1, 0, MAX_PACKET_LEN), b2, MAX_PACKET_LEN) == Accepted([p, []], [], 2)
  {
    FullFrameTerminated(p);
    FullFrameAlone(p);
    TerminatorAlone();
    assert [] + Header(0, 1) == Header(0, 1) && [p] + [[]] == [p, []];
  }

  // ---------------------------------------------------------------- many cuts

  /** Feed the chunks one after another to a reader that holds `rest`. */
  function FeedChunks(rest: Bytes, s: byte, max: nat, chunks: seq<Bytes>): Parse
    decreases |chunks|
  {
    if chunks == [] then Accepted([], rest, s)
    else match ParsePlain(rest + chunks[0], s, max)
      case Accepted(ps, rest', s') => Prepend(ps, FeedChunks(rest', s', max, chunks[1..]))
      case Raised(ps, p, s') => Raised(ps, p, s')
      case Closed(e, s') => Closed(e, s')
  }

  /** Cuts that are harmless for the whole stream stay harmless for what is left after the first chunk. */
  lemma CutsAfterFirst(rest: Bytes, chunks: seq<Bytes>, i: nat)
    requires i < |chunks|
    requires !Open(rest + chunks[0], false)
    requires !Open(rest + Flatten(chunks[..i + 1]), false)
    ensures !Open(Tail(rest + chunks[0]) + Flatten(chunks[1..][..i]), false)
  {
    var b1, more := rest + chunks[0], Flatten(chunks[1..][..i]);
    assert chunks[..i + 1][1..] == chunks[1..][..i];
    assert rest + Flatten(chunks[..i + 1]) == b1 + more;
    OpenCut(b1, more, false);
  }

  lemma FlattenOne(chunks: seq<Bytes>)
    requires chunks != []
    ensures Flatten(chunks[..1]) == chunks[0]
  {
    assert chunks[..1][1..] == [];
    assert chunks[0] + [] == chunks[0];
  }

  lemma {:induction false} FeedChunksFrom(rest: Bytes, s: byte, max: nat, chunks: seq<Bytes>)
    requires chunks != []
    requires forall i :: 0 < i < |chunks| ==> !Open(rest + Flatten(chunks[..i]), false)
    ensures FeedChunks(rest, s, max, chunks) == ParsePlain(rest + Flatten(chunks), s, max)
    decreases |chunks|
  {
    var b1, later := rest + chunks[0], chunks[1..];
    var r := ParsePlain(b1, s, max);
    assert rest + Flatten(chunks) == b1 + Flatten(later);
    if later == [] {
      assert b1 + Flatten(later) == b1;
      if r.Accepted? {
        assert r.packets + [] == r.packets;
      }
    } else {
      assert !Open(b1, false) by { FlattenOne(chunks); }
      ParseCut(b1, Flatten(later), s, max);
      if r.Accepted? {
        forall i | 0 < i < |later| ensures !Open(r.rest + Flatten(later[..i]), false) {
          ParseTail(b1, s, max);
          CutsAfterFirst(rest, chunks, i);
        }
        FeedChunksFrom(r.rest, r.seqId, max, later);
      }
    }
  }

  /** Cut independence for any number of pieces. */
  lemma CutIndependence(s: byte, max: nat, chunks: seq<Bytes>)
    requires forall i :: 0 < i < |chunks| ==> !Open(Flatten(chunks[..i]), false)
    ensures FeedChunks([], s, max, chunks) == ParsePlain(Flatten(chunks), s, max)
  {
    if chunks != [] {
      forall i | 0 < i < |chunks| ensures !Open([] + Flatten(chunks[..i]), false) {
        assert [] + Flatten(chunks[..i]) == Flatten(chunks[..i]);
      }
      FeedChunksFrom([], s, max, chunks);
      assert [] + Flatten(chunks) == Flatten(chunks);
    }
  }

  // ---------------------------------------------------------------- exactly which cuts are harmless

  /** The number of frames that end a payload. */
  function Terminators(b: Bytes): nat
    decreases |b|
  {
    if !HasFrame(b) then 0 else (if FrameLen(b) < MAX_PACKET_LEN then 1 else 0) + Terminators(AfterFrame(b))
  }

  function One(c: bool): nat { if c then 1 else 0 }

  /** The number of open feeds: those that complete a frame and whose last complete frame is full-size. */
  function OpenFeeds(rest: Bytes, chunks: seq<Bytes>): nat
    decreases |chunks|
  {
    if chunks == [] then 0
    else One(Open(rest + chunks[0], false)) + OpenFeeds(Tail(rest + chunks[0]), chunks[1..])
  }

  lemma {:induction false} AssembleTerminators(b: Bytes, s: byte, max: nat, acc: Bytes)
    requires !Assemble(b, s, max, acc).Broken?
    ensures var a := Assemble(b, s, max, acc);
            Terminators(b) == if a.Whole? then 1 + Terminators(a.rest) else 0
    decreases |b|
  {
    if HasFrame(b) {
      AssembleFirst(b, s, max, acc);
      if FrameLen(b) >= MAX_PACKET_LEN {
        AssembleTerminators(AfterFrame(b), NextSeq(s), max, acc + FramePayload(b));
      }
    }
  }

  /** An accepted buffer gives one packet for each terminator, and one more if it ends inside a payload. */
  lemma {:induction false} PacketCount(b: Bytes, s: byte, max: nat)
    requires ParsePlain(b, s, max).Accepted?
    ensures |ParsePlain(b, s, max).packets| == Terminators(b) + One(Open(b, false))
    decreases |b|
  {
    if HasFrame(b) {
      AssembleShape(b, s, max, [], false);
      AssembleTerminators(b, s, max, []);
      var a := Assemble(b, s, max, []);
      PacketCount(a.rest, a.seqId, max);
    }
  }

  lemma {:induction false} TerminatorsCut(b1: Bytes, b2: Bytes)
    ensures Terminators(b1 + b2) == Terminators(b1) + Terminators(Tail(b1) + b2)
    decreases |b1|
  {
    if HasFrame(b1) {
      FrameExtend(b1, b2);
      TerminatorsCut(AfterFrame(b1), b2);
    }
  }

  lemma FlattenFirst(rest: Bytes, chunks: seq<Bytes>)
    requires chunks != []
    ensures rest + Flatten(chunks) == (rest + chunks[0]) + Flatten(chunks[1..])
  {
  }

  /** Over several feeds, every open one adds a packet. */
  lemma {:induction false} FeedsCount(rest: Bytes, s: byte, max: nat, chunks: seq<Bytes>)
    requires !HasFrame(rest) || chunks != []
    requires FeedChunks(rest, s, max, chunks).Accepted?
    ensures |FeedChunks(rest, s, max, chunks).packets| == Terminators(rest + Flatten(chunks)) + OpenFeeds(rest, chunks)
    decreases |chunks|
  {
    if chunks == [] {
      assert rest + Flatten(chunks) == rest;
    } else {
      var b := rest + chunks[0];
      var r := ParsePlain(b, s, max);
      PacketCount(b, s, max);
      ParseTail(b, s, max);
      FeedsCount(r.rest, r.seqId, max, chunks[1..]);
      TerminatorsCut(b, Flatten(chunks[1..]));
      FlattenFirst(rest, chunks);
    }
  }

  /** If no feed is open, neither is the stream. */
  lemma {:induction false} NoOpenFeeds(rest: Bytes, chunks: seq<Bytes>)
    requires OpenFeeds(rest, chunks) == 0 && (!HasFrame(rest) || chunks != [])
    ensures !Open(rest + Flatten(chunks), false)
    decreases |chunks|
  {
    if chunks == [] {
      assert rest + Flatten(chunks) == rest;
    } else {
      var b := rest + chunks[0];
      NoOpenFeeds(Tail(b), chunks[1..]);
      OpenCut(b, Flatten(chunks[1..]), false);
      FlattenFirst(rest, chunks);
    }
  }

  /** An open feed is harmless only if nothing more is completed after it. */
  lemma NothingAfterOpen(b: Bytes, later: seq<Bytes>)
    requires Open(b, false)
    requires One(Open(b + Flatten(later), false)) == 1 + OpenFeeds(Tail(b), later)
    ensures !HasFrame(Tail(b) + Flatten(later))
  {
    NoOpenFeeds(Tail(b), later);
    OpenCut(b, Flatten(later), false);
  }

  lemma {:induction false} FewOpenFeeds(rest: Bytes, s: byte, max: nat, chunks: seq<Bytes>)
    requires ParsePlain(rest + Flatten(chunks), s, max).Accepted? && (!HasFrame(rest) || chunks != [])
    requires OpenFeeds(rest, chunks) == One(Open(rest + Flatten(chunks), false))
    ensures FeedChunks(rest, s, max, chunks) == ParsePlain(rest + Flatten(chunks), s, max)
    decreases |chunks|
  {
    if chunks == [] {
      assert rest + Flatten(chunks) == rest;
    } else {
      var b, later := rest + chunks[0], chunks[1..];
      var more := Flatten(later);
      FlattenFirst(rest, chunks);
      OpenCut(b, more, false);
      if Open(b, false) {
        NothingAfterOpen(b, later);
      }
      CutCondition(b, more, s, max);
      AcceptedPrefix(b, more, s, max);
      ParseTail(b, s, max);
      var r := ParsePlain(b, s, max);
      FewOpenFeeds(r.rest, r.seqId, max, later);
    }
  }

  /**
    * Exactly when cutting an accepted stream into any number of pieces is harmless: there is one open feed if the whole
    * stream is open, and none otherwise.
    */
  lemma CutsExactly(rest: Bytes, s: byte, max: nat, chunks: seq<Bytes>)
    requires ParsePlain(rest + Flatten(chunks), s, max).Accepted? && chunks != []
    ensures FeedChunks(rest, s, max, chunks) == ParsePlain(rest + Flatten(chunks), s, max)
            <==> OpenFeeds(rest, chunks) == One(Open(rest + Flatten(chunks), false))
  {
    if OpenFeeds(rest, chunks) == One(Open(rest + Flatten(chunks), false)) {
      FewOpenFeeds(rest, s, max, chunks);
    } else if FeedChunks(rest, s, max, chunks).Accepted? {
      FeedsCount(rest, s, max, chunks);
      PacketCount(rest + Flatten(chunks), s, max);
    }
  }

  lemma {:induction false} FramesClose(p: Bytes, s: byte, rest: Bytes, mid: bool)
    ensures Open(Frames(p, s) + rest, mid) == Open(rest, false)
    decreases |p|
  {
    if |p| < MAX_PACKET_LEN {
      FrameOf(p, s, rest);
    } else {
      var chunk, later := p[..MAX_PACKET_LEN], Frames(p[MAX_PACKET_LEN..], NextSeq(s));
      FrameOf(chunk, s, later + rest);
      assert Frames(p, s) + rest == Header(|chunk|, s) + chunk + (later + rest);
      FramesClose(p[MAX_PACKET_LEN..], NextSeq(s), rest, true);
    }
  }

  /** A written stream ends with the end of a payload. */
  lemma {:induction false} WrittenCloses(ps: seq<Bytes>, s: byte)
    ensures !Open(FramesAll(ps, s), false)
  {
    if ps != [] {
      var s' := SeqPlus(s, FrameCount(ps[0]));
      WrittenCloses(ps[1..], s');
      FramesClose(ps[0], s, FramesAll(ps[1..], s'), false);
    }
  }

  /** Every complete frame is shorter than the limit, so no prefix is open. */
  predicate AllShort(b: Bytes)
    decreases |b|
  {
    HasFrame(b) ==> FrameLen(b) < MAX_PACKET_LEN && AllShort(AfterFrame(b))
  }

  lemma {:induction false} AllShortCut(b1: Bytes, b2: Bytes)
    requires AllShort(b1 + b2)
    ensures !Open(b1, false) && AllShort(Tail(b1) + b2)
    decreases |b1|
  {
    if HasFrame(b1) {
      FrameExtend(b1, b2);
      AllShortCut(AfterFrame(b1), b2);
    }
  }

  lemma {:induction false} ShortFeeds(rest: Bytes, chunks: seq<Bytes>)
    requires AllShort(rest + Flatten(chunks))
    ensures OpenFeeds(rest, chunks) == 0
    decreases |chunks|
  {
    if chunks != [] {
      FlattenFirst(rest, chunks);
      AllShortCut(rest + chunks[0], Flatten(chunks[1..]));
      ShortFeeds(Tail(rest + chunks[0]), chunks[1..]);
    }
  }

  lemma {:induction false} SingleFramesAreShort(ps: seq<Bytes>, s: byte)
    requires forall p :: p in ps ==> |p| < MAX_PACKET_LEN
    ensures AllShort(FramesAll(ps, s))
  {
    if ps != [] {
      var s' := SeqPlus(s, FrameCount(ps[0]));
      FrameOf(ps[0], s, FramesAll(ps[1..], s'));
      SingleFramesAreShort(ps[1..], s');
    }
  }

  // ---------------------------------------------------------------- sequence numbers

  /** The numbers carried by the complete frames of a byte stream. */
  function Numbers(b: Bytes): seq<byte>
    decreases |b|
  {
    if !HasFrame(b) then [] else [b[3]] + Numbers(AfterFrame(b))
  }

  predicate Consecutive(ns: seq<byte>, s: byte) {
    ns == [] || (ns[0] == s && Consecutive(ns[1..], NextSeq(s)))
  }

  lemma {:induction false} ConsecutiveAt(ns: seq<byte>, s: byte, i: nat)
    requires Consecutive(ns, s) && i < |ns|
    ensures ns[i] == SeqPlus(s, i)
  {
    if i > 0 {
      ConsecutiveAt(ns[1..], NextSeq(s), i - 1);
    }
  }

  lemma {:induction false} ConsecutiveAppend(ns: seq<byte>, ms: seq<byte>, s: byte)
    requires Consecutive(ns, s) && Consecutive(ms, SeqPlus(s, |ns|))
    ensures Consecutive(ns + ms, s)
  {
    if ns == [] {
      assert ns + ms == ms;
    } else {
      ConsecutiveAppend(ns[1..], ms, NextSeq(s));
      assert (ns + ms)[1..] == ns[1..] + ms;
    }
  }

  lemma NumbersUnfold(b: Bytes)
    requires HasFrame(b)
    ensures Numbers(b) == [b[3]] + Numbers(AfterFrame(b))
  {
  }

  lemma {:induction false} ConsecutiveCons(ms: seq<byte>, s: byte) returns (ns: seq<byte>)
    requires Consecutive(ms, NextSeq(s))
    ensures ns == [s] + ms && Consecutive(ns, s) && SeqPlus(s, |ns|) == SeqPlus(NextSeq(s), |ms|)
  {
    ns := [s] + ms;
    assert ns[1..] == ms;
  }

  lemma AssembleFirst(b: Bytes, s: byte, max: nat, acc: Bytes)
    requires HasFrame(b) && !Assemble(b, s, max, acc).Broken?
    ensures b[3] == s
    ensures var a := Assemble(b, s, max, acc);
            if FrameLen(b) < MAX_PACKET_LEN then a.rest == AfterFrame(b) && a.seqId == NextSeq(s)
            else a == Assemble(AfterFrame(b), NextSeq(s), max, acc + FramePayload(b))
  {
  }

  lemma {:induction false} AssembleNumbers(b: Bytes, s: byte, max: nat, acc: Bytes) returns (ns: seq<byte>)
    requires !Assemble(b, s, max, acc).Broken?
    ensures Numbers(b) == ns + Numbers(Assemble(b, s, max, acc).rest)
    ensures Consecutive(ns, s) && Assemble(b, s, max, acc).seqId == SeqPlus(s, |ns|)
    decreases |b|
  {
    if !HasFrame(b) {
      ns := [];
    } else {
      NumbersUnfold(b);
      AssembleFirst(b, s, max, acc);
      if FrameLen(b) < MAX_PACKET_LEN {
        ns := ConsecutiveCons([], s);
      } else {
        var ms := AssembleNumbers(AfterFrame(b), NextSeq(s), max, acc + FramePayload(b));
        ns := ConsecutiveCons(ms, s);
        Associative([s], ms, Numbers(Assemble(b, s, max, acc).rest));
      }
    }
  }

  /** An accepted stream is numbered consecutively, and the reader's counter advances once per frame. */
  lemma {:induction false} AcceptedNumbers(b: Bytes, s: byte, max: nat)
    requires ParsePlain(b, s, max).Accepted?
    ensures Consecutive(Numbers(b), s)
    ensures ParsePlain(b, s, max).seqId == SeqPlus(s, |Numbers(b)|)
    decreases |b|
  {
    if HasFrame(b) {
      var ns := AssembleNumbers(b, s, max, []);
      var a := Assemble(b, s, max, []);
      AcceptedNumbers(a.rest, a.seqId, max);
      ConsecutiveAppend(ns, Numbers(a.rest), s);
      SeqPlusAdd(s, |ns|, |Numbers(a.rest)|);
    }
  }

  lemma {:induction false} WrittenNumbers(p: Bytes, s: byte)
    ensures Consecutive(Numbers(Frames(p, s)), s) && |Numbers(Frames(p, s))| == FrameCount(p)
    decreases |p|
  {
    var chunk := if |p| < MAX_PACKET_LEN then p else p[..MAX_PACKET_LEN];
    var rest := if |p| < MAX_PACKET_LEN then [] else Frames(p[MAX_PACKET_LEN..], NextSeq(s));
    assert Frames(p, s) == Header(|chunk|, s) + chunk + rest;
    FrameOf(chunk, s, rest);
    assert Numbers(Frames(p, s)) == [s] + Numbers(rest);
    if |p| >= MAX_PACKET_LEN {
      WrittenNumbers(p[MAX_PACKET_LEN..], NextSeq(s));
    }
  }
}
