/** Buffered and unbuffered reading of the same response agree. */
module ResultAgreement {
  import opened Bytes
  import opened Protocol
  import opened ResultSet

  function RowsOf(r: Reader): seq<Row> {
    if r.rows.Some? then r.rows.value else []
  }

  /** The outcome of a response that both ways of reading must report alike. */
  predicate SameOutcome(b: Reader, u: Reader) {
    && b.phase == u.phase == Done
    && b.serverStatus == u.serverStatus && b.warningCount == u.warningCount && b.hasNext == u.hasNext
  }

  /** An OK packet that can be parsed: the complete answer to a statement without rows. */
  predicate CompleteOk(p: Bytes) { IsOkPacket(p) && ParseOkAt(p).Got? }

  predicate AnswersOk(q: seq<Bytes>) { q != [] && CompleteOk(q[0]) }

  function Unbuffered(r: Reader): Reader { r.(unbuffered := true) }

  /** Before the rows, the two readers do the same; at the end of the columns, one goes on and the other pauses. */
  lemma FeedBeforeRows(r: Reader, p: Bytes, conn: Conn)
    requires !r.unbuffered && Rank(r.phase) < 2
    ensures var (b, br) := Feed(r, p, conn);
            && !b.unbuffered
            && (if b.phase == Rows
                then br == Ok(NeedMore)
                     && Feed(Unbuffered(r), p, conn) == (Unbuffered(b).(phase := UnbufferedReady), Ok(Ready))
                else Rank(b.phase) != 2 && Feed(Unbuffered(r), p, conn) == (Unbuffered(b), br))
            && (b.phase == Done ==> r.phase == Initial && CompleteOk(p))
            && (br == Ok(Finished) <==> b.phase == Done) && br != Ok(Ready)
  {
  }

  lemma FeedRowsAgree(b: Reader, u: Reader, p: Bytes, conn: Conn)
    requires b.phase == Rows && u.unbuffered && u.converters == b.converters
    ensures var (b', br) := Feed(b, p, conn); var (u', ur) := FeedUnbufferedRow(u, p);
            match br
            case Err(e) => ur == Err(e)
            case Ok(NeedMore) =>
              ur.Ok? && ur.value.Some? && RowsOf(b') == RowsOf(b) + [ur.value.value]
              && b'.phase == Rows && u'.unbuffered && u'.converters == b'.converters
            case Ok(Finished) =>
              ur == Ok(None) && SameOutcome(b', u') && !u'.unbuffered && RowsOf(b') == RowsOf(b)
            case Ok(Ready) => false
  {
  }

  lemma {:induction false} RowsAgree(b: Reader, u: Reader, q: seq<Bytes>, conn: Conn)
    requires b.phase == Rows && u.unbuffered && u.converters == b.converters
    ensures var (b', bq, br) := Drive(b, q, conn); var (u', uq, ur) := FetchAll(u, q);
            && bq == uq
            && (br.Err? ==> ur == Err(br.error))
            && (br.Ok? ==> ur.Ok? && RowsOf(b') == RowsOf(b) + ur.value && SameOutcome(b', u') && !u'.unbuffered)
    decreases |q|
  {
    if q != [] {
      FeedRowsAgree(b, u, q[0], conn);
      var (b', br) := Feed(b, q[0], conn);
      var (u', ur) := FeedUnbufferedRow(u, q[0]);
      if br == Ok(NeedMore) {
        RowsAgree(b', u', q[1..], conn);
        var rest := FetchAll(u', q[1..]);
        if rest.2.Ok? {
          Associative(RowsOf(b), [ur.value.value], rest.2.value);
        }
      } else if br.Ok? {
        assert RowsOf(b) + [] == RowsOf(b);
      }
    }
  }

  /**
    * What it means for the two ways of reading to agree: buffered reading succeeds exactly when unbuffered reading
    * does, otherwise both report the same error; the rows fetched one at a time are the buffered rows; both stop at
    * the same packet with the same status, warnings and more-results flag.
    */
  predicate AgreeOn(buffered: (Reader, seq<Bytes>, Result<()>), unbuffered: (Reader, seq<Bytes>, Result<()>)) {
    var (b, bq, br) := buffered;
    var (u, uq, ur) := unbuffered;
    var (u', uq', rows) := FetchAll(u, uq);
    && (br.Ok? <==> ur.Ok? && rows.Ok?)
    && (br.Err? ==> (if ur.Err? then ur == br else rows == Err(br.error)))
    && (br.Ok? ==> rows == Ok(RowsOf(b)) && uq' == bq && SameOutcome(b, u'))
  }

  lemma {:induction false} AgreeFrom(r: Reader, q: seq<Bytes>, conn: Conn)
    requires !r.unbuffered && Rank(r.phase) < 2 && r.rows == None
    requires r.phase == Initial ==> !AnswersOk(q)
    ensures AgreeOn(Drive(r, q, conn), Drive(Unbuffered(r), q, conn))
    ensures var (u, _, ur) := Drive(Unbuffered(r), q, conn); ur.Ok? ==> u.phase == UnbufferedReady && u.unbuffered
    decreases |q|
  {
    if q != [] {
      FeedBeforeRows(r, q[0], conn);
      KeepsNoRows(r, q[0], conn);
      var (b, br) := Feed(r, q[0], conn);
      if b.phase == Rows {
        var u := Unbuffered(b).(phase := UnbufferedReady);
        RowsAgree(b, u, q[1..], conn);
        assert Drive(r, q, conn) == Drive(b, q[1..], conn);
        assert Drive(Unbuffered(r), q, conn) == (u, q[1..], Ok(()));
        var rows := FetchAll(u, q[1..]).2;
        if rows.Ok? {
          assert [] + rows.value == rows.value;
        }
      } else if br == Ok(NeedMore) {
        AgreeFrom(b, q[1..], conn);
      }
    }
  }

  lemma KeepsNoRows(r: Reader, p: Bytes, conn: Conn)
    requires Rank(r.phase) < 2 && r.rows == None
    ensures Feed(r, p, conn).0.rows == None
    ensures Feed(r, p, conn).1 == Ok(NeedMore) ==> Feed(r, p, conn).0.phase != Initial
  {
  }

  /** Fetching from an unbuffered reader consumes at least one packet. */
  lemma {:induction false} FetchConsumes(u: Reader, q: seq<Bytes>)
    requires u.unbuffered && FetchAll(u, q).2.Ok?
    ensures |FetchAll(u, q).1| < |q| && !FetchAll(u, q).0.unbuffered
    decreases |q|
  {
    var (u', row) := FeedUnbufferedRow(u, q[0]);
    if row.value.Some? {
      FetchConsumes(u', q[1..]);
    }
  }

  /** On an OK answer the two readers end in the same state but for the flag, which stays set. */
  lemma OkAnswer(q: seq<Bytes>, conn: Conn)
    requires AnswersOk(q)
    ensures var (b, bq, br) := Drive(New(false), q, conn);
            br.Ok? && bq == q[1..] && b.rows == None && b.phase == Done
            && Drive(New(true), q, conn) == (Unbuffered(b), bq, br)
  {
  }

  /**
    * On every packet stream, buffered and unbuffered reading agree if and only if the response is not a complete OK
    * packet: after one, an unbuffered reader goes on to take the packets of a later response for rows.
    */
  lemma BufferedAndUnbufferedAgree(q: seq<Bytes>, conn: Conn)
    ensures AgreeOn(Drive(New(false), q, conn), Drive(New(true), q, conn)) <==> !AnswersOk(q)
  {
    if AnswersOk(q) {
      OkAnswer(q, conn);
      var (u, uq, _) := Drive(New(true), q, conn);
      if FetchAll(u, uq).2.Ok? {
        FetchConsumes(u, uq);
      }
    } else {
      AgreeFrom(New(false), q, conn);
    }
  }

  /** What agreement says of a response that was read at once. */
  lemma AgreeMeans(buffered: (Reader, seq<Bytes>, Result<()>), unbuffered: (Reader, seq<Bytes>, Result<()>))
    requires AgreeOn(buffered, unbuffered) && buffered.2.Ok?
    ensures var (u, uq, rows) := FetchAll(unbuffered.0, unbuffered.1);
            unbuffered.2.Ok? && rows == Ok(RowsOf(buffered.0)) && uq == buffered.1 && SameOutcome(buffered.0, u)
  {
  }

  // ---------------------------------------------------------------- draining

  lemma {:induction false} DrainReachesTheEnd(u: Reader, q: seq<Bytes>)
    requires u.unbuffered && FetchAll(u, q).2.Ok?
    ensures Drain(u, q).2 == Ok(()) && Drain(u, q).1 == FetchAll(u, q).1
    ensures SameOutcome(Drain(u, q).0, FetchAll(u, q).0) && !Drain(u, q).0.unbuffered
    decreases |q|
  {
    var (u', row) := FeedUnbufferedRow(u, q[0]);
    if row.value.Some? {
      DrainReachesTheEnd(u', q[1..]);
      DrainIgnoresRows(u', CheckEof(u, q[0]).0, q[1..]);
    }
  }

  /** Draining depends only on the packets, not on the rows already held. */
  lemma {:induction false} DrainIgnoresRows(u: Reader, v: Reader, q: seq<Bytes>)
    requires u.unbuffered && v.unbuffered
    ensures Drain(u, q).1 == Drain(v, q).1 && Drain(u, q).2 == Drain(v, q).2
    ensures Drain(u, q).2.Ok? ==>
              SameOutcome(Drain(u, q).0, Drain(v, q).0) && !Drain(u, q).0.unbuffered && !Drain(v, q).0.unbuffered
    decreases |q|
  {
    if q != [] && CheckEof(u, q[0]).1 == Ok(false) {
      DrainIgnoresRows(CheckEof(u, q[0]).0, CheckEof(v, q[0]).0, q[1..]);
    }
  }

  /** What is left of the rows after `n` of them. */
  function Skip(rows: seq<Row>, n: nat): seq<Row> { if n <= |rows| then rows[n..] else [] }

  lemma SkipOneMore(row: Row, rows: seq<Row>, n: nat)
    ensures Skip([row] + rows, n + 1) == Skip(rows, n)
  {
  }

  /** One row is fetched, the others are left. */
  lemma FetchOneThenRest(u: Reader, q: seq<Bytes>)
    requires FetchAll(u, q).2.Ok? && NextRow(u, q).2.value.Some?
    ensures var (u', q', row) := NextRow(u, q);
            && FetchAll(u', q').2.Ok?
            && FetchAll(u', q').0 == FetchAll(u, q).0 && FetchAll(u', q').1 == FetchAll(u, q).1
            && FetchAll(u, q).2.value == [row.value.value] + FetchAll(u', q').2.value
  {
  }

  lemma {:induction false} FetchSomeThenRest(u: Reader, q: seq<Bytes>, n: nat)
    requires u.unbuffered && FetchAll(u, q).2.Ok?
    ensures var (v, vq, vr) := FetchSome(u, q, n);
            && vr.Ok? && FetchAll(v, vq).2.Ok? && FetchAll(v, vq).1 == FetchAll(u, q).1
            && FetchAll(v, vq).0 == FetchAll(u, q).0
            && (v.unbuffered || (v, vq) == (FetchAll(u, q).0, FetchAll(u, q).1))
            && FetchAll(v, vq).2.value == Skip(FetchAll(u, q).2.value, n)
    decreases n
  {
    if n > 0 {
      var (u', q', row) := NextRow(u, q);
      if row.value.Some? {
        FetchOneThenRest(u, q);
        FetchSomeThenRest(u', q', n - 1);
        SkipOneMore(row.value.value, FetchAll(u', q').2.value, n - 1);
      }
    }
  }

  /** Fetching some rows never gives packets back, and ends the result only by consuming one. */
  lemma {:induction false} FetchSomeConsumes(u: Reader, q: seq<Bytes>, n: nat)
    requires u.unbuffered
    ensures var (v, vq, vr) := FetchSome(u, q, n); |vq| <= |q| && (vr.Ok? && !v.unbuffered ==> |vq| < |q|)
    decreases n
  {
    if n > 0 {
      var (u', q', row) := NextRow(u, q);
      if row.Ok? && row.value.Some? {
        FetchSomeConsumes(u', q', n - 1);
      }
    }
  }

  lemma {:induction false} DrainConsumes(u: Reader, q: seq<Bytes>)
    requires u.unbuffered && Drain(u, q).2.Ok?
    ensures |Drain(u, q).1| < |q|
    decreases |q|
  {
    if CheckEof(u, q[0]).1 == Ok(false) {
      DrainConsumes(CheckEof(u, q[0]).0, q[1..]);
    }
  }

  /** Fetching `n` rows and throwing away the rest ends where buffered reading does, with the same outcome. */
  predicate StopsAlike(q: seq<Bytes>, conn: Conn, n: nat) {
    var (b, bq, _) := Drive(New(false), q, conn);
    var (u, uq, _) := Drive(New(true), q, conn);
    var (v, vq, vr) := FetchSome(u, uq, n);
    vr.Ok? && Drain(v, vq).2.Ok? && Drain(v, vq).1 == bq && SameOutcome(b, Drain(v, vq).0)
  }

  /**
    * Stopping early is safe: on a response that buffered reading accepts, draining after any number of fetched rows
    * consumes exactly the same packets, through the terminating EOF, if and only if the response is a result set.
    */
  lemma DrainAfterSomeRows(q: seq<Bytes>, conn: Conn, n: nat)
    requires Drive(New(false), q, conn).2.Ok?
    ensures StopsAlike(q, conn, n) <==> !AnswersOk(q)
  {
    if AnswersOk(q) {
      NoSafeStop(q, conn, n);
    } else {
      SafeStop(q, conn, n);
    }
  }

  lemma NoSafeStop(q: seq<Bytes>, conn: Conn, n: nat)
    requires AnswersOk(q)
    ensures !StopsAlike(q, conn, n)
  {
    OkAnswer(q, conn);
    var (u, uq, _) := Drive(New(true), q, conn);
    FetchSomeConsumes(u, uq, n);
    var (v, vq, vr) := FetchSome(u, uq, n);
    if v.unbuffered && Drain(v, vq).2.Ok? {
      DrainConsumes(v, vq);
    }
  }

  lemma SafeStop(q: seq<Bytes>, conn: Conn, n: nat)
    requires Drive(New(false), q, conn).2.Ok? && !AnswersOk(q)
    ensures StopsAlike(q, conn, n)
  {
    AgreeFrom(New(false), q, conn);
    var (u, uq, _) := Drive(New(true), q, conn);
    FetchSomeThenRest(u, uq, n);
    var (v, vq, _) := FetchSome(u, uq, n);
    if v.unbuffered {
      DrainReachesTheEnd(v, vq);
    } else {
      FetchConsumes(u, uq);
    }
  }
}
