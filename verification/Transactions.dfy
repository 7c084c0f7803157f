/**
  * Connections, transaction guards and the server session behind them.
  *
  * The server is a small model of sections 15.3.1 and 15.3.3 of the MySQL 8.4 Reference Manual: a session has at
  * most one transaction; START TRANSACTION commits the open one first; without autocommit a write opens one.
  * Pieces of work are numbered and belong to the connection that did them; a piece is pending in that connection's
  * session or committed for good.
  */
module Transactions {

  datatype Piece = Piece(conn: nat, number: nat)

  datatype Session = Session(inTxn: bool, pending: set<Piece>)

  const ENDED := Session(false, {})

  datatype Stmt =
    | StartTransaction
    | Commit
    | Rollback
    | Work(piece: Piece)
    | UndoTo(keep: set<Piece>)
    | Neutral

  /** A statement that commits whatever is pending. */
  predicate Commits(s: Stmt) { s.Commit? || s.StartTransaction? }

  function Execute(s: Session, autocommit: bool, stmt: Stmt, committed: set<Piece>): (Session, set<Piece>) {
    match stmt
    case StartTransaction => (Session(true, {}), committed + s.pending)
    case Commit => (ENDED, committed + s.pending)
    case Rollback => (ENDED, committed)
    case Work(w) =>
      if s.inTxn || !autocommit then (Session(true, s.pending + {w}), committed) else (s, committed + {w})
    case UndoTo(keep) => (s.(pending := s.pending * keep), committed)
    case Neutral => (s, committed)
  }

  /**
    * How a query can end. Its own reply arrives (`Fine`), or an error that keeps or loses the transaction; the link
    * breaks before or after the server executed it; it is executed, but its reply is rejected or never awaited and
    * the connection stays open (`Unread`); or the client takes the OK of an earlier statement, left unread on the
    * stream, for the answer (`Misread`), whether or not the server executed the statement. A ROLLBACK whose answer is
    * mistaken was executed: the server has no reason to refuse one.
    */
  datatype Reply =
    | Fine
    | Refused
    | RefusedAndRolledBack
    | LostBefore
    | LostAfter
    | Unread
    | Misread(executed: bool, inTrans: bool)

  /** Did the server execute the statement? */
  predicate Executed(stmt: Stmt, r: Reply) {
    r.Fine? || r.LostAfter? || r.Unread? || (r.Misread? && (r.executed || stmt.Rollback?))
  }

  /** Does the client believe that the statement succeeded? */
  predicate Succeeds(r: Reply) { r.Fine? || r.Misread? }

  /** Did the client learn the outcome of the statement it sent, or lose the connection? */
  predicate Understood(r: Reply) { !r.Unread? && !r.Misread? }

  /**
    * A connection: the client's view (open, dirty flag, last reported transaction status, live guards, time
    * stamps) and the server session it is attached to.
    */
  datatype Conn = Conn(
    id: nat,
    open: bool,
    dirty: bool,
    inTrans: bool,
    guards: nat,
    autocommit: bool,
    session: Session,
    createdAt: nat,
    idleSince: nat)

  /** Work is pending only in a transaction, and a closed connection has no session. */
  predicate Attached(c: Conn) {
    && (c.session.pending != {} ==> c.session.inTxn)
    && (!c.open ==> c.session == ENDED)
  }

  /** The client's status does not miss a transaction the server has open. */
  predicate UpToDate(c: Conn) { c.session.inTxn ==> c.inTrans }

  predicate Clean(c: Conn) {
    !c.dirty && !c.inTrans && c.session == ENDED
  }

  /** Nothing on the client's side tells of the server's transaction. */
  predicate Hidden(c: Conn) { !c.dirty && !c.inTrans && c.session != ENDED }

  datatype Outcome = Outcome(conn: Conn, committed: set<Piece>, ok: bool)

  function Closed(c: Conn): Conn { c.(open := false, session := ENDED) }

  function Query(c: Conn, stmt: Stmt, reply: Reply, committed: set<Piece>): Outcome {
    if !c.open then Outcome(c, committed, false)
    else
      var (s, done) :=
        if Executed(stmt, reply) then Execute(c.session, c.autocommit, stmt, committed) else (c.session, committed);
      match reply
      case Fine => Outcome(c.(session := s, inTrans := s.inTxn), done, true)
      case Refused => Outcome(c, committed, false)
      case RefusedAndRolledBack => Outcome(c.(session := ENDED), committed, false)
      case LostBefore => Outcome(Closed(c), committed, false)
      case LostAfter => Outcome(Closed(c), done, false)
      case Unread => Outcome(c.(session := s), done, false)
      case Misread(_, inTrans) => Outcome(c.(session := s, inTrans := inTrans), done, true)
  }

  /** Rolls back an abandoned transaction, and any other one the client knows of. */
  function RollbackDirty(c: Conn, reply: Reply, committed: set<Piece>): Outcome {
    if c.dirty || c.inTrans then
      var o := Query(c, Rollback, reply, committed);
      if o.ok then o.(conn := o.conn.(dirty := false)) else o
    else Outcome(c, committed, true)
  }

  datatype BeginResult = Started | Failed | AlreadyInTransaction

  /** Beginning a transaction: clear what was abandoned, check the status, set the isolation level, start. */
  function Begin(c: Conn, isolation: bool, r1: Reply, r2: Reply, r3: Reply, committed: set<Piece>)
    : (Outcome, BeginResult)
  {
    var cleared := RollbackDirty(c, r1, committed);
    if !cleared.ok then (cleared, Failed)
    else if cleared.conn.inTrans then (cleared, AlreadyInTransaction)
    else StartGuard(cleared.conn, isolation, r2, r3, committed)
  }

  function StartGuard(c: Conn, isolation: bool, r2: Reply, r3: Reply, committed: set<Piece>): (Outcome, BeginResult) {
    var level := if isolation then Query(c, Neutral, r2, committed) else Outcome(c, committed, true);
    if !level.ok then (level, Failed)
    else
      var started := Query(level.conn, StartTransaction, r3, level.committed);
      if started.ok then (started.(conn := started.conn.(guards := started.conn.guards + 1)), Started)
      else (started, Failed)
  }

  /** Finishing a guard marks it finished before the statement is sent, so a failed COMMIT leaves no dirty flag. */
  function FinishGuard(c: Conn, stmt: Stmt, reply: Reply, committed: set<Piece>): Outcome
    requires c.guards > 0
  {
    Query(c.(guards := c.guards - 1), stmt, reply, committed)
  }

  /** Dropping an unfinished guard only sets the flag. */
  function DropGuard(c: Conn): Conn
    requires c.guards > 0
  {
    c.(guards := c.guards - 1, dirty := true)
  }

  // ---------------------------------------------------------------- properties

  function NewWork(stmt: Stmt): set<Piece> { if stmt.Work? then {stmt.piece} else {} }

  /**
    * Whatever the statement and its fate: work stays in one place, and only committing statements commit pending
    * work. The client's status stays up to date as long as it understands the replies.
    */
  lemma QueryKeepsWork(c: Conn, stmt: Stmt, reply: Reply, committed: set<Piece>)
    requires Attached(c) && c.session.pending !! committed
    requires NewWork(stmt) !! (committed + c.session.pending)
    ensures var o := Query(c, stmt, reply, committed);
            && Attached(o.conn) && o.conn.id == c.id && o.conn.dirty == c.dirty && o.conn.guards == c.guards
            && committed <= o.committed <= committed + c.session.pending + NewWork(stmt)
            && o.conn.session.pending <= c.session.pending + NewWork(stmt)
            && o.conn.session.pending !! o.committed
            && (!(Commits(stmt) && Executed(stmt, reply)) ==> o.committed !! c.session.pending)
            && (UpToDate(c) && Understood(reply) ==> UpToDate(o.conn))
  {
  }

  /**
    * Clearing commits nothing, and a successful one clears the flag. It ends the server's transaction if and only if
    * there was none or the client knew of it.
    */
  lemma RollbackDirtyClears(c: Conn, reply: Reply, committed: set<Piece>)
    requires Attached(c)
    ensures var o := RollbackDirty(c, reply, committed);
            && Attached(o.conn) && o.committed == committed && o.conn.id == c.id && o.conn.guards == c.guards
            && o.conn.session.pending <= c.session.pending
            && (o.ok ==> !o.conn.dirty && (o.conn.session == ENDED <==> !Hidden(c)))
            && (o.ok && Hidden(c) ==> o.conn == c)
            && (!o.ok ==> o.conn.dirty == c.dirty)
            && (UpToDate(c) && Understood(reply) ==> UpToDate(o.conn) && (o.ok ==> Clean(o.conn)))
  {
  }

  /** A transaction is started over hidden work: START TRANSACTION reaches the server without a ROLLBACK before it. */
  predicate StartsOver(c: Conn, isolation: bool, r2: Reply, r3: Reply) {
    Hidden(c) && (isolation ==> Succeeds(r2)) && Executed(StartTransaction, r3)
  }

  lemma StartGuardCommits(c: Conn, isolation: bool, r2: Reply, r3: Reply, committed: set<Piece>)
    requires Attached(c)
    ensures StartGuard(c, isolation, r2, r3, committed).0.committed ==
            committed + if (isolation ==> Succeeds(r2)) && Executed(StartTransaction, r3) then c.session.pending else {}
  {
    if isolation && c.open {
      assert Query(c, Neutral, r2, committed).committed == committed;
    }
  }

  /** Exactly what beginning commits: nothing, in any outcome, unless it starts over work hidden from the client. */
  lemma BeginCommitsExactly(c: Conn, isolation: bool, r1: Reply, r2: Reply, r3: Reply, committed: set<Piece>)
    requires Attached(c)
    ensures Begin(c, isolation, r1, r2, r3, committed).0.committed ==
            committed + if StartsOver(c, isolation, r2, r3) then c.session.pending else {}
  {
    RollbackDirtyClears(c, r1, committed);
    var cleared := RollbackDirty(c, r1, committed);
    if cleared.ok && !cleared.conn.inTrans {
      StartGuardCommits(cleared.conn, isolation, r2, r3, committed);
    }
  }

  lemma StartGuardStartsEmpty(c: Conn, isolation: bool, r2: Reply, r3: Reply, committed: set<Piece>)
    requires Attached(c) && c.session.pending !! committed
    ensures var (o, r) := StartGuard(c, isolation, r2, r3, committed);
            && Attached(o.conn) && o.conn.id == c.id && o.conn.dirty == c.dirty
            && o.conn.session.pending <= c.session.pending && o.conn.session.pending !! o.committed
            && r != AlreadyInTransaction && o.conn.guards == c.guards + (if r == Started then 1 else 0)
            && (r == Started && Executed(StartTransaction, r3) ==> o.conn.session == Session(true, {}))
  {
    if isolation {
      NeutralStep(c, r2, committed);
      StartStep(Query(c, Neutral, r2, committed).conn, r3, committed);
    } else {
      StartStep(c, r3, committed);
    }
  }

  lemma NeutralStep(c: Conn, reply: Reply, committed: set<Piece>)
    requires Attached(c) && c.session.pending !! committed
    ensures var o := Query(c, Neutral, reply, committed);
            && Attached(o.conn) && o.conn.id == c.id && o.conn.dirty == c.dirty && o.conn.guards == c.guards
            && o.conn.session.pending <= c.session.pending && o.committed == committed
  {
  }

  lemma StartStep(c: Conn, reply: Reply, committed: set<Piece>)
    requires Attached(c) && c.session.pending !! committed
    ensures var o := Query(c, StartTransaction, reply, committed);
            && Attached(o.conn) && o.conn.id == c.id && o.conn.dirty == c.dirty && o.conn.guards == c.guards
            && o.conn.session.pending <= c.session.pending && o.conn.session.pending !! o.committed
            && (o.ok && Executed(StartTransaction, reply) ==> o.conn.session == Session(true, {}))
  {
  }

  /** Where a connection is after beginning: a started transaction is empty, and marked work stays marked. */
  lemma BeginStartsEmpty(c: Conn, isolation: bool, r1: Reply, r2: Reply, r3: Reply, committed: set<Piece>)
    requires Attached(c) && c.session.pending !! committed
    ensures var (o, r) := Begin(c, isolation, r1, r2, r3, committed);
            && Attached(o.conn) && o.conn.id == c.id
            && o.conn.session.pending <= c.session.pending && o.conn.session.pending !! o.committed
            && (o.conn.session.pending != {} ==> o.conn.dirty == c.dirty)
            && (r == Started ==> !o.conn.dirty && o.conn.guards == c.guards + 1)
            && (r == Started && Executed(StartTransaction, r3) ==> o.conn.session == Session(true, {}))
            && (r != Started ==> o.conn.guards == c.guards)
  {
    RollbackDirtyClears(c, r1, committed);
    var cleared := RollbackDirty(c, r1, committed);
    if cleared.ok && !cleared.conn.inTrans {
      StartGuardStartsEmpty(cleared.conn, isolation, r2, r3, committed);
    }
  }

  lemma BeginStaysUpToDate(c: Conn, isolation: bool, r1: Reply, r2: Reply, r3: Reply, committed: set<Piece>)
    requires Attached(c) && UpToDate(c) && Understood(r1) && Understood(r2) && Understood(r3)
    ensures UpToDate(Begin(c, isolation, r1, r2, r3, committed).0.conn)
  {
    RollbackDirtyClears(c, r1, committed);
  }

  /**
    * Exactly when a nested transaction is refused: the ROLLBACK sent first was answered by a stale OK that still
    * reports a transaction. Otherwise the open transaction is rolled back, not reported.
    */
  lemma BeginRefusesExactly(c: Conn, isolation: bool, r1: Reply, r2: Reply, r3: Reply, committed: set<Piece>)
    ensures Begin(c, isolation, r1, r2, r3, committed).1 == AlreadyInTransaction
            <==> c.open && (c.dirty || c.inTrans) && r1.Misread? && r1.inTrans
  {
  }

  /** Beginning inside an open transaction silently discards that transaction's work. */
  lemma NestedBeginDiscards(c: Conn, committed: set<Piece>)
    requires Attached(c) && c.open && (c.dirty || c.inTrans)
    ensures var (o, r) := Begin(c, false, Fine, Fine, Fine, committed);
            r == Started && o.conn.session.pending == {} && o.committed == committed
  {
  }

  /** What each fate of a statement means for the client, whatever the statement. */
  lemma FatesMean(c: Conn, stmt: Stmt, reply: Reply, committed: set<Piece>)
    requires c.open
    ensures var o := Query(c, stmt, reply, committed);
            && (o.ok <==> reply.Fine? || reply.Misread?)
            && (o.conn.open <==> !reply.LostBefore? && !reply.LostAfter?)
            && (!o.conn.open ==> o.conn.session == ENDED)
            && (reply.Refused? ==> o.conn == c && o.committed == committed)
            && (reply.RefusedAndRolledBack? ==> o.conn == c.(session := ENDED) && o.committed == committed)
            && (reply.LostBefore? ==> o.committed == committed)
            && (reply.Fine? ==> o.conn.inTrans == o.conn.session.inTxn)
            && (reply.Misread? ==> o.conn.inTrans == reply.inTrans)
            && (!reply.Fine? && !reply.Misread? ==> o.conn.inTrans == c.inTrans)
  {
  }

  lemma ClosedRefuses(c: Conn, stmt: Stmt, reply: Reply, committed: set<Piece>)
    requires !c.open
    ensures Query(c, stmt, reply, committed) == Outcome(c, committed, false)
  {
  }

  /** Pieces of work done one after another, each with its own reply arriving. */
  function WorkAll(c: Conn, ws: seq<Piece>, committed: set<Piece>): Outcome
    decreases |ws|
  {
    if ws == [] then Outcome(c, committed, true)
    else
      var o := Query(c, Work(ws[0]), Fine, committed);
      WorkAll(o.conn, ws[1..], o.committed)
  }

  function Pieces(ws: seq<Piece>): set<Piece> { set i | 0 <= i < |ws| :: ws[i] }

  lemma {:induction false} WorkInTransaction(c: Conn, ws: seq<Piece>, committed: set<Piece>)
    requires c.open && (c.session.inTxn || !c.autocommit)
    ensures var o := WorkAll(c, ws, committed);
            && o.committed == committed && o.conn.session.pending == c.session.pending + Pieces(ws)
            && o.conn == c.(session := o.conn.session, inTrans := o.conn.inTrans)
            && (ws == [] ==> o.conn == c) && (ws != [] ==> o.conn.session.inTxn)
    decreases |ws|
  {
    if ws != [] {
      var o := Query(c, Work(ws[0]), Fine, committed);
      WorkInTransaction(o.conn, ws[1..], committed);
      assert Pieces(ws) == {ws[0]} + Pieces(ws[1..]) by {
        assert forall x :: x in Pieces(ws) ==> x in {ws[0]} + Pieces(ws[1..]) by {
          forall x | x in Pieces(ws) ensures x in {ws[0]} + Pieces(ws[1..]) {
            var i :| 0 <= i < |ws| && ws[i] == x;
            if i > 0 {
              assert ws[1..][i - 1] == x;
            }
          }
        }
      }
    }
  }

  /** Going back to a savepoint gives up part of the pending work and commits none; other statements change nothing. */
  lemma SavepointsMean(c: Conn, keep: set<Piece>, committed: set<Piece>)
    requires c.open
    ensures var o := Query(c, UndoTo(keep), Fine, committed);
            && o.committed == committed && o.conn.session.inTxn == c.session.inTxn
            && forall x :: x in o.conn.session.pending <==> x in c.session.pending && x in keep
    ensures var o := Query(c, Neutral, Fine, committed); o.committed == committed && o.conn.session == c.session
  {
  }

  /** Outside a transaction, with autocommit, work is committed at once. */
  lemma AutocommittedWork(c: Conn, w: Piece, committed: set<Piece>)
    requires c.open && !c.session.inTxn && c.autocommit
    ensures var o := Query(c, Work(w), Fine, committed);
            o.ok && o.committed == committed + {w} && o.conn.session == c.session
  {
  }

  /**
    * A guard does what it is for: what is done between begin and commit is committed, all of it and nothing else;
    * rolled back, none of it is. Nothing is left pending or marked.
    */
  lemma GuardedWork(c: Conn, isolation: bool, ws: seq<Piece>, committed: set<Piece>, commit: bool)
    requires Attached(c) && c.open && !Hidden(c)
    ensures var (begun, r) := Begin(c, isolation, Fine, Fine, Fine, committed);
            var worked := WorkAll(begun.conn, ws, begun.committed);
            && r == Started && worked.conn.guards == c.guards + 1
            && var done := FinishGuard(worked.conn, if commit then Commit else Rollback, Fine, worked.committed);
               && done.ok && done.committed == committed + (if commit then Pieces(ws) else {})
               && Clean(done.conn) && done.conn.guards == c.guards
  {
    BeginCommitsExactly(c, isolation, Fine, Fine, Fine, committed);
    BeginStartsFine(c, isolation, committed);
    var begun := Begin(c, isolation, Fine, Fine, Fine, committed).0;
    assert begun.committed == committed;
    WorkInTransaction(begun.conn, ws, committed);
  }

  lemma BeginStartsFine(c: Conn, isolation: bool, committed: set<Piece>)
    requires Attached(c) && c.open && !Hidden(c)
    ensures var (o, r) := Begin(c, isolation, Fine, Fine, Fine, committed);
            && r == Started && o.conn.open && !o.conn.dirty && o.conn.session == Session(true, {})
            && o.conn.guards == c.guards + 1
  {
  }

  /** Finishing a guard never marks the connection, whatever becomes of its statement; dropping one always does. */
  lemma GuardEnds(c: Conn, stmt: Stmt, reply: Reply, committed: set<Piece>)
    requires c.guards > 0
    ensures var o := FinishGuard(c, stmt, reply, committed);
            o.conn.dirty == c.dirty && o.conn.guards == c.guards - 1
    ensures var d := DropGuard(c);
            d.dirty && d.guards == c.guards - 1 && d.session == c.session && d.inTrans == c.inTrans && d.open == c.open
  {
  }

  // ---------------------------------------------------------------- the objects

  /** The database all sessions commit to. */
  class Database {
    var committed: set<Piece>
    constructor ()
      ensures committed == {}
    {
      committed := {};
    }
  }

  class Connection {
    const db: Database
    const id: nat
    const autocommit: bool
    var open: bool
    var transactionDirty: bool
    var inTransaction: bool
    var session: Session
    ghost var guards: nat

    ghost function Snapshot(): Conn
      reads this
    {
      Conn(id, open, transactionDirty, inTransaction, guards, autocommit, session, 0, 0)
    }

    ghost predicate Is(o: Outcome)
      reads this, db
    {
      Snapshot() == o.conn && db.committed == o.committed
    }

    constructor (db: Database, id: nat, autocommit: bool)
      ensures this.db == db && Snapshot() == Conn(id, true, false, false, 0, autocommit, ENDED, 0, 0)
    {
      this.db, this.id, this.autocommit := db, id, autocommit;
      open, transactionDirty, inTransaction, session, guards := true, false, false, ENDED, 0;
    }

    /** Sends a statement and takes over the status the server reports. */
    method QueryStatement(stmt: Stmt, reply: Reply) returns (ok: bool)
      modifies this, db
      ensures Is(Query(old(Snapshot()), stmt, reply, old(db.committed)))
      ensures ok == Query(old(Snapshot()), stmt, reply, old(db.committed)).ok
    {
      if !open {
        return false;
      }
      var s, done := session, db.committed;
      if Executed(stmt, reply) {
        var (executed, all) := Execute(session, autocommit, stmt, db.committed);
        s, done := executed, all;
      }
      match reply {
        case Fine => session, inTransaction, db.committed := s, s.inTxn, done; ok := true;
        case Refused => ok := false;
        case RefusedAndRolledBack => session := ENDED; ok := false;
        case LostBefore => open, session := false, ENDED; ok := false;
        case LostAfter => open, session, db.committed := false, ENDED, done; ok := false;
        case Unread => session, db.committed := s, done; ok := false;
        case Misread(_, inTrans) => session, inTransaction, db.committed := s, inTrans, done; ok := true;
      }
    }

    method RollbackDirtyTransaction(reply: Reply) returns (ok: bool)
      modifies this, db
      ensures Is(RollbackDirty(old(Snapshot()), reply, old(db.committed)))
      ensures ok == RollbackDirty(old(Snapshot()), reply, old(db.committed)).ok
    {
      if transactionDirty || inTransaction {
        ok := QueryStatement(Rollback, reply);
        if ok {
          transactionDirty := false;
        }
      } else {
        ok := true;
      }
    }

    method MarkTransactionDirty()
      modifies this
      ensures Snapshot() == old(Snapshot()).(dirty := true)
    {
      transactionDirty := true;
    }
  }

  class Transaction {
    const conn: Connection
    var finished: bool

    constructor (conn: Connection)
      modifies conn`guards
      ensures this.conn == conn && !finished
      ensures conn.Snapshot() == old(conn.Snapshot()).(guards := old(conn.guards) + 1)
    {
      this.conn, finished := conn, false;
      new;
      conn.guards := conn.guards + 1;
    }

    static method BeginWith(conn: Connection, isolation: bool, r1: Reply, r2: Reply, r3: Reply)
      returns (tx: Transaction?, r: BeginResult)
      modifies conn, conn.db
      ensures conn.Is(Begin(old(conn.Snapshot()), isolation, r1, r2, r3, old(conn.db.committed)).0)
      ensures r == Begin(old(conn.Snapshot()), isolation, r1, r2, r3, old(conn.db.committed)).1
      ensures r == Started <==> tx != null
      ensures tx != null ==> fresh(tx) && tx.conn == conn && !tx.finished
    {
      tx := null;
      var ok := conn.RollbackDirtyTransaction(r1);
      if !ok {
        return null, Failed;
      }
      if conn.inTransaction {
        return null, AlreadyInTransaction;
      }
      tx, r := StartOn(conn, isolation, r2, r3);
    }

    /** The second half: the isolation level, and the transaction itself. */
    static method StartOn(conn: Connection, isolation: bool, r2: Reply, r3: Reply)
      returns (tx: Transaction?, r: BeginResult)
      modifies conn, conn.db
      ensures conn.Is(StartGuard(old(conn.Snapshot()), isolation, r2, r3, old(conn.db.committed)).0)
      ensures r == StartGuard(old(conn.Snapshot()), isolation, r2, r3, old(conn.db.committed)).1
      ensures r == Started <==> tx != null
      ensures tx != null ==> fresh(tx) && tx.conn == conn && !tx.finished
    {
      if isolation {
        var ok := conn.QueryStatement(Neutral, r2);
        if !ok {
          return null, Failed;
        }
      }
      var ok := conn.QueryStatement(StartTransaction, r3);
      if !ok {
        return null, Failed;
      }
      tx := new Transaction(conn);
      r := Started;
    }

    /** COMMIT or ROLLBACK. */
    method Finish(stmt: Stmt, reply: Reply) returns (ok: bool)
      requires conn.guards > 0 && !finished
      modifies this, conn, conn.db
      ensures finished && conn.Is(FinishGuard(old(conn.Snapshot()), stmt, reply, old(conn.db.committed)))
      ensures ok == FinishGuard(old(conn.Snapshot()), stmt, reply, old(conn.db.committed)).ok
    {
      finished := true;
      conn.guards := conn.guards - 1;
      ok := conn.QueryStatement(stmt, reply);
    }

    /** What going out of scope does to an unfinished guard. */
    method Drop()
      requires !finished ==> conn.guards > 0
      modifies conn
      ensures !finished ==> conn.Snapshot() == DropGuard(old(conn.Snapshot()))
      ensures finished ==> conn.Snapshot() == old(conn.Snapshot())
    {
      if !finished {
        conn.guards := conn.guards - 1;
        conn.MarkTransactionDirty();
      }
    }
  }
}
