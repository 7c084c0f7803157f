/** What becomes of abandoned work, and of transactions on idle connections, over every run of the pool. */
module PoolPromises {
  import opened Bytes
  import opened Transactions
  import opened Pool
  import opened PoolRuns

  // ---------------------------------------------------------------- single steps

  /** The work that is committed after a step. */
  function CommittedAfter(w: World, e: Event): set<Piece>
    requires Enabled(w, e)
  {
    match e
    case Manage(now, s, _, _) => if w.inbox[0].Acquire? && Opens(w, now) then w.committed + s.done else w.committed
    case _ => if Sends(e) then ServerOutcome(e, w.committed).committed else w.committed
  }

  /** The work that has been abandoned after a step. */
  function DoomedAfter(w: World, e: Event): set<Piece> {
    if e.AbandonGuard? then w.doomed + e.conn.session.pending else w.doomed
  }

  lemma ManageWork(w: World, now: nat, s: Setup, reply: Reply, waiting: bool)
    requires w.inbox != []
    ensures var w' := ManageStep(w, now, s, reply, waiting);
            && w'.doomed == w.doomed
            && w'.committed == if w.inbox[0].Acquire? && Opens(w, now) then w.committed + s.done else w.committed
  {
  }

  predicate WorkIs(w: World, e: Event)
    requires Enabled(w, e)
  {
    Effect(w, e).committed == CommittedAfter(w, e) && Effect(w, e).doomed == DoomedAfter(w, e)
  }

  lemma SendWork(w: World, e: Event)
    requires Enabled(w, e) && Sends(e)
    ensures WorkIs(w, e)
  {
  }

  /** The steps that only move connections. */
  predicate Moves(e: Event) { !e.Manage? && !e.AbandonGuard? && !Sends(e) }

  lemma ReplyWork(w: World, c: Conn, now: nat)
    requires c in w.replies
    ensures WorkIs(w, TakeReply(c, now)) && WorkIs(w, LoseReply(c))
  {
  }

  lemma BackWork(w: World, c: Conn)
    requires c in w.held && c.guards == 0
    ensures WorkIs(w, GiveBack(c)) && WorkIs(w, Discard(c))
  {
  }

  lemma MoveWork(w: World, e: Event)
    requires Enabled(w, e) && Moves(e)
    ensures WorkIs(w, e)
  {
    match e
    case Ask(_) =>
    case Sweep(_) =>
    case TakeReply(c, now) => ReplyWork(w, c, now);
    case LoseReply(c) => ReplyWork(w, c, 0);
    case GiveBack(c) => BackWork(w, c);
    case Discard(c) => BackWork(w, c);
  }

  lemma EffectWork(w: World, e: Event)
    requires Enabled(w, e)
    ensures WorkIs(w, e)
  {
    if Sends(e) {
      SendWork(w, e);
    } else if Moves(e) {
      MoveWork(w, e);
    } else if e.Manage? {
      ManageWork(w, e.now, e.setup, e.reply, e.waiting);
    }
  }

  lemma StepWork(w: World, e: Event)
    requires Enabled(w, e)
    ensures Step(w, e).committed == CommittedAfter(w, e) && Step(w, e).doomed == DoomedAfter(w, e)
  {
    EffectWork(Noted(w, e), e);
    assert CommittedAfter(Noted(w, e), e) == CommittedAfter(w, e);
  }

  lemma QueryGrows(c: Conn, stmt: Stmt, reply: Reply, committed: set<Piece>)
    ensures committed <= Query(c, stmt, reply, committed).committed
  {
  }

  /** Committed and abandoned work only grows. */
  predicate Grows(w: World, w': World) { w.committed <= w'.committed && w.doomed <= w'.doomed }

  lemma CommittedGrows(w: World, e: Event)
    requires Safe(w) && Enabled(w, e)
    ensures w.committed <= CommittedAfter(w, e) && w.doomed <= DoomedAfter(w, e)
  {
    match e
    case Statement(c, stmt, reply) => QueryGrows(c, stmt, reply, w.committed);
    case FinishGuardWith(c, commit, reply) =>
      QueryGrows(c.(guards := c.guards - 1), if commit then Commit else Rollback, reply, w.committed);
    case BeginGuard(c, isolation, r1, r2, r3) =>
      HeldIsGood(w, c);
      BeginCommitsExactly(c, isolation, r1, r2, r3, w.committed);
    case _ =>
  }

  lemma StepGrows(w: World, e: Event)
    requires Safe(w) && Enabled(w, e)
    ensures Grows(w, Step(w, e))
  {
    StepWork(w, e);
    CommittedGrows(w, e);
  }

  /** A client's committing statement is executed while abandoned work is pending on its connection. */
  predicate CommitsAbandonedWork(w: World, e: Event) {
    match e
    case Statement(c, stmt, reply) => Commits(stmt) && Executed(stmt, reply) && !(c.session.pending !! w.doomed)
    case FinishGuardWith(c, commit, reply) => commit && Executed(Commit, reply) && !(c.session.pending !! w.doomed)
    case _ => false
  }

  predicate BreaksFor(k: nat, w: World, e: Event) { CommitsAbandonedWork(w, e) && e.conn.id == k }

  /** Work that connection `k` abandoned is not committed. */
  predicate PromiseFor(k: nat, w: World) {
    forall x :: x in w.doomed && x.conn == k ==> x !in w.committed
  }

  /** Whatever commits an old piece of work is a committing statement on the piece's own connection. */
  lemma QueryCommits(w: World, c: Conn, k: Conn, stmt: Stmt, reply: Reply, x: Piece)
    requires GoodConn(c, w) && WorkNumbered(w) && k == c.(guards := k.guards)
    requires stmt.Work? ==> stmt.piece == Piece(c.id, w.nextWork)
    requires x in w.doomed && x !in w.committed
    ensures x in Query(k, stmt, reply, w.committed).committed ==>
              x in c.session.pending && Commits(stmt) && Executed(stmt, reply)
  {
    QueryKeepsWork(k, stmt, reply, w.committed);
  }

  lemma BeginCommitsNoDoomed(w: World, c: Conn, isolation: bool, r1: Reply, r2: Reply, r3: Reply)
    requires GoodConn(c, w)
    ensures forall x :: x in Begin(c, isolation, r1, r2, r3, w.committed).0.committed && x in w.doomed ==>
                          x in w.committed
  {
    BeginCommitsExactly(c, isolation, r1, r2, r3, w.committed);
  }

  lemma StatementCommits(w: World, c: Conn, stmt: Stmt, reply: Reply, x: Piece)
    requires Safe(w) && Enabled(w, Statement(c, stmt, reply)) && x !in w.committed && x in w.doomed
    ensures x in Query(c, stmt, reply, w.committed).committed ==> BreaksFor(x.conn, w, Statement(c, stmt, reply))
  {
    HeldIsGood(w, c);
    QueryCommits(w, c, c, stmt, reply, x);
  }

  lemma FinishCommits(w: World, c: Conn, commit: bool, reply: Reply, x: Piece)
    requires Safe(w) && Enabled(w, FinishGuardWith(c, commit, reply)) && x !in w.committed && x in w.doomed
    ensures x in FinishGuard(c, if commit then Commit else Rollback, reply, w.committed).committed ==>
              BreaksFor(x.conn, w, FinishGuardWith(c, commit, reply))
  {
    HeldIsGood(w, c);
    QueryCommits(w, c, c.(guards := c.guards - 1), if commit then Commit else Rollback, reply, x);
  }

  lemma NewlyCommitted(w: World, e: Event, x: Piece)
    requires Safe(w) && Enabled(w, e) && x !in w.committed && x in w.doomed
    ensures x in CommittedAfter(w, e) ==> BreaksFor(x.conn, w, e)
  {
    match e
    case Statement(c, stmt, reply) => StatementCommits(w, c, stmt, reply, x);
    case FinishGuardWith(c, commit, reply) => FinishCommits(w, c, commit, reply, x);
    case BeginGuard(c, isolation, r1, r2, r3) =>
      HeldIsGood(w, c);
      BeginCommitsNoDoomed(w, c, isolation, r1, r2, r3);
    case _ =>
  }

  lemma QueryCommitsAll(c: Conn, stmt: Stmt, reply: Reply, committed: set<Piece>)
    requires Attached(c) && Commits(stmt) && Executed(stmt, reply)
    ensures c.session.pending <= Query(c, stmt, reply, committed).committed
  {
  }

  lemma BreakingCommits(w: World, e: Event)
    requires Safe(w) && Enabled(w, e) && CommitsAbandonedWork(w, e)
    ensures e.conn.session.pending <= CommittedAfter(w, e)
  {
    HeldIsGood(w, e.conn);
    match e
    case Statement(c, stmt, reply) => QueryCommitsAll(c, stmt, reply, w.committed);
    case FinishGuardWith(c, _, reply) => QueryCommitsAll(c.(guards := c.guards - 1), Commit, reply, w.committed);
  }

  lemma BrokenPromise(w: World, e: Event)
    requires Safe(w) && Enabled(w, e) && CommitsAbandonedWork(w, e)
    ensures !PromiseFor(e.conn.id, Step(w, e))
  {
    StepWork(w, e);
    BreakingCommits(w, e);
    HeldIsGood(w, e.conn);
    var x :| x in e.conn.session.pending && x in w.doomed;
    assert x in Step(w, e).doomed && x in Step(w, e).committed;
  }

  lemma PieceStaysSafe(k: nat, w: World, e: Event, x: Piece)
    requires Safe(w) && Enabled(w, e) && PromiseFor(k, w) && !BreaksFor(k, w, e)
    requires x in DoomedAfter(w, e) && x.conn == k
    ensures x !in CommittedAfter(w, e)
  {
    if x !in w.doomed {
      HeldIsGood(w, e.conn);
    } else {
      NewlyCommitted(w, e, x);
    }
  }

  lemma PromiseStep(k: nat, w: World, e: Event)
    requires Safe(w) && Enabled(w, e)
    ensures PromiseFor(k, Step(w, e)) <==> PromiseFor(k, w) && !BreaksFor(k, w, e)
  {
    StepWork(w, e);
    CommittedGrows(w, e);
    if BreaksFor(k, w, e) {
      BrokenPromise(w, e);
    } else if PromiseFor(k, w) {
      forall x | x in DoomedAfter(w, e) && x.conn == k ensures x !in CommittedAfter(w, e) {
        PieceStaysSafe(k, w, e, x);
      }
    }
  }

  // ---------------------------------------------------------------- abandoned work over runs

  /**
    * Over every run, exactly when a connection's abandoned work has stayed uncommitted: no committing statement was
    * executed on that connection while abandoned work was pending there, whatever happened on the others.
    */
  lemma PromiseExactly(k: nat, ws: seq<World>, es: seq<Event>, n: nat)
    requires IsRun(ws, es) && n < |ws|
    ensures PromiseFor(k, ws[n]) <==> forall i :: 0 <= i < n ==> !BreaksFor(k, ws[i], es[i])
  {
    var good := (i: nat) => i < |ws| && PromiseFor(k, ws[i]);
    var breaks := (i: nat) => i < |es| && BreaksFor(k, ws[i], es[i]);
    forall i | 0 <= i < n ensures good(i + 1) <==> good(i) && !breaks(i) {
      RunIsSafe(ws, es, i);
      PromiseStep(k, ws[i], es[i]);
    }
    assert good(0);
    BrokenForGood(good, breaks, n);
    assert good(n) == PromiseFor(k, ws[n]);
    assert forall i :: 0 <= i < n ==> breaks(i) == BreaksFor(k, ws[i], es[i]);
  }

  /** Something that holds at the start, and that no step repairs, holds if and only if no step has broken it. */
  lemma {:induction false} BrokenForGood(good: nat -> bool, breaks: nat -> bool, n: nat)
    requires good(0) && forall i :: 0 <= i < n ==> (good(i + 1) <==> good(i) && !breaks(i))
    ensures good(n) <==> forall i :: 0 <= i < n ==> !breaks(i)
  {
    if n > 0 {
      BrokenForGood(good, breaks, n - 1);
      assert good(n - 1 + 1) <==> good(n - 1) && !breaks(n - 1);
    }
  }

  /** The same for all connections together. */
  lemma AbandonedExactly(ws: seq<World>, es: seq<Event>, n: nat)
    requires IsRun(ws, es) && n < |ws|
    ensures ws[n].committed !! ws[n].doomed <==> forall i :: 0 <= i < n ==> !CommitsAbandonedWork(ws[i], es[i])
  {
    if ws[n].committed !! ws[n].doomed {
      forall i | 0 <= i < n ensures !CommitsAbandonedWork(ws[i], es[i]) {
        if CommitsAbandonedWork(ws[i], es[i]) {
          PromiseExactly(es[i].conn.id, ws, es, n);
          assert BreaksFor(es[i].conn.id, ws[i], es[i]);
        }
      }
    } else {
      var x :| x in ws[n].committed && x in ws[n].doomed;
      PromiseExactly(x.conn, ws, es, n);
    }
  }

  /** A commit is sent only while the connection is not marked: not directly, and not by an outer guard. */
  predicate Careful(e: Event) {
    match e
    case Statement(c, stmt, _) => Commits(stmt) ==> !c.dirty
    case FinishGuardWith(c, commit, _) => commit ==> !c.dirty
    case _ => true
  }

  predicate OnConnection(k: nat, e: Event) { (e.Statement? || e.FinishGuardWith?) && e.conn.id == k }

  lemma CarefulKeepsPromise(k: nat, w: World, e: Event)
    requires Safe(w) && Enabled(w, e) && (OnConnection(k, e) ==> Careful(e))
    ensures !BreaksFor(k, w, e)
  {
    if BreaksFor(k, w, e) {
      HeldIsGood(w, e.conn);
    }
  }

  lemma {:induction false} WorldGrows(ws: seq<World>, m: nat, n: nat)
    requires m <= n < |ws|
    requires forall i :: m <= i < n ==> Grows(ws[i], ws[i + 1])
    ensures Grows(ws[m], ws[n])
    decreases n
  {
    if m < n {
      WorldGrows(ws, m, n - 1);
      assert Grows(ws[n - 1], ws[n - 1 + 1]);
    }
  }

  lemma RunGrows(ws: seq<World>, es: seq<Event>, m: nat, n: nat)
    requires IsRun(ws, es) && m <= n < |ws|
    ensures Grows(ws[m], ws[n])
  {
    forall i | m <= i < n ensures Grows(ws[i], ws[i + 1]) {
      RunIsSafe(ws, es, i);
      StepGrows(ws[i], es[i]);
    }
    WorldGrows(ws, m, n);
  }

  /**
    * Abandoned transactions stay abandoned: if commits on connection `k` are sent only while it is not marked, work
    * pending there when a guard was dropped is not committed then or at any later point of the run, whoever uses the
    * connection next, whatever becomes of the replies, and whatever happens on other connections.
    */
  lemma AbandonedStaysAbandoned(k: nat, ws: seq<World>, es: seq<Event>, m: nat, n: nat)
    requires IsRun(ws, es) && n < |ws| && (forall i :: 0 <= i < |es| ==> OnConnection(k, es[i]) ==> Careful(es[i]))
    requires m < |es| && es[m].AbandonGuard? && es[m].conn.id == k
    ensures es[m].conn.session.pending !! ws[n].committed
  {
    var last := if n <= m then m + 1 else n;
    forall i | 0 <= i < last ensures !BreaksFor(k, ws[i], es[i]) {
      RunIsSafe(ws, es, i);
      CarefulKeepsPromise(k, ws[i], es[i]);
    }
    PromiseExactly(k, ws, es, last);
    RunGrows(ws, es, n, last);
    RunGrows(ws, es, m + 1, last);
    RunIsSafe(ws, es, m);
    HeldIsGood(ws[m], es[m].conn);
    assert es[m].conn.session.pending <= ws[m + 1].doomed;
  }

  /** The condition is needed: an outer guard commits what an inner guard abandoned. */
  lemma OuterGuardCommitsAbandonedWork(c: Conn, piece: Piece)
    requires c == Conn(0, true, false, false, 0, false, ENDED, 0, 0)
    ensures var outer := Begin(c, false, Fine, Fine, Fine, {}).0.conn;
            var inner := Begin(outer, false, Fine, Fine, Fine, {}).0.conn;
            var working := Query(inner, Work(piece), Fine, {}).conn;
            var abandoned := DropGuard(working);
            abandoned.dirty && abandoned.guards == 1
            && FinishGuard(abandoned, Commit, Fine, {}).committed == {piece}
  {
  }

  // ---------------------------------------------------------------- idle connections over runs

  /** A connection goes back to the idle list with a transaction nobody on the client's side knows of. */
  predicate KeepsHidden(w: World, e: Event) {
    && e.Manage? && w.inbox != [] && w.inbox[0].Return? && Hidden(w.inbox[0].conn)
    && Returned(w.inbox[0].conn, w.cfg, e.now, e.reply, w.committed).Some?
  }

  predicate IdleEnded(w: World) { forall i :: 0 <= i < |w.idle| ==> w.idle[i].session == ENDED }

  /** A returned connection that is kept has no transaction on the server if and only if none was hidden. */
  lemma KeptExactly(c: Conn, cfg: Config, now: nat, reply: Reply, committed: set<Piece>)
    requires Attached(c)
    ensures var kept := Returned(c, cfg, now, reply, committed);
            kept.Some? ==> (kept.value.session == ENDED <==> !Hidden(c))
  {
    RollbackDirtyClears(c, reply, committed);
  }

  lemma AddedEnds(w: World, kept: Option<Conn>)
    requires w.inbox != [] && IdleEnded(w)
    ensures IdleEnded(AfterReturn(w, kept)) <==> kept.None? || kept.value.session == ENDED
  {
    if kept.Some? {
      assert AfterReturn(w, kept).idle[|w.idle|] == kept.value;
    }
  }

  lemma ReturnStep(w: World, now: nat, s: Setup, reply: Reply, waiting: bool)
    requires Safe(w) && w.inbox != [] && w.inbox[0].Return? && IdleEnded(w)
    ensures var kept := Returned(w.inbox[0].conn, w.cfg, now, reply, w.committed);
            IdleEnded(ManageStep(w, now, s, reply, waiting)) <==> !(Hidden(w.inbox[0].conn) && kept.Some?)
  {
    var c := w.inbox[0].conn;
    ReturnIsCounted(w);
    KeptExactly(c, w.cfg, now, reply, w.committed);
    AddedEnds(w, Returned(c, w.cfg, now, reply, w.committed));
  }

  lemma SweepEnds(w: World, now: nat)
    requires IdleEnded(w)
    ensures IdleEnded(w.(idle := Retained(w.idle, w.cfg, now)))
  {
    RetainedParts(w.idle, w.cfg, now);
    var kept := Retained(w.idle, w.cfg, now);
    forall i | 0 <= i < |kept| ensures kept[i].session == ENDED {
      assert kept[i] in w.idle;
    }
  }

  lemma AcquireEnds(w: World, now: nat, s: Setup, reply: Reply, waiting: bool)
    requires w.inbox != [] && w.inbox[0] == Acquire && IdleEnded(w)
    ensures IdleEnded(ManageStep(w, now, s, reply, waiting))
  {
    AcquireMeans(w, now, s, reply, waiting);
    NewestHealthy(w.idle, w.cfg, now);
  }

  lemma ManageIdle(w: World, now: nat, s: Setup, reply: Reply, waiting: bool)
    requires Safe(w) && w.inbox != [] && IdleEnded(w)
    ensures IdleEnded(ManageStep(w, now, s, reply, waiting)) <==> !KeepsHidden(w, Manage(now, s, reply, waiting))
  {
    match w.inbox[0]
    case Acquire => AcquireEnds(w, now, s, reply, waiting);
    case Return(_) => ReturnStep(w, now, s, reply, waiting);
    case Close =>
  }

  lemma IdleUntouched(w: World, e: Event)
    requires Enabled(w, e) && !e.Manage? && !e.Sweep?
    ensures Effect(w, e).idle == w.idle
  {
  }

  lemma IdleStep(w: World, e: Event)
    requires Safe(w) && Enabled(w, e) && IdleEnded(w)
    ensures IdleEnded(Step(w, e)) <==> !KeepsHidden(w, e)
  {
    if e.Manage? {
      NotedIsSafe(w, e);
      ManageIdle(Noted(w, e), e.now, e.setup, e.reply, e.waiting);
    } else if e.Sweep? {
      SweepEnds(Noted(w, e), e.now);
    } else {
      IdleUntouched(Noted(w, e), e);
    }
  }

  /** Something that holds from the start holds as long as no step breaks it. */
  lemma {:induction false} HoldsUntilBroken(good: nat -> bool, breaks: nat -> bool, n: nat)
    requires forall i :: 0 <= i < n && good(i) ==> (good(i + 1) <==> !breaks(i))
    ensures (forall m :: 0 <= m <= n ==> good(m)) <==> good(0) && forall i :: 0 <= i < n ==> !breaks(i)
  {
    if n > 0 {
      HoldsUntilBroken(good, breaks, n - 1);
      assert good(n - 1) ==> (good(n - 1 + 1) <==> !breaks(n - 1));
    }
  }

  /**
    * Over every run, exactly when no idle connection ever has a transaction on the server: none had one at the start,
    * and none was given back with a transaction the client did not know of.
    */
  lemma IdleExactly(ws: seq<World>, es: seq<Event>, n: nat)
    requires IsRun(ws, es) && n < |ws|
    ensures (forall m :: 0 <= m <= n ==> IdleEnded(ws[m]))
            <==> IdleEnded(ws[0]) && forall i :: 0 <= i < n ==> !KeepsHidden(ws[i], es[i])
  {
    var good := (i: nat) => i < |ws| && IdleEnded(ws[i]);
    var breaks := (i: nat) => i < |es| && KeepsHidden(ws[i], es[i]);
    forall i | 0 <= i < n && good(i) ensures good(i + 1) <==> !breaks(i) {
      RunIsSafe(ws, es, i);
      IdleStep(ws[i], es[i]);
    }
    HoldsUntilBroken(good, breaks, n);
    assert forall m :: 0 <= m <= n ==> good(m) == IdleEnded(ws[m]);
    assert forall i :: 0 <= i < n ==> breaks(i) == KeepsHidden(ws[i], es[i]);
  }

  /** In every run, no idle connection is marked. */
  lemma IdleConnectionsAreUnmarked(ws: seq<World>, es: seq<Event>, n: nat, c: Conn)
    requires IsRun(ws, es) && n < |ws| && c in ws[n].idle
    ensures !c.dirty
  {
    RunIsSafe(ws, es, n);
  }

  lemma TrustedStep(w: World, e: Event)
    requires Enabled(w, e)
    ensures Step(w, e).trusted <==> w.trusted && Told(e)
  {
  }

  /**
    * If the pool starts clean and clients learn the outcome of every statement, every idle connection has a clear
    * flag and no transaction on either side.
    */
  lemma IdleConnectionsAreClean(ws: seq<World>, es: seq<Event>, n: nat, c: Conn)
    requires IsRun(ws, es) && n < |ws| && c in ws[n].idle
    requires ws[0].trusted && forall i :: 0 <= i < n ==> Told(es[i])
    ensures Clean(c)
  {
    var good := (i: nat) => i < |ws| && ws[i].trusted;
    var breaks := (i: nat) => i < |es| && !Told(es[i]);
    forall i | 0 <= i < n && good(i) ensures good(i + 1) <==> !breaks(i) {
      TrustedStep(ws[i], es[i]);
    }
    HoldsUntilBroken(good, breaks, n);
    assert good(n);
    RunIsSafe(ws, es, n);
  }

  /**
    * The condition is needed: work whose reply was rejected is hidden, its connection goes idle without a ROLLBACK,
    * and the next client's transaction commits it.
    */
  lemma UnreadReplyIsCommittedLater(cfg: Config, now: nat, reply: Reply, piece: Piece)
    requires cfg.maxLifetime > 0
    ensures var c := Conn(0, true, false, false, 0, false, ENDED, now, now);
            var worked := Query(c, Work(piece), Unread, {}).conn;
            && Hidden(worked) && Returned(worked, cfg, now, reply, {}) == Some(worked)
            && Begin(worked, false, reply, Fine, Fine, {}).0.committed == {piece}
  {
  }
}
