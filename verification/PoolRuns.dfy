/**
  * Every interleaving of clients, the pool manager and the server: where connections are, how many there are, and
  * what is known about their transactions.
  */
module PoolRuns {
  import opened Bytes
  import opened Transactions
  import opened Pool

  datatype Request = Acquire | Return(conn: Conn) | Close

  /**
    * `idle` and `active` belong to the manager; `inbox` is its request channel; `replies` are connections on
    * their way to a client; `held` are lent out. The rest is bookkeeping: `doomed` is the work that was pending when
    * a guard was dropped, and `trusted` says that every client was told the outcome of every statement so far.
    */
  datatype World = World(
    cfg: Config,
    running: bool,
    idle: seq<Conn>,
    active: nat,
    inbox: seq<Request>,
    replies: multiset<Conn>,
    held: multiset<Conn>,
    nextId: nat,
    committed: set<Piece>,
    doomed: set<Piece>,
    nextWork: nat,
    trusted: bool)

  function InboxConns(inbox: seq<Request>): multiset<Conn> {
    if inbox == [] then multiset{} else FromRequest(inbox[0]) + InboxConns(inbox[1..])
  }

  function FromRequest(r: Request): multiset<Conn> { if r.Return? then multiset{r.conn} else multiset{} }

  /** Every connection somebody owns. */
  function Everywhere(w: World): multiset<Conn> {
    multiset(w.idle) + InboxConns(w.inbox) + w.replies + w.held
  }

  function Outside(w: World): nat { |InboxConns(w.inbox)| + |w.replies| + |w.held| }

  // ---------------------------------------------------------------- the invariant

  /** Pending work is the connection's own and not committed; abandoned work is pending only under the flag. */
  predicate GoodConn(c: Conn, w: World) {
    && Attached(c) && c.id < w.nextId
    && (forall x :: x in c.session.pending ==> x.conn == c.id && x.number < w.nextWork && x !in w.committed)
    && (!c.dirty ==> c.session.pending !! w.doomed)
    && (w.trusted ==> UpToDate(c))
  }

  ghost predicate Placed(ms: multiset<Conn>, w: World) {
    && (forall c :: c in ms ==> ms[c] == 1 && GoodConn(c, w))
    && (forall c, d :: c in ms && d in ms && c != d ==> c.id != d.id)
  }

  predicate WorkNumbered(w: World) {
    && (forall x :: x in w.committed ==> x.number < w.nextWork)
    && (forall x :: x in w.doomed ==> x.number < w.nextWork)
  }

  predicate Counted(w: World) {
    |w.idle| + w.active <= w.cfg.maxSize && Outside(w) <= w.active
  }

  predicate GoodIdle(c: Conn, w: World) { !c.dirty && (w.trusted ==> Clean(c)) }

  predicate IdleUnmarked(w: World) {
    forall i :: 0 <= i < |w.idle| ==> GoodIdle(w.idle[i], w)
  }

  ghost predicate Safe(w: World) {
    Counted(w) && Placed(Everywhere(w), w) && IdleUnmarked(w) && WorkNumbered(w)
  }

  // ---------------------------------------------------------------- steps

  /**
    * What opening a connection comes to. Its setup statements (the init command, the autocommit setting) may leave a
    * transaction on the server, with or without the client being told, and may commit work of their own, whether or
    * not the connection can be used in the end.
    */
  datatype Setup = Setup(connects: bool, autocommit: bool, left: Session, inTrans: bool, done: set<Piece>, pieces: nat)

  predicate ValidSetup(s: Setup, w: World) {
    && (s.left.pending != {} ==> s.left.inTxn) && s.left.pending !! s.done
    && (forall x :: x in s.left.pending + s.done ==>
          x.conn == w.nextId && w.nextWork <= x.number < w.nextWork + s.pieces)
  }

  datatype Event =
    | Ask(request: Request)                                // a client asks for a connection or closes the pool
    | Manage(now: nat, setup: Setup, reply: Reply, waiting: bool) // the manager takes one request
    | Sweep(now: nat)                                      // the manager evicts expired idle connections
    | TakeReply(conn: Conn, now: nat)                      // a client receives a connection
    | LoseReply(conn: Conn)                                // a client stops waiting; its connection is lost
    | GiveBack(conn: Conn)                                 // a client drops a connection
    | Discard(conn: Conn)                                  // a client discards a connection
    | Statement(conn: Conn, stmt: Stmt, reply: Reply)      // any statement, inside or outside a guard
    | BeginGuard(conn: Conn, isolation: bool, r1: Reply, r2: Reply, r3: Reply)
    | FinishGuardWith(conn: Conn, commit: bool, reply: Reply)
    | AbandonGuard(conn: Conn)

  predicate HasRoom(w: World) { w.running && |w.inbox| < 2 * w.cfg.maxSize }

  predicate Enabled(w: World, e: Event) {
    match e
    case Ask(r) => HasRoom(w) && !r.Return?
    case Manage(_, s, _, _) => w.running && w.inbox != [] && ValidSetup(s, w)
    case Sweep(_) => w.running
    case TakeReply(c, _) => c in w.replies
    case LoseReply(c) => c in w.replies
    case GiveBack(c) => c in w.held && c.guards == 0
    case Discard(c) => c in w.held && c.guards == 0
    case Statement(c, stmt, _) => c in w.held && (stmt.Work? ==> stmt.piece == Piece(c.id, w.nextWork))
    case BeginGuard(c, _, _, _, _) => c in w.held
    case FinishGuardWith(c, _, _) => c in w.held && c.guards > 0
    case AbandonGuard(c) => c in w.held && c.guards > 0
  }

  /** Does the client learn the outcome of everything this step does on the server? */
  predicate Told(e: Event) {
    match e
    case Manage(_, s, reply, _) => Understood(reply) && (s.left.inTxn ==> s.inTrans)
    case Statement(_, _, reply) => Understood(reply)
    case BeginGuard(_, _, r1, r2, r3) => Understood(r1) && Understood(r2) && Understood(r3)
    case FinishGuardWith(_, _, reply) => Understood(reply)
    case _ => true
  }

  function NewConn(w: World, s: Setup, now: nat): Conn {
    Conn(w.nextId, true, false, s.inTrans, 0, s.autocommit, s.left, now, now)
  }

  function AfterAcquire(w: World, idle: seq<Conn>, active: nat): World
    requires w.inbox != []
  {
    w.(inbox := w.inbox[1..], idle := idle, active := active)
  }

  function Answered(w: World, reply: Option<Conn>): World {
    match reply
    case Some(c) => w.(replies := w.replies + multiset{c})
    case None => w
  }

  function AfterSetup(w: World, s: Setup): World {
    w.(nextId := w.nextId + 1, committed := w.committed + s.done, nextWork := w.nextWork + s.pieces)
  }

  function AfterReturn(w: World, kept: Option<Conn>): World
    requires w.inbox != []
  {
    w.(inbox := w.inbox[1..], active := SaturatingDecrement(w.active),
       idle := w.idle + if kept.Some? then [kept.value] else [])
  }

  /** A new connection is opened when no idle one is healthy and the count allows it. */
  predicate Opens(w: World, now: nat) {
    PopHealthy(w.idle, w.cfg, now).1.None? && w.active < w.cfg.maxSize
  }

  /** The manager handles the first request; a reply nobody waits for is lost with its connection. */
  function ManageStep(w: World, now: nat, s: Setup, reply: Reply, waiting: bool): World
    requires w.inbox != []
  {
    match w.inbox[0]
    case Acquire =>
      var connected := if s.connects then Ok(NewConn(w, s, now)) else Err(OperationalError(CR_CONN_HOST_ERROR));
      var (idle, active, r) := HandleAcquire(w.idle, w.active, w.cfg, now, connected);
      var w' := AfterAcquire(w, idle, active);
      Answered(if Opens(w, now) then AfterSetup(w', s) else w', if r.Ok? && waiting then Some(r.value) else None)
    case Return(c) => AfterReturn(w, Returned(c, w.cfg, now, reply, w.committed))
    case Close => w.(running := false, idle := [], inbox := [])
  }

  function Swap(w: World, c: Conn, d: Conn): World { w.(held := w.held - multiset{c} + multiset{d}) }

  function Noted(w: World, e: Event): World { w.(trusted := w.trusted && Told(e)) }

  function Step(w: World, e: Event): World
    requires Enabled(w, e)
  {
    Effect(Noted(w, e), e)
  }

  function Effect(w: World, e: Event): World
    requires Enabled(w, e)
  {
    match e
    case Ask(r) => w.(inbox := w.inbox + [r])
    case Manage(now, s, reply, waiting) => ManageStep(w, now, s, reply, waiting)
    case Sweep(now) => w.(idle := Retained(w.idle, w.cfg, now))
    case TakeReply(c, now) => w.(replies := w.replies - multiset{c}, held := w.held + multiset{c.(createdAt := now)})
    case LoseReply(c) => w.(replies := w.replies - multiset{c})
    case GiveBack(c) =>
      var gone := w.(held := w.held - multiset{c});
      if c.open && HasRoom(w) then gone.(inbox := w.inbox + [Return(c)]) else gone
    case Discard(c) => w.(held := w.held - multiset{c})
    case AbandonGuard(c) =>
      Swap(w, c, DropGuard(c)).(doomed := w.doomed + c.session.pending)
    case _ => After(w, e.conn, ServerOutcome(e, w.committed), NewPieces(e))
  }

  /** The steps that send statements to the server. */
  predicate Sends(e: Event) { e.Statement? || e.BeginGuard? || (e.FinishGuardWith? && e.conn.guards > 0) }

  function ServerOutcome(e: Event, committed: set<Piece>): Outcome
    requires Sends(e)
  {
    match e
    case Statement(c, stmt, reply) => Query(c, stmt, reply, committed)
    case BeginGuard(c, isolation, r1, r2, r3) => Begin(c, isolation, r1, r2, r3, committed).0
    case FinishGuardWith(c, commit, reply) => FinishGuard(c, if commit then Commit else Rollback, reply, committed)
  }

  function NewPieces(e: Event): nat { if e.Statement? && e.stmt.Work? then 1 else 0 }

  function After(w: World, c: Conn, o: Outcome, pieces: nat): World {
    Swap(w, c, o.conn).(committed := o.committed, nextWork := w.nextWork + pieces)
  }

  /** Nothing a client or the manager can do is left out of the runs. */
  lemma WhoCanAct(w: World, c: Conn, now: nat, commit: bool, stmt: Stmt, r1: Reply, r2: Reply, r3: Reply, s: Setup)
    ensures c in w.held && (stmt.Work? ==> stmt.piece == Piece(c.id, w.nextWork)) ==> Enabled(w, Statement(c, stmt, r1))
    ensures c in w.held ==> Enabled(w, BeginGuard(c, commit, r1, r2, r3))
    ensures c in w.held && c.guards >= 1 ==> Enabled(w, FinishGuardWith(c, commit, r1)) && Enabled(w, AbandonGuard(c))
    ensures c in w.held && c.guards == 0 ==> Enabled(w, GiveBack(c)) && Enabled(w, Discard(c))
    ensures c in w.replies ==> Enabled(w, TakeReply(c, now)) && Enabled(w, LoseReply(c))
    ensures w.running ==> Enabled(w, Sweep(now))
    ensures w.running && w.inbox != [] && ValidSetup(s, w) ==> Enabled(w, Manage(now, s, r1, commit))
    ensures w.running && |w.inbox| < 2 * w.cfg.maxSize ==> Enabled(w, Ask(Acquire)) && Enabled(w, Ask(Close))
  {
  }

  /** What an acquire comes to: the first request is answered, if anybody still waits, with what the manager decides. */
  lemma AcquireServed(w: World, now: nat, s: Setup, reply: Reply, waiting: bool)
    requires Enabled(w, Manage(now, s, reply, waiting)) && w.inbox[0] == Acquire
    ensures var added := Conn(w.nextId, true, false, s.inTrans, 0, s.autocommit, s.left, now, now);
            var (idle, active, r) := HandleAcquire(w.idle, w.active, w.cfg, now,
                                                   if s.connects then Ok(added) else Err(OperationalError(2003)));
            var w' := Step(w, Manage(now, s, reply, waiting));
            && w'.inbox == w.inbox[1..] && w'.idle == idle && w'.active == active && w'.held == w.held && w'.running
            && w'.replies == (if r.Ok? && waiting then w.replies + multiset{r.value} else w.replies)
            && (w'.nextId == w.nextId + 1 <==>
                w.active < w.cfg.maxSize && forall i :: 0 <= i < |w.idle| ==> !Healthy(w.idle[i], w.cfg, now))
  {
    AcquireMeans(Noted(w, Manage(now, s, reply, waiting)), now, s, reply, waiting);
    NewestHealthy(w.idle, w.cfg, now);
  }

  /** What a return comes to: one less is counted, and the connection is idle if it is kept. */
  lemma ReturnServed(w: World, now: nat, s: Setup, reply: Reply, waiting: bool)
    requires Enabled(w, Manage(now, s, reply, waiting)) && w.inbox[0].Return?
    ensures var kept := Returned(w.inbox[0].conn, w.cfg, now, reply, w.committed);
            var w' := Step(w, Manage(now, s, reply, waiting));
            && w'.inbox == w.inbox[1..] && w'.replies == w.replies && w'.held == w.held && w'.running == w.running
            && w'.active == (if w.active == 0 then 0 else w.active - 1)
            && w'.idle == match kept case Some(d) => w.idle + [d] case None => w.idle
  {
  }

  /** A client's statements change its own connection and what is committed, and nothing else. */
  lemma SendsMean(w: World, e: Event)
    requires Enabled(w, e) && Sends(e)
    ensures var o := match e
                     case Statement(c, stmt, reply) => Query(c, stmt, reply, w.committed)
                     case BeginGuard(c, isolation, r1, r2, r3) => Begin(c, isolation, r1, r2, r3, w.committed).0
                     case FinishGuardWith(c, commit, reply) =>
                       Query(c.(guards := c.guards - 1), if commit then Commit else Rollback, reply, w.committed);
            var w' := Step(w, e);
            && w'.held == w.held - multiset{e.conn} + multiset{o.conn} && w'.committed == o.committed
            && w'.idle == w.idle && w'.inbox == w.inbox && w'.replies == w.replies && w'.active == w.active
            && w'.doomed == w.doomed
            && w'.nextWork == w.nextWork + (if e.Statement? && e.stmt.Work? then 1 else 0)
  {
  }

  /** Asking, sweeping and a lost answer. */
  lemma OthersMean(w: World, c: Conn, r: Request, now: nat)
    ensures Enabled(w, Ask(r)) ==> Step(w, Ask(r)) == w.(inbox := w.inbox + [r])
    ensures Enabled(w, Sweep(now)) ==> Step(w, Sweep(now)) == w.(idle := Retained(w.idle, w.cfg, now))
    ensures Enabled(w, LoseReply(c)) ==> Step(w, LoseReply(c)) == w.(replies := w.replies - multiset{c})
  {
  }

  /** An abandoned guard marks its connection, and the open work is to be rolled back. */
  lemma AbandonMeans(w: World, c: Conn)
    requires Enabled(w, AbandonGuard(c))
    ensures Step(w, AbandonGuard(c)) ==
            w.(held := w.held - multiset{c} + multiset{c.(guards := c.guards - 1, dirty := true)},
               doomed := w.doomed + c.session.pending)
  {
  }

  /** Giving a connection back puts it into the channel if and only if it is open and the channel takes it. */
  lemma GiveBackExactly(w: World, c: Conn)
    requires Enabled(w, GiveBack(c))
    ensures var w' := Step(w, GiveBack(c));
            && w'.held == w.held - multiset{c} && w'.replies == w.replies && w'.idle == w.idle && w'.active == w.active
            && w'.inbox == if c.open && w.running && |w.inbox| < 2 * w.cfg.maxSize then w.inbox + [Return(c)]
                           else w.inbox
  {
  }

  /** A client that receives a connection restarts its lifetime; discarding only forgets the connection. */
  lemma TakenAndDiscarded(w: World, c: Conn, now: nat)
    ensures c in w.replies ==>
              Step(w, TakeReply(c, now)) ==
              w.(replies := w.replies - multiset{c}, held := w.held + multiset{c.(createdAt := now)})
    ensures Enabled(w, Discard(c)) ==> Step(w, Discard(c)) == w.(held := w.held - multiset{c})
  {
  }

  /** Closing drops the idle connections and everything in the channel, and the manager takes nothing more. */
  lemma CloseExactly(w: World, now: nat, s: Setup, reply: Reply, waiting: bool)
    requires Enabled(w, Manage(now, s, reply, waiting)) && w.inbox[0] == Close
    ensures var w' := Step(w, Manage(now, s, reply, waiting));
            && w'.idle == [] && w'.inbox == [] && !w'.running
            && w'.active == w.active && w'.replies == w.replies && w'.held == w.held
    ensures forall e: Event :: e.Manage? || e.Sweep? || e.Ask? ==>
              !Enabled(Step(w, Manage(now, s, reply, waiting)), e)
  {
  }

  // ---------------------------------------------------------------- moving connections around

  /** From `w` to `w'` only work of connection `k` becomes committed or doomed. */
  ghost predicate OnlyOf(k: nat, w: World, w': World) {
    && w.nextId <= w'.nextId && w.nextWork <= w'.nextWork && (w'.trusted ==> w.trusted)
    && (forall x :: x in w'.committed ==> x in w.committed || x.conn == k)
    && (forall x :: x in w'.doomed ==> x in w.doomed || x.conn == k)
  }

  lemma StaysGood(c: Conn, k: nat, w: World, w': World)
    requires GoodConn(c, w) && c.id != k && OnlyOf(k, w, w')
    ensures GoodConn(c, w')
  {
  }

  /** The other connections are not affected by what one commits, because their work is their own. */
  lemma OthersPlaced(ms: multiset<Conn>, k: nat, w: World, w': World)
    requires Placed(ms, w) && OnlyOf(k, w, w')
    requires forall c :: c in ms ==> c.id != k
    ensures Placed(ms, w')
  {
    forall c | c in ms ensures GoodConn(c, w') {
      StaysGood(c, k, w, w');
    }
  }

  lemma OneMorePlaced(ms: multiset<Conn>, c: Conn, w: World)
    requires Placed(ms, w) && GoodConn(c, w)
    requires forall d :: d in ms ==> d.id != c.id
    ensures Placed(ms + multiset{c}, w)
  {
    var ms' := ms + multiset{c};
    assert c !in ms;
    forall d | d in ms' ensures ms'[d] == 1 && GoodConn(d, w) && (d != c ==> d in ms) {
      assert d in ms || d == c;
    }
  }

  lemma FewerPlaced(ms: multiset<Conn>, ms': multiset<Conn>, w: World)
    requires Placed(ms, w) && ms' <= ms
    ensures Placed(ms', w)
  {
    forall c | c in ms' ensures c in ms && ms'[c] == 1 {
    }
  }

  /** One connection changes. */
  lemma SwapPlaced(ms: multiset<Conn>, c: Conn, d: Conn, w: World, w': World)
    requires Placed(ms, w) && c in ms && d.id == c.id && GoodConn(d, w') && OnlyOf(c.id, w, w')
    ensures Placed(ms - multiset{c} + multiset{d}, w')
  {
    var rest := ms - multiset{c};
    FewerPlaced(ms, rest, w);
    forall e | e in rest ensures e.id != c.id {
      assert e in ms && ms[c] == 1 && e != c;
    }
    OthersPlaced(rest, c.id, w, w');
    OneMorePlaced(rest, d, w');
  }

  lemma Associative3(a: multiset<Conn>, b: multiset<Conn>, c: multiset<Conn>)
    ensures a + (b + c) == (a + b) + c
  {
  }

  lemma {:induction false} InboxLast(inbox: seq<Request>, r: Request)
    ensures InboxConns(inbox + [r]) == InboxConns(inbox) + FromRequest(r)
    decreases |inbox|
  {
    var longer := inbox + [r];
    if inbox == [] {
      assert longer[1..] == [] && longer[0] == r;
      assert InboxConns([]) == multiset{};
    } else {
      var rest := inbox[1..];
      InboxLast(rest, r);
      assert longer[1..] == rest + [r] && longer[0] == inbox[0];
      Associative3(FromRequest(inbox[0]), InboxConns(rest), FromRequest(r));
    }
  }

  lemma PrefixWithLast(idle: seq<Conn>, rest: seq<Conn>)
    requires |rest| < |idle| && idle[..|rest|] == rest
    ensures multiset(rest) + multiset{idle[|rest|]} <= multiset(idle)
  {
    assert idle == rest + [idle[|rest|]] + idle[|rest| + 1..];
  }

  lemma {:induction false} RetainedParts(idle: seq<Conn>, cfg: Config, now: nat)
    ensures multiset(Retained(idle, cfg, now)) <= multiset(idle) && |Retained(idle, cfg, now)| <= |idle|
    ensures forall c :: c in Retained(idle, cfg, now) ==> c in idle
  {
    if idle != [] {
      var front := idle[..|idle| - 1];
      RetainedParts(front, cfg, now);
      assert idle == front + [idle[|idle| - 1]];
    }
  }

  // ---------------------------------------------------------------- each step is safe

  predicate SameWork(w: World, w': World) {
    w'.committed == w.committed && w'.doomed == w.doomed && w'.nextWork == w.nextWork && w'.nextId == w.nextId
  }

  lemma StillPlaced(ms: multiset<Conn>, w: World, w': World)
    requires Placed(ms, w) && SameWork(w, w') && (w'.trusted ==> w.trusted)
    ensures Placed(ms, w')
  {
  }

  /** Connections move between places or disappear; the manager's view stays within its limits. */
  lemma Moved(w: World, w': World)
    requires Safe(w) && Everywhere(w') <= Everywhere(w) && Counted(w') && IdleUnmarked(w')
    requires SameWork(w, w') && (w'.trusted ==> w.trusted)
    ensures Safe(w')
  {
    FewerPlaced(Everywhere(w), Everywhere(w'), w);
    StillPlaced(Everywhere(w'), w, w');
  }

  lemma NotedIsSafe(w: World, e: Event)
    requires Safe(w)
    ensures Safe(Noted(w, e))
  {
    StillPlaced(Everywhere(w), w, Noted(w, e));
  }

  /** An acquire served from the idle list. */
  lemma AcquireIdle(w: World, rest: seq<Conn>, c: Conn, waiting: bool)
    requires Safe(w) && w.inbox != [] && w.inbox[0] == Acquire
    requires |rest| < |w.idle| && w.idle[..|rest|] == rest && w.idle[|rest|] == c
    ensures Safe(Answered(AfterAcquire(w, rest, w.active + 1), if waiting then Some(c) else None))
  {
    PrefixWithLast(w.idle, rest);
    AcquirePlaces(multiset(rest), multiset(w.idle), InboxConns(w.inbox[1..]), w.replies, w.held, c);
    Moved(w, Answered(AfterAcquire(w, rest, w.active + 1), if waiting then Some(c) else None));
  }

  lemma AcquirePlaces(rest: multiset<Conn>, idle: multiset<Conn>, inbox: multiset<Conn>, replies: multiset<Conn>,
                      held: multiset<Conn>, c: Conn)
    requires rest + multiset{c} <= idle
    ensures rest + inbox + (replies + multiset{c}) + held <= idle + (multiset{} + inbox) + replies + held
    ensures rest + inbox + replies + held <= idle + (multiset{} + inbox) + replies + held
  {
  }

  /** An acquire that takes nothing from the idle list. */
  lemma AcquireRefused(w: World, active: nat)
    requires Safe(w) && w.inbox != [] && w.inbox[0] == Acquire
    requires active == w.active || active == w.active + 1 <= w.cfg.maxSize
    ensures var w' := AfterAcquire(w, [], active); Safe(w') && Outside(w') <= w.active
  {
    Moved(w, AfterAcquire(w, [], active));
  }

  lemma NewIsGood(w: World, s: Setup, now: nat)
    requires WorkNumbered(w) && ValidSetup(s, w) && (w.trusted ==> s.left.inTxn ==> s.inTrans)
    ensures GoodConn(NewConn(w, s, now), AfterSetup(w, s)) && OnlyOf(w.nextId, w, AfterSetup(w, s))
    ensures WorkNumbered(AfterSetup(w, s))
  {
  }

  /** The setup of a new connection does not touch the others. */
  lemma SetupIsSafe(w: World, s: Setup, now: nat)
    requires Safe(w) && ValidSetup(s, w) && (w.trusted ==> s.left.inTxn ==> s.inTrans)
    ensures Safe(AfterSetup(w, s)) && GoodConn(NewConn(w, s, now), AfterSetup(w, s))
    ensures forall c :: c in Everywhere(AfterSetup(w, s)) ==> c.id < w.nextId
  {
    var w' := AfterSetup(w, s);
    NewIsGood(w, s, now);
    assert Everywhere(w') == Everywhere(w);
    OthersPlaced(Everywhere(w), w.nextId, w, w');
  }

  lemma AnsweredIsSafe(w: World, c: Conn)
    requires Safe(w) && Outside(w) < w.active && GoodConn(c, w)
    requires forall d :: d in Everywhere(w) ==> d.id != c.id
    ensures Safe(Answered(w, Some(c)))
  {
    OneMorePlaced(Everywhere(w), c, w);
    OneMoreOf(multiset(w.idle) + InboxConns(w.inbox), w.replies, w.held, c);
    StillPlaced(Everywhere(Answered(w, Some(c))), w, Answered(w, Some(c)));
  }

  lemma OneMoreOf(inside: multiset<Conn>, replies: multiset<Conn>, held: multiset<Conn>, c: Conn)
    ensures inside + (replies + multiset{c}) + held == inside + replies + held + multiset{c}
  {
  }

  /** Opening a connection, whether or not anybody gets it. */
  lemma AcquireNew(w: World, s: Setup, now: nat, got: bool)
    requires Safe(w) && w.inbox != [] && w.inbox[0] == Acquire && w.active < w.cfg.maxSize
    requires ValidSetup(s, w) && (w.trusted ==> s.left.inTxn ==> s.inTrans)
    ensures var w' := AfterSetup(AfterAcquire(w, [], w.active + 1), s);
            Safe(Answered(w', if got then Some(NewConn(w, s, now)) else None))
  {
    AcquireRefused(w, w.active + 1);
    OpenedIsSafe(AfterAcquire(w, [], w.active + 1), s, now, got);
  }

  lemma OpenedIsSafe(w: World, s: Setup, now: nat, got: bool)
    requires Safe(w) && Outside(w) < w.active
    requires ValidSetup(s, w) && (w.trusted ==> s.left.inTxn ==> s.inTrans)
    ensures Safe(Answered(AfterSetup(w, s), if got then Some(NewConn(w, s, now)) else None))
  {
    SetupIsSafe(w, s, now);
    if got {
      AnsweredIsSafe(AfterSetup(w, s), NewConn(w, s, now));
    }
  }

  lemma AcquireMeans(w: World, now: nat, s: Setup, reply: Reply, waiting: bool)
    requires w.inbox != [] && w.inbox[0] == Acquire
    ensures var (rest, c) := PopHealthy(w.idle, w.cfg, now);
            ManageStep(w, now, s, reply, waiting) ==
            if c.Some? then Answered(AfterAcquire(w, rest, w.active + 1), if waiting then Some(c.value) else None)
            else if w.active < w.cfg.maxSize then
              Answered(AfterSetup(AfterAcquire(w, rest, w.active + 1), s),
                       if s.connects && waiting then Some(NewConn(w, s, now)) else None)
            else AfterAcquire(w, rest, w.active)
  {
  }

  lemma ManageAcquire(w: World, now: nat, s: Setup, reply: Reply, waiting: bool)
    requires Safe(w) && w.inbox != [] && w.inbox[0] == Acquire
    requires ValidSetup(s, w) && (w.trusted ==> s.left.inTxn ==> s.inTrans)
    ensures Safe(ManageStep(w, now, s, reply, waiting))
  {
    AcquireMeans(w, now, s, reply, waiting);
    NewestHealthy(w.idle, w.cfg, now);
    var (rest, c) := PopHealthy(w.idle, w.cfg, now);
    if c.Some? {
      AcquireIdle(w, rest, c.value, waiting);
    } else if w.active < w.cfg.maxSize {
      AcquireNew(w, s, now, s.connects && waiting);
    } else {
      AcquireRefused(w, w.active);
    }
  }

  /** A returned connection is at the head of the inbox, so it is counted as active. */
  lemma ReturnIsCounted(w: World)
    requires Safe(w) && w.inbox != [] && w.inbox[0].Return?
    ensures w.active > 0 && w.inbox[0].conn in Everywhere(w) && GoodConn(w.inbox[0].conn, w)
    ensures InboxConns(w.inbox) == multiset{w.inbox[0].conn} + InboxConns(w.inbox[1..])
  {
    assert w.inbox[0].conn in InboxConns(w.inbox);
  }

  lemma ReturnKept(w: World, d: Conn)
    requires Safe(w) && w.inbox != [] && w.inbox[0].Return? && d.id == w.inbox[0].conn.id
    requires GoodConn(d, w) && GoodIdle(d, w)
    ensures Safe(AfterReturn(w, Some(d)))
  {
    ReturnIsCounted(w);
    var c, w' := w.inbox[0].conn, AfterReturn(w, Some(d));
    SwapPlaced(Everywhere(w), c, d, w, w);
    ReturnKeptPlaces(w, c, d);
    StillPlaced(Everywhere(w'), w, w');
    ReturnCounts(w, Some(d));
  }

  lemma ReturnCounts(w: World, kept: Option<Conn>)
    requires Counted(w) && IdleUnmarked(w) && w.active > 0 && w.inbox != [] && (kept.Some? ==> GoodIdle(kept.value, w))
    requires |InboxConns(w.inbox)| == 1 + |InboxConns(w.inbox[1..])|
    ensures Counted(AfterReturn(w, kept)) && IdleUnmarked(AfterReturn(w, kept))
  {
  }

  lemma ReturnKeptPlaces(w: World, c: Conn, d: Conn)
    requires w.inbox != [] && InboxConns(w.inbox) == multiset{c} + InboxConns(w.inbox[1..])
    ensures Everywhere(AfterReturn(w, Some(d))) == Everywhere(w) - multiset{c} + multiset{d}
  {
    var inbox := InboxConns(w.inbox[1..]);
    assert multiset(w.idle + [d]) == multiset(w.idle) + multiset{d};
    Exchange(multiset(w.idle), inbox, w.replies, w.held, c, d);
  }

  lemma Exchange(idle: multiset<Conn>, inbox: multiset<Conn>, replies: multiset<Conn>, held: multiset<Conn>,
                 c: Conn, d: Conn)
    ensures (idle + multiset{d}) + inbox + replies + held
            == idle + (multiset{c} + inbox) + replies + held - multiset{c} + multiset{d}
  {
  }

  lemma ReturnDropped(w: World)
    requires Safe(w) && w.inbox != [] && w.inbox[0].Return?
    ensures Safe(AfterReturn(w, None))
  {
    ReturnIsCounted(w);
    assert w.idle + [] == w.idle;
    ReturnCounts(w, None);
    Moved(w, AfterReturn(w, None));
  }

  /** What goes back to the idle list is not marked, and is clean if the client's status could be trusted. */
  lemma ReturnedIsGood(w: World, c: Conn, now: nat, reply: Reply)
    requires GoodConn(c, w) && (w.trusted ==> Understood(reply))
    ensures var kept := Returned(c, w.cfg, now, reply, w.committed);
            kept.Some? ==> GoodIdle(kept.value, w) && GoodConn(kept.value, w) && kept.value.id == c.id
  {
    RollbackDirtyClears(c, reply, w.committed);
  }

  /** Returning never saturates the counter. */
  lemma ManageReturn(w: World, now: nat, s: Setup, reply: Reply, waiting: bool)
    requires Safe(w) && w.inbox != [] && w.inbox[0].Return? && (w.trusted ==> Understood(reply))
    ensures Safe(ManageStep(w, now, s, reply, waiting)) && w.active > 0
  {
    ReturnIsCounted(w);
    var c := w.inbox[0].conn;
    ReturnedIsGood(w, c, now, reply);
    var kept := Returned(c, w.cfg, now, reply, w.committed);
    if kept.Some? {
      ReturnKept(w, kept.value);
    } else {
      ReturnDropped(w);
    }
  }

  lemma ManageClose(w: World, now: nat, s: Setup, reply: Reply, waiting: bool)
    requires Safe(w) && w.inbox != [] && w.inbox[0] == Close
    ensures Safe(ManageStep(w, now, s, reply, waiting))
  {
    Moved(w, ManageStep(w, now, s, reply, waiting));
  }

  lemma AskStep(w: World, r: Request)
    requires Safe(w) && !r.Return?
    ensures Safe(w.(inbox := w.inbox + [r]))
  {
    InboxLast(w.inbox, r);
    Moved(w, w.(inbox := w.inbox + [r]));
  }

  lemma LoseReplyStep(w: World, c: Conn)
    requires Safe(w) && c in w.replies
    ensures Safe(w.(replies := w.replies - multiset{c}))
  {
    Moved(w, w.(replies := w.replies - multiset{c}));
  }

  lemma LoseHeldStep(w: World, c: Conn)
    requires Safe(w) && c in w.held
    ensures Safe(w.(held := w.held - multiset{c}))
  {
    Moved(w, w.(held := w.held - multiset{c}));
  }

  lemma GiveBackStep(w: World, c: Conn)
    requires Safe(w) && c in w.held
    ensures Safe(w.(held := w.held - multiset{c}, inbox := w.inbox + [Return(c)]))
  {
    InboxLast(w.inbox, Return(c));
    var w' := w.(held := w.held - multiset{c}, inbox := w.inbox + [Return(c)]);
    assert Everywhere(w') == Everywhere(w);
    Moved(w, w');
  }

  lemma SweepStep(w: World, now: nat)
    requires Safe(w) && w.running
    ensures Safe(w.(idle := Retained(w.idle, w.cfg, now)))
  {
    var w' := w.(idle := Retained(w.idle, w.cfg, now));
    RetainedParts(w.idle, w.cfg, now);
    forall i | 0 <= i < |w'.idle| ensures GoodIdle(w'.idle[i], w') {
      assert w'.idle[i] in w.idle;
    }
    Moved(w, w');
  }

  lemma TakeReplyStep(w: World, c: Conn, now: nat)
    requires Safe(w) && c in w.replies
    ensures Safe(w.(replies := w.replies - multiset{c}, held := w.held + multiset{c.(createdAt := now)}))
  {
    var d := c.(createdAt := now);
    var w' := w.(replies := w.replies - multiset{c}, held := w.held + multiset{d});
    assert c in Everywhere(w) && GoodConn(c, w);
    SwapPlaced(Everywhere(w), c, d, w, w);
    TakeFrom(multiset(w.idle) + InboxConns(w.inbox), w.replies, w.held, c, d);
    Rearranged(w, w');
  }

  /** Connections outside the manager change places among themselves. */
  lemma Rearranged(w: World, w': World)
    requires Safe(w) && w' == w.(replies := w'.replies, held := w'.held)
    requires |w'.replies| + |w'.held| <= |w.replies| + |w.held| && Placed(Everywhere(w'), w)
    ensures Safe(w')
  {
    StillPlaced(Everywhere(w'), w, w');
  }

  lemma TakeFrom(inside: multiset<Conn>, replies: multiset<Conn>, held: multiset<Conn>, c: Conn, d: Conn)
    requires c in replies
    ensures inside + (replies - multiset{c}) + (held + multiset{d})
            == inside + replies + held - multiset{c} + multiset{d}
    ensures |replies - multiset{c}| + |held + multiset{d}| == |replies| + |held|
  {
  }

  lemma ExchangeHeld(others: multiset<Conn>, held: multiset<Conn>, c: Conn, d: Conn)
    requires c in held
    ensures others + (held - multiset{c} + multiset{d}) == others + held - multiset{c} + multiset{d}
    ensures |held - multiset{c} + multiset{d}| == |held|
  {
  }

  /** A held connection changes: the counts and the idle list stay as they are. */
  lemma SwapStep(w: World, c: Conn, d: Conn, w': World)
    requires Safe(w) && c in w.held && d.id == c.id && GoodConn(d, w') && OnlyOf(c.id, w, w') && WorkNumbered(w')
    requires w' == Swap(w, c, d).(committed := w'.committed, doomed := w'.doomed, nextWork := w'.nextWork)
    ensures Safe(w')
  {
    assert c in Everywhere(w);
    SwapPlaced(Everywhere(w), c, d, w, w');
    ExchangeHeld(multiset(w.idle) + InboxConns(w.inbox) + w.replies, w.held, c, d);
  }

  lemma HeldIsGood(w: World, c: Conn)
    requires Safe(w) && c in w.held
    ensures GoodConn(c, w)
  {
    assert c in Everywhere(w);
  }

  /** What a statement does to the work of its connection; `k` is `c`, with or without the guard being finished. */
  lemma StatementEffect(w: World, c: Conn, k: Conn, stmt: Stmt, reply: Reply)
    requires GoodConn(c, w) && WorkNumbered(w) && k == c.(guards := k.guards) && (w.trusted ==> Understood(reply))
    requires stmt.Work? ==> stmt.piece == Piece(c.id, w.nextWork)
    ensures GoodOutcome(w, c, Query(k, stmt, reply, w.committed), if stmt.Work? then 1 else 0)
  {
    QueryKeepsWork(k, stmt, reply, w.committed);
  }

  /** The changed connection is good, and only its own work is affected. */
  ghost predicate GoodOutcome(w: World, c: Conn, o: Outcome, pieces: nat) {
    var w' := w.(committed := o.committed, nextWork := w.nextWork + pieces);
    GoodConn(o.conn, w') && o.conn.id == c.id && OnlyOf(c.id, w, w') && WorkNumbered(w')
  }

  lemma BeginEffect(w: World, c: Conn, isolation: bool, r1: Reply, r2: Reply, r3: Reply)
    requires GoodConn(c, w) && WorkNumbered(w)
    requires w.trusted ==> Understood(r1) && Understood(r2) && Understood(r3)
    ensures GoodOutcome(w, c, Begin(c, isolation, r1, r2, r3, w.committed).0, 0)
  {
    BeginCommitsExactly(c, isolation, r1, r2, r3, w.committed);
    BeginStartsEmpty(c, isolation, r1, r2, r3, w.committed);
    if w.trusted {
      BeginStaysUpToDate(c, isolation, r1, r2, r3, w.committed);
    }
  }

  lemma SendEffect(w: World, e: Event)
    requires Safe(w) && Enabled(w, e) && Sends(e) && (w.trusted ==> Told(e))
    ensures GoodOutcome(w, e.conn, ServerOutcome(e, w.committed), NewPieces(e))
  {
    HeldIsGood(w, e.conn);
    match e
    case Statement(c, stmt, reply) => StatementEffect(w, c, c, stmt, reply);
    case BeginGuard(c, isolation, r1, r2, r3) => BeginEffect(w, c, isolation, r1, r2, r3);
    case FinishGuardWith(c, commit, reply) =>
      StatementEffect(w, c, c.(guards := c.guards - 1), if commit then Commit else Rollback, reply);
  }

  lemma SameGood(c: Conn, w: World, w': World)
    requires GoodConn(c, w) && SameWork(w, w') && w'.trusted == w.trusted
    ensures GoodConn(c, w')
  {
  }

  lemma AfterIsSafe(w: World, c: Conn, o: Outcome, pieces: nat)
    requires Safe(w) && c in w.held && GoodOutcome(w, c, o, pieces)
    ensures Safe(After(w, c, o, pieces))
  {
    var w' := After(w, c, o, pieces);
    SameGood(o.conn, w.(committed := o.committed, nextWork := w.nextWork + pieces), w');
    SwapStep(w, c, o.conn, w');
  }

  lemma AbandonStep(w: World, c: Conn)
    requires Safe(w) && c in w.held && c.guards > 0
    ensures Safe(Swap(w, c, DropGuard(c)).(doomed := w.doomed + c.session.pending))
  {
    HeldIsGood(w, c);
    SwapStep(w, c, DropGuard(c), Swap(w, c, DropGuard(c)).(doomed := w.doomed + c.session.pending));
  }

  lemma EffectIsSafe(w: World, e: Event)
    requires Safe(w) && Enabled(w, e) && (w.trusted ==> Told(e))
    ensures Safe(Effect(w, e))
  {
    match e
    case Ask(r) => AskStep(w, r);
    case Manage(now, s, reply, waiting) =>
      match w.inbox[0] {
        case Acquire => ManageAcquire(w, now, s, reply, waiting);
        case Return(_) => ManageReturn(w, now, s, reply, waiting);
        case Close => ManageClose(w, now, s, reply, waiting);
      }
    case Sweep(now) => SweepStep(w, now);
    case TakeReply(c, now) => TakeReplyStep(w, c, now);
    case LoseReply(c) => LoseReplyStep(w, c);
    case GiveBack(c) =>
      if c.open && HasRoom(w) {
        GiveBackStep(w, c);
      } else {
        LoseHeldStep(w, c);
      }
    case Discard(c) => LoseHeldStep(w, c);
    case AbandonGuard(c) => AbandonStep(w, c);
    case _ =>
      SendEffect(w, e);
      AfterIsSafe(w, e.conn, ServerOutcome(e, w.committed), NewPieces(e));
  }

  /** Every step keeps the invariant, whatever the clients send and whatever becomes of the replies. */
  lemma StepIsSafe(w: World, e: Event)
    requires Safe(w) && Enabled(w, e)
    ensures Safe(Step(w, e))
  {
    NotedIsSafe(w, e);
    EffectIsSafe(Noted(w, e), e);
  }

  // ---------------------------------------------------------------- runs

  /**
    * The pool right after `start`: `minIdle` new connections and nothing lent out. Setup statements may have left
    * transactions open or committed work; `trusted` says that they left no transaction.
    */
  ghost predicate Started(w: World) {
    && 0 < w.cfg.maxSize && |w.idle| == w.cfg.minIdle <= w.cfg.maxSize && w.active == 0
    && w.inbox == [] && w.replies == multiset{} && w.held == multiset{} && w.running
    && w.doomed == {} && WorkNumbered(w)
    && (forall i :: 0 <= i < |w.idle| ==> GoodConn(w.idle[i], w) && GoodIdle(w.idle[i], w))
    && (forall i, j :: 0 <= i < j < |w.idle| ==> w.idle[i].id != w.idle[j].id)
  }

  ghost predicate IsRun(ws: seq<World>, es: seq<Event>) {
    && |ws| == |es| + 1 && Started(ws[0])
    && forall i :: 0 <= i < |es| ==> Enabled(ws[i], es[i]) && ws[i + 1] == Step(ws[i], es[i])
  }

  lemma {:induction false} DistinctIdle(idle: seq<Conn>, c: Conn)
    requires forall i, j :: 0 <= i < j < |idle| ==> idle[i].id != idle[j].id
    ensures c in idle ==> multiset(idle)[c] == 1
  {
    if idle != [] {
      var front, last := idle[..|idle| - 1], idle[|idle| - 1];
      DistinctIdle(front, c);
      assert idle == front + [last];
    }
  }

  lemma StartedIsSafe(w: World)
    requires Started(w)
    ensures Safe(w)
  {
    var ms := Everywhere(w);
    assert ms == multiset(w.idle);
    forall c | c in ms ensures ms[c] == 1 && GoodConn(c, w) {
      assert c in w.idle;
      DistinctIdle(w.idle, c);
    }
    forall c, d | c in ms && d in ms && c != d ensures c.id != d.id {
      assert c in w.idle && d in w.idle;
      var i :| 0 <= i < |w.idle| && w.idle[i] == c;
      var j :| 0 <= j < |w.idle| && w.idle[j] == d;
    }
  }

  /**
    * Pool safety over every run: idle plus active stays within the maximum, no more connections are outside the
    * manager than it counts as active, every connection is in exactly one place, and no idle connection is marked.
    */
  lemma {:induction false} RunIsSafe(ws: seq<World>, es: seq<Event>, n: nat)
    requires IsRun(ws, es) && n < |ws|
    ensures Safe(ws[n])
  {
    if n == 0 {
      StartedIsSafe(ws[0]);
    } else {
      RunIsSafe(ws, es, n - 1);
      StepIsSafe(ws[n - 1], es[n - 1]);
    }
  }

  /** The decrement on return never saturates. */
  lemma ReturnNeverSaturates(ws: seq<World>, es: seq<Event>, n: nat)
    requires IsRun(ws, es) && n < |es| && es[n].Manage? && ws[n].inbox[0].Return?
    ensures ws[n].active > 0 && ws[n + 1].active == ws[n].active - 1
  {
    RunIsSafe(ws, es, n);
    ReturnIsCounted(ws[n]);
  }

  /** No connection is ever owned twice. */
  lemma OneOwner(ws: seq<World>, es: seq<Event>, n: nat, c: Conn)
    requires IsRun(ws, es) && n < |ws| && c in Everywhere(ws[n])
    ensures Everywhere(ws[n])[c] == 1
    ensures forall d :: d in Everywhere(ws[n]) && d.id == c.id ==> d == c
  {
    RunIsSafe(ws, es, n);
  }
}
