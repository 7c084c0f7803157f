/** The pool manager: its idle list and count, and how it handles a request for a connection, a return and a sweep. */
module Pool {
  import opened Bytes
  import opened Transactions

  datatype Config = Config(maxSize: nat, minIdle: nat, maxIdleTime: nat, maxLifetime: nat)

  function Elapsed(now: nat, since: nat): nat { if now < since then 0 else now - since }

  predicate TooOld(c: Conn, cfg: Config, now: nat) { Elapsed(now, c.createdAt) >= cfg.maxLifetime }

  predicate TooIdle(c: Conn, cfg: Config, now: nat) { Elapsed(now, c.idleSince) >= cfg.maxIdleTime }

  predicate Healthy(c: Conn, cfg: Config, now: nat) {
    c.open && !TooOld(c, cfg, now) && !TooIdle(c, cfg, now)
  }

  // ---------------------------------------------------------------- the manager's handlers

  /** Pops idle connections, newest first, until a healthy one is found. */
  function PopHealthy(idle: seq<Conn>, cfg: Config, now: nat): (seq<Conn>, Option<Conn>) {
    if idle == [] then ([], None)
    else
      var c, rest := idle[|idle| - 1], idle[..|idle| - 1];
      if Healthy(c, cfg, now) then (rest, Some(c)) else PopHealthy(rest, cfg, now)
  }

  /** The idle list, the count and the reply after an acquire; `connected` is the outcome of a new connection. */
  function HandleAcquire(idle: seq<Conn>, active: nat, cfg: Config, now: nat, connected: Result<Conn>)
    : (seq<Conn>, nat, Result<Conn>)
  {
    match PopHealthy(idle, cfg, now)
    case (rest, Some(c)) => (rest, active + 1, Ok(c))
    case (rest, None) =>
      if active < cfg.maxSize then (rest, active + 1, connected)
      else (rest, active, Err(OperationalError(CR_CONN_HOST_ERROR)))
  }

  function SaturatingDecrement(n: nat): nat { if n == 0 then 0 else n - 1 }

  /** What becomes of a returned connection: kept, cleaned, or dropped. */
  function Returned(c: Conn, cfg: Config, now: nat, reply: Reply, committed: set<Piece>): Option<Conn> {
    if !c.open then None
    else
      var o := RollbackDirty(c, reply, committed);
      if !o.ok || TooOld(c, cfg, now) then None else Some(o.conn.(idleSince := now))
  }

  function Retained(idle: seq<Conn>, cfg: Config, now: nat): seq<Conn> {
    if idle == [] then []
    else
      var c, rest := idle[|idle| - 1], Retained(idle[..|idle| - 1], cfg, now);
      if TooIdle(c, cfg, now) || TooOld(c, cfg, now) then rest else rest + [c]
  }

  /**
    * What a client gets from the idle list is its newest healthy connection; everything newer was unhealthy and is
    * gone, everything older stays; nothing is found if and only if nothing is healthy.
    */
  lemma {:induction false} NewestHealthy(idle: seq<Conn>, cfg: Config, now: nat)
    ensures var (rest, c) := PopHealthy(idle, cfg, now);
            && (c.Some? ==> |rest| < |idle| && idle[..|rest|] == rest && idle[|rest|] == c.value
                            && Healthy(c.value, cfg, now)
                            && forall i :: |rest| < i < |idle| ==> !Healthy(idle[i], cfg, now))
            && (c.None? <==> forall i :: 0 <= i < |idle| ==> !Healthy(idle[i], cfg, now))
            && (c.None? ==> rest == [])
  {
    if idle != [] {
      NewestHealthy(idle[..|idle| - 1], cfg, now);
    }
  }

  /**
    * A client is refused if and only if no idle connection is healthy and either the count is at its maximum or the
    * new connection fails; whoever is not refused is counted, and so is every attempt to connect.
    */
  lemma AcquireExactly(idle: seq<Conn>, active: nat, cfg: Config, now: nat, connected: Result<Conn>)
    ensures var (_, active', r) := HandleAcquire(idle, active, cfg, now, connected);
            var found := exists i :: 0 <= i < |idle| && Healthy(idle[i], cfg, now);
            && (r.Err? <==> !found && (active >= cfg.maxSize || connected.Err?))
            && (r.Ok? ==> if found then r.value in idle && Healthy(r.value, cfg, now) else r == connected)
            && active' == (if found || active < cfg.maxSize then active + 1 else active)
  {
    NewestHealthy(idle, cfg, now);
  }

  /** A sweep keeps a connection if and only if it has not expired, and keeps the order. */
  lemma {:induction false} SweepExactly(idle: seq<Conn>, cfg: Config, now: nat)
    ensures forall c :: c in Retained(idle, cfg, now) <==> c in idle && !TooIdle(c, cfg, now) && !TooOld(c, cfg, now)
    ensures (forall c :: c in idle ==> !TooIdle(c, cfg, now) && !TooOld(c, cfg, now)) ==>
              Retained(idle, cfg, now) == idle
  {
    if idle != [] {
      var front, last := idle[..|idle| - 1], idle[|idle| - 1];
      SweepExactly(front, cfg, now);
      assert idle == front + [last];
    }
  }

  /** Sweeping two lists one after the other is sweeping both: no connection's fate depends on another's. */
  lemma {:induction false} SweepSplits(a: seq<Conn>, b: seq<Conn>, cfg: Config, now: nat)
    ensures Retained(a + b, cfg, now) == Retained(a, cfg, now) + Retained(b, cfg, now)
    decreases |b|
  {
    if b == [] {
      assert a + b == a;
    } else {
      var front, last := b[..|b| - 1], b[|b| - 1];
      SweepSplits(a, front, cfg, now);
      assert (a + b)[..|a + b| - 1] == a + front;
    }
  }

  // ---------------------------------------------------------------- by the clock

  /** Is it less than `limit` since `start`? A start in the future counts as now, and a limit of 0 is always over. */
  predicate Within(start: nat, limit: nat, now: nat) { 0 < limit && now < start + limit }

  /** Both limits, on the connection's own clocks: less than the lifetime old, and less than the idle time unused. */
  predicate WithinLimits(c: Conn, cfg: Config, now: nat) {
    Within(c.createdAt, cfg.maxLifetime, now) && Within(c.idleSince, cfg.maxIdleTime, now)
  }

  /** A sweep keeps exactly the connections within both limits. */
  lemma SweepByTheClock(idle: seq<Conn>, cfg: Config, now: nat, c: Conn)
    ensures c in Retained(idle, cfg, now) <==> c in idle && WithinLimits(c, cfg, now)
  {
    SweepExactly(idle, cfg, now);
  }

  /**
    * What is lent out from the idle list is open and within both limits, and so is nothing newer that was passed
    * over.
    */
  lemma LentByTheClock(idle: seq<Conn>, active: nat, cfg: Config, now: nat, connected: Result<Conn>)
    ensures var (rest, active', r) := HandleAcquire(idle, active, cfg, now, connected);
            if exists i :: 0 <= i < |idle| && idle[i].open && WithinLimits(idle[i], cfg, now) then
              && |rest| < |idle| && idle[..|rest|] == rest && r == Ok(idle[|rest|]) && active' == active + 1
              && idle[|rest|].open && WithinLimits(idle[|rest|], cfg, now)
              && (forall i :: |rest| < i < |idle| ==> !(idle[i].open && WithinLimits(idle[i], cfg, now)))
            else
              && rest == []
              && (active < cfg.maxSize ==> r == connected && active' == active + 1)
              && (active >= cfg.maxSize ==> r == Err(OperationalError(2003)) && active' == active)
  {
    NewestHealthy(idle, cfg, now);
    forall i | 0 <= i < |idle| ensures Healthy(idle[i], cfg, now) <==> idle[i].open && WithinLimits(idle[i], cfg, now) {
    }
  }

  /**
    * A returned connection is kept if and only if it is open, the rollback it may need succeeds, and it is less than
    * its lifetime old. It is then idle from now on; its age goes on.
    */
  lemma ReturnedByTheClock(c: Conn, cfg: Config, now: nat, reply: Reply, committed: set<Piece>)
    ensures var kept := Returned(c, cfg, now, reply, committed);
            && (kept.Some? <==> c.open && (c.dirty || c.inTrans ==> reply.Fine? || reply.Misread?)
                                && Within(c.createdAt, cfg.maxLifetime, now))
            && (kept.Some? ==> kept.value.idleSince == now && kept.value.createdAt == c.createdAt && kept.value.open
                               && kept.value.id == c.id && kept.value.guards == c.guards
                               && kept.value.autocommit == c.autocommit)
  {
  }

  class PoolManager {
    const cfg: Config
    var idle: seq<Conn>
    var activeCount: nat

    constructor (cfg: Config, idle: seq<Conn>)
      ensures this.cfg == cfg && this.idle == idle && activeCount == 0
    {
      this.cfg, this.idle, activeCount := cfg, idle, 0;
    }

    method Acquire(now: nat, connected: Result<Conn>) returns (reply: Result<Conn>)
      modifies this
      ensures (idle, activeCount, reply) == HandleAcquire(old(idle), old(activeCount), cfg, now, connected)
    {
      while idle != []
        invariant activeCount == old(activeCount)
        invariant PopHealthy(idle, cfg, now) == PopHealthy(old(idle), cfg, now)
        decreases |idle|
      {
        var c := idle[|idle| - 1];
        idle := idle[..|idle| - 1];
        if Healthy(c, cfg, now) {
          activeCount := activeCount + 1;
          return Ok(c);
        }
      }
      if activeCount < cfg.maxSize {
        activeCount := activeCount + 1;
        reply := connected;
      } else {
        reply := Err(OperationalError(CR_CONN_HOST_ERROR));
      }
    }

    method Return(c: Conn, now: nat, reply: Reply, ghost committed: set<Piece>)
      modifies this
      ensures activeCount == SaturatingDecrement(old(activeCount))
      ensures idle ==
              match Returned(c, cfg, now, reply, committed) case Some(d) => old(idle) + [d] case None => old(idle)
    {
      activeCount := if activeCount == 0 then 0 else activeCount - 1;
      if !c.open {
        return;
      }
      var o := RollbackDirty(c, reply, {});
      if !o.ok {
        return;
      }
      if TooOld(c, cfg, now) {
        return;
      }
      idle := idle + [o.conn.(idleSince := now)];
    }

    method EvictExpired(now: nat)
      modifies this
      ensures idle == Retained(old(idle), cfg, now) && activeCount == old(activeCount)
    {
      var kept: seq<Conn> := [];
      for i := 0 to |idle|
        invariant idle == old(idle) && activeCount == old(activeCount)
        invariant kept == Retained(idle[..i], cfg, now)
      {
        assert idle[..i + 1][..i] == idle[..i];
        if !TooIdle(idle[i], cfg, now) && !TooOld(idle[i], cfg, now) {
          kept := kept + [idle[i]];
        }
      }
      assert idle[..|idle|] == idle;
      idle := kept;
    }
  }
}
