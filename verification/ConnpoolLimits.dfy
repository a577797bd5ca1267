/** Which connections packages/golib/connpool/connpool.go hands out, keeps and closes: what MaxLifetime,
    IdleTimeout, LIFO order and Close mean for the steps of module Connpool. */
module ConnpoolLimits {
  import opened Connpool
  import opened Counting
  import opened Wrappers

  /** The age of a connection and the time since its last use, against the limits that are set. */
  predicate YoungEnough(cfg: Config, conn: Conn, now: int) {
    cfg.maxLifetime > 0 ==> now - conn.createdAt <= cfg.maxLifetime
  }

  predicate FreshEnough(cfg: Config, conn: Conn, now: int) {
    YoungEnough(cfg, conn, now) && (cfg.idleTimeout > 0 ==> now - conn.lastUsed <= cfg.idleTimeout)
  }

  /** The ids of the connections from index k on, the last first. */
  function Above(conns: seq<Conn>, k: nat): seq<int> {
    if |conns| <= k then [] else [conns[|conns| - 1].id] + Above(conns[..|conns| - 1], k)
  }

  function InOrder(conns: seq<Conn>): (ids: seq<int>)
    ensures |ids| == |conns|
  {
    if conns == [] then [] else [conns[0].id] + InOrder(conns[1..])
  }

  /** getIdle finds the k-th connection of the stack, counted from the bottom (none when k is 0): the last
      one within the limits. It leaves the stack with its stamps refreshed, those above it are closed from
      the top, those below stay. */
  ghost predicate Finds(cfg: Config, p: Pool, now: int, k: nat, q: Pool, found: Option<Conn>) {
    && k <= |p.idle|
    && (forall j | k <= j < |p.idle| :: !FreshEnough(cfg, p.idle[j], now))
    && q.closedIds == p.closedIds + Above(p.idle, k)
    && (k == 0 ==> found == None && q.idle == [] && q.active == p.active)
    && (k > 0 ==>
          && FreshEnough(cfg, p.idle[k - 1], now) && q.idle == p.idle[..k - 1] && q.active == p.active + 1
          && found == Some(Conn(p.idle[k - 1].id, p.idle[k - 1].createdAt, now, p.idle[k - 1].useCount + 1)))
  }

  lemma TooOldIsNotFresh(cfg: Config, conn: Conn, now: int)
    ensures TooOld(cfg, conn, now) || TooIdle(cfg, conn, now) <==> !FreshEnough(cfg, conn, now)
  {
  }

  lemma PassesOver(cfg: Config, p: Pool, now: int, k: nat, q: Pool, found: Option<Conn>)
    requires p.idle != [] && !FreshEnough(cfg, p.idle[|p.idle| - 1], now)
    requires Finds(cfg, DestroyLocked(p.(idle := p.idle[..|p.idle| - 1]), p.idle[|p.idle| - 1].id), now, k, q, found)
    ensures Finds(cfg, p, now, k, q, found)
  {
    hide FreshEnough;
    var n, id := |p.idle|, p.idle[|p.idle| - 1].id;
    var below := p.idle[..n - 1];
    assert Above(p.idle, k) == [id] + Above(below, k);
    assert p.closedIds + [id] + Above(below, k) == p.closedIds + ([id] + Above(below, k));
    if k > 0 {
      assert p.idle[..k - 1] == below[..k - 1];
    }
  }

  lemma {:induction false} GetIdleFinds(cfg: Config, p: Pool, now: int) returns (k: nat)
    ensures Finds(cfg, p, now, k, GetIdle(cfg, p, now).0, GetIdle(cfg, p, now).1)
    decreases |p.idle|
  {
    hide FreshEnough, TooOld, TooIdle;
    var n := |p.idle|;
    if n == 0 {
      k := 0;
    } else {
      var conn, rest := p.idle[n - 1], p.(idle := p.idle[..n - 1]);
      TooOldIsNotFresh(cfg, conn, now);
      if FreshEnough(cfg, conn, now) {
        k := n;
      } else {
        hide Finds;
        k := GetIdleFinds(cfg, DestroyLocked(rest, conn.id), now);
        PassesOver(cfg, p, now, k, GetIdle(cfg, p, now).0, GetIdle(cfg, p, now).1);
      }
    }
  }

  lemma OpenStep(cfg: Config, s: State, i: nat, now: int)
    requires i < |s.threads| && s.threads[i] == Open
    ensures var (q, found) := GetIdle(cfg, s.pool, now);
            Step(cfg, s, Thread(i, At(now))) ==
            Some(State(q, s.threads[i := if found.Some? then Handing(found.value) else Waiting]))
  {
    hide GetIdle;
  }

  /** In every state an Acquire that looks for an idle connection gets the last one within the limits, and
      goes on to wait for capacity exactly when there is none; what it passes over is closed. */
  lemma AcquireTakesLatest(cfg: Config, s: State, i: nat, now: int) returns (k: nat, q: Pool, found: Option<Conn>)
    requires i < |s.threads| && s.threads[i] == Open
    ensures Step(cfg, s, Thread(i, At(now))) ==
            Some(State(q, s.threads[i := if found.Some? then Handing(found.value) else Waiting]))
    ensures Finds(cfg, s.pool, now, k, q, found)
    ensures found == None <==> forall j | 0 <= j < |s.pool.idle| :: !FreshEnough(cfg, s.pool.idle[j], now)
  {
    hide GetIdle, FreshEnough, Act, Step;
    OpenStep(cfg, s, i, now);
    k := GetIdleFinds(cfg, s.pool, now);
    q, found := GetIdle(cfg, s.pool, now).0, GetIdle(cfg, s.pool, now).1;
  }

  /** Release puts a connection on top of the stack exactly when the pool is open and its age is within
      MaxLifetime; otherwise it closes this connection and no other. */
  lemma ReleaseKeepsExactly(cfg: Config, s: State, i: nat, conn: Conn, now: int)
    requires i < |s.threads| && s.threads[i] == Holding(conn)
    ensures Step(cfg, s, Thread(i, At(now))).Some?
    ensures var v := Step(cfg, s, Thread(i, At(now))).value;
            && v.threads == s.threads[i := Finished]
            && v.pool.active == s.pool.active - 1 && v.pool.released == s.pool.released + 1
            && if !s.pool.closed && YoungEnough(cfg, conn, now)
               then v.pool.idle == s.pool.idle + [conn.(lastUsed := now)] && v.pool.closedIds == s.pool.closedIds
               else v.pool.idle == s.pool.idle && v.pool.closedIds == s.pool.closedIds + [conn.id]
  {
  }

  /** Destroy closes the connection whatever its age. */
  lemma DestroyCloses(cfg: Config, s: State, i: nat, conn: Conn)
    requires i < |s.threads| && s.threads[i] == Holding(conn)
    ensures Step(cfg, s, Thread(i, Discard)).Some?
    ensures var v := Step(cfg, s, Thread(i, Discard)).value;
            && v.threads == s.threads[i := Finished] && v.pool.active == s.pool.active - 1
            && v.pool.idle == s.pool.idle && v.pool.closedIds == s.pool.closedIds + [conn.id]
  {
  }

  /** A connection released to an open pool within MaxLifetime is the one that the next Acquire gets,
      exactly when it is still within both limits then. */
  lemma ReleasedIsNext(cfg: Config, s: State, i: nat, conn: Conn, now: int, j: nat, later: int)
    requires i < |s.threads| && j < |s.threads| && i != j
    requires s.threads[i] == Holding(conn) && s.threads[j] == Open && !s.pool.closed && YoungEnough(cfg, conn, now)
    ensures Step(cfg, s, Thread(i, At(now))).Some?
    ensures var u := Step(cfg, s, Thread(i, At(now))).value;
            && Step(cfg, u, Thread(j, At(later))).Some?
            && var v := Step(cfg, u, Thread(j, At(later))).value;
            (v.threads[j] == Handing(Conn(conn.id, conn.createdAt, later, conn.useCount + 1)) && v.pool.idle == s.pool.idle) <==>
              FreshEnough(cfg, conn.(lastUsed := now), later)
  {
    hide GetIdle, FreshEnough, YoungEnough, Act, Step, Above;
    ReleaseKeepsExactly(cfg, s, i, conn, now);
    var u := Step(cfg, s, Thread(i, At(now))).value;
    var k, q, found := AcquireTakesLatest(cfg, u, j, later);
    var n := |s.pool.idle|;
    assert u.pool.idle[n] == conn.(lastUsed := now);
    assert u.pool.idle[..n] == s.pool.idle;
    assert k <= n ==> !FreshEnough(cfg, u.pool.idle[n], later);
    assert 0 < k <= n ==> |q.idle| < n;
  }

  lemma {:induction false} DestroyAllCloses(p: Pool, conns: seq<Conn>)
    ensures DestroyAll(p, conns).closedIds == p.closedIds + InOrder(conns)
    decreases |conns|
  {
    if conns != [] {
      DestroyAllCloses(DestroyLocked(p, conns[0].id), conns[1..]);
    }
  }

  /** Close closes the idle connections in order, once; from then on nothing is kept and no new Acquire
      gets past its first step. */
  lemma CloseEmpties(cfg: Config, s: State, i: nat, ch: Choice)
    requires i < |s.threads| && s.threads[i] == Start
    ensures var u := Step(cfg, s, ClosePool).value;
            && u.threads == s.threads && u.pool.closed
            && u.pool.closedIds == s.pool.closedIds + (if s.pool.closed then [] else InOrder(s.pool.idle))
            && (!s.pool.closed ==> u.pool.idle == [])
            && Step(cfg, u, Thread(i, ch)) == Some(u.(threads := u.threads[i := Failed(PoolClosed)]))
  {
    DestroyAllCloses(s.pool.(closed := true), s.pool.idle);
    DestroyAllStaysClosed(s.pool.(closed := true), s.pool.idle);
  }

  lemma {:induction false} DestroyAllStaysClosed(p: Pool, conns: seq<Conn>)
    ensures DestroyAll(p, conns).closed == p.closed
    decreases |conns|
  {
    if conns != [] {
      DestroyAllStaysClosed(DestroyLocked(p, conns[0].id), conns[1..]);
    }
  }

  /** On an open pool every Acquire begins by looking at the idle stack. */
  lemma OpenPoolLooks(cfg: Config, s: State, i: nat, ch: Choice)
    requires i < |s.threads| && s.threads[i] == Start && !s.pool.closed
    ensures Step(cfg, s, Thread(i, ch)) == Some(s.(threads := s.threads[i := Open]))
  {
  }

  /** A new connection carries the id drawn for it and two readings of the clock, whatever happens in between. */
  lemma NewConnectionStamps(cfg: Config, s: State, i: nat, id: int, made: int, v: State, used: int)
    requires i < |s.threads| && s.threads[i] == Numbered(id) && i < |v.threads|
    ensures Step(cfg, s, Thread(i, At(made))).Some?
    ensures v.threads[i] == Step(cfg, s, Thread(i, At(made))).value.threads[i] ==>
              && Step(cfg, v, Thread(i, At(used))).Some?
              && Step(cfg, v, Thread(i, At(used))).value.threads[i] == Built(Conn(id, made, used, 1))
  {
  }

  // The statistics.

  predicate WasHanded(pc: Pc) { pc.Holding? || pc.Finished? }
  predicate HasTimedOut(pc: Pc) { pc == Failed(TimedOut) }
  predicate HasErred(pc: Pc) { pc == Failed(CreateFailed) }

  ghost predicate Counted(s: State) {
    && s.pool.acquired == Count(s.threads, WasHanded)
    && s.pool.timeouts == Count(s.threads, HasTimedOut)
    && s.pool.errors == Count(s.threads, HasErred)
  }

  lemma {:induction false} GetIdleCounts(cfg: Config, p: Pool, now: int)
    ensures var q := GetIdle(cfg, p, now).0;
            q.acquired == p.acquired && q.timeouts == p.timeouts && q.errors == p.errors
    decreases |p.idle|
  {
    if p.idle != [] {
      GetIdleCounts(cfg, DestroyLocked(p.(idle := p.idle[..|p.idle| - 1]), p.idle[|p.idle| - 1].id), now);
    }
  }

  lemma {:induction false} DestroyAllCounts(p: Pool, conns: seq<Conn>)
    ensures var q := DestroyAll(p, conns);
            q.acquired == p.acquired && q.timeouts == p.timeouts && q.errors == p.errors
    decreases |conns|
  {
    if conns != [] {
      DestroyAllCounts(DestroyLocked(p, conns[0].id), conns[1..]);
    }
  }

  lemma ActCounts(cfg: Config, p: Pool, pc: Pc, ch: Choice)
    requires Act(cfg, p, pc, ch).Move?
    ensures var Move(q, pc') := Act(cfg, p, pc, ch);
            && q.acquired - Bit(WasHanded(pc')) == p.acquired - Bit(WasHanded(pc))
            && q.timeouts - Bit(HasTimedOut(pc')) == p.timeouts - Bit(HasTimedOut(pc))
            && q.errors - Bit(HasErred(pc')) == p.errors - Bit(HasErred(pc))
  {
    if pc.Open? {
      GetIdleCounts(cfg, p, ch.now);
    }
  }

  lemma StepCounts(cfg: Config, s: State, e: Event)
    requires Counted(s) && Step(cfg, s, e).Some?
    ensures Counted(Step(cfg, s, e).value)
  {
    if e.ClosePool? {
      DestroyAllCounts(s.pool.(closed := true), s.pool.idle);
    } else {
      hide Act, Count;
      var x := Act(cfg, s.pool, s.threads[e.i], e.choice).pc;
      ActCounts(cfg, s.pool, s.threads[e.i], e.choice);
      CountUpdate(s.threads, e.i, x, WasHanded);
      CountUpdate(s.threads, e.i, x, HasTimedOut);
      CountUpdate(s.threads, e.i, x, HasErred);
    }
  }

  lemma {:induction false} RunCounts(cfg: Config, s: State, run: seq<Event>)
    requires Counted(s) && Exec(cfg, s, run).Some?
    ensures Counted(Exec(cfg, s, run).value)
    decreases |run|
  {
    if run != [] {
      StepCounts(cfg, s, run[0]);
      RunCounts(cfg, Step(cfg, s, run[0]).value, run[1..]);
    }
  }

  /** In every run the statistics count the connections handed out, the waits that timed out and the failed
      creations. */
  lemma StatisticsCount(cfg: Config, n: nat, run: seq<Event>, s: State)
    requires Reaches(cfg, n, run, s)
    ensures s.pool.acquired == Count(s.threads, WasHanded)
    ensures s.pool.timeouts == Count(s.threads, HasTimedOut)
    ensures s.pool.errors == Count(s.threads, HasErred)
  {
    var t := Init(n).threads;
    CountBounds(t, WasHanded);
    CountBounds(t, HasTimedOut);
    CountBounds(t, HasErred);
    RunCounts(New(cfg), Init(n), run);
  }
}
