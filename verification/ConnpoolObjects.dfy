/** The Pool of packages/golib/connpool/connpool.go as an object: its critical sections, with their
    loops, proved against the functions of module Connpool. Clock readings are parameters. */
module ConnpoolObjects {
  import opened Wrappers
  import C = Connpool

  class Conn {
    const id: int
    const createdAt: int
    var lastUsed: int
    var useCount: int

    constructor (id: int, createdAt: int, lastUsed: int)
      ensures Value() == C.Conn(id, createdAt, lastUsed, 1)
    {
      this.id, this.createdAt, this.lastUsed, useCount := id, createdAt, lastUsed, 1;
    }

    function Value(): C.Conn
      reads this
    {
      C.Conn(id, createdAt, lastUsed, useCount)
    }
  }

  /** One round of getIdle. */
  lemma PopStep(cfg: C.Config, p: C.Pool, now: int)
    ensures C.GetIdle(cfg, p, now) ==
            if p.idle == [] then (p, None) else
            var conn, rest := p.idle[|p.idle| - 1], p.(idle := p.idle[..|p.idle| - 1]);
            if C.TooOld(cfg, conn, now) || C.TooIdle(cfg, conn, now) then C.GetIdle(cfg, C.DestroyLocked(rest, conn.id), now)
            else (rest.(active := p.active + 1), Some(conn.(lastUsed := now, useCount := conn.useCount + 1)))
  {
  }

  /** What an Acquire meets that runs alone: the clock at each of its readings, whether it is still
      willing to wait at the select (a timer or a context that has run out may win over a free slot), and
      whether the factory succeeds. */
  datatype Env = Env(idleAt: int, patient: bool, dialled: bool, createdAt: int, usedAt: int)

  function Choice(cfg: C.Config, p: C.Pool, pc: C.Pc, env: Env): C.Choice {
    match pc
    case Waiting => if env.patient && p.sem < cfg.maxSize then C.At(env.idleAt) else C.GiveUp
    case Creating => if env.dialled then C.At(env.idleAt) else C.GiveUp
    case Numbered(_) => C.At(env.createdAt)
    case Stamped(_, _) => C.At(env.usedAt)
    case _ => C.At(env.idleAt)
  }

  function Distance(pc: C.Pc): nat {
    match pc
    case Start => 10 case Open => 9 case Waiting => 8 case Creating => 7 case Dialled => 6 case Numbered(_) => 5
    case Stamped(_, _) => 4 case Built(_) => 3 case Handing(_) => 2 case GivingBack => 2 case Erring => 1
    case Holding(_) => 0 case Finished => 0 case Failed(_) => 0
  }

  /** The rest of an Acquire from pc on when no other goroutine moves: the pool it leaves, and where it
      ends, holding a connection or failed. None when a step blocks. */
  function Alone(cfg: C.Config, p: C.Pool, pc: C.Pc, env: Env): Option<(C.Pool, C.Pc)>
    decreases Distance(pc)
  {
    if pc.Holding? || pc.Finished? || pc.Failed? then Some((p, pc)) else
    match C.Act(cfg, p, pc, Choice(cfg, p, pc, env))
    case Blocked => None
    case Move(p', pc') => Alone(cfg, p', pc', env)
  }

  lemma Took(cfg: C.Config, p: C.Pool, pc: C.Pc, p': C.Pool, pc': C.Pc, env: Env)
    requires !pc.Holding? && C.Act(cfg, p, pc, Choice(cfg, p, pc, env)) == C.Move(p', pc')
    ensures Alone(cfg, p, pc, env) == Alone(cfg, p', pc', env)
  {
  }

  lemma Ended(cfg: C.Config, p: C.Pool, pc: C.Pc, env: Env)
    requires pc.Holding? || pc.Failed?
    ensures Alone(cfg, p, pc, env) == Some((p, pc))
  {
  }

  class Pool {
    const config: C.Config
    var idle: seq<Conn>
    var active: int
    var closed: bool
    var nextId: nat
    var sem: nat
    var acquired: int
    var released: int
    var created: int
    var destroyed: int
    var timeouts: int
    var errors: int
    /** The ids of the connections the closer was called on, in order. */
    ghost var closedIds: seq<int>

    ghost predicate Valid()
      reads this
    {
      forall i, j | 0 <= i < j < |idle| :: idle[i] != idle[j]
    }

    static ghost function Values(conns: seq<Conn>): seq<C.Conn>
      reads conns
    {
      seq(|conns|, i requires 0 <= i < |conns| reads conns => conns[i].Value())
    }

    ghost function View(): C.Pool
      reads this, idle
    {
      C.Pool(Values(idle), active, closed, nextId, sem, acquired, released, created, destroyed, timeouts, errors, closedIds)
    }

    constructor (cfg: C.Config)
      ensures Valid() && View() == C.EMPTY && config == C.New(cfg)
      ensures config == cfg.(maxSize := if cfg.maxSize > 0 then cfg.maxSize else 25)
    {
      config := if cfg.maxSize <= 0 then cfg.(maxSize := 25) else cfg;
      idle, active, closed, nextId, sem := [], 0, false, 0, 0;
      acquired, released, created, destroyed, timeouts, errors, closedIds := 0, 0, 0, 0, 0, 0, [];
    }

    method DestroyLocked(conn: Conn)
      modifies this`destroyed, this`sem, this`closedIds
      ensures View() == C.DestroyLocked(old(View()), conn.id)
    {
      closedIds := closedIds + [conn.id];
      destroyed := destroyed + 1;
      if sem > 0 {
        sem := sem - 1;
      }
    }

    /** Acquire, with nobody else at the pool: it takes exactly the steps module Connpool gives it. */
    method Acquire(env: Env) returns (r: Result<Conn, C.Failure>)
      requires Valid()
      modifies this, idle
      ensures Valid()
      ensures var end := if r.Ok? then C.Holding(r.value.Value()) else C.Failed(r.error);
              Alone(config, old(View()), C.Start, env) == Some((View(), end))
      ensures r == Err(C.PoolClosed) <==> old(closed)
      ensures r.Ok? ==> r.value !in idle && (r.value in old(idle) || fresh(r.value))
    {
      hide Alone, C.GetIdle;
      ghost var p0 := View();
      if closed {
        Took(config, p0, C.Start, p0, C.Failed(C.PoolClosed), env);
        Ended(config, p0, C.Failed(C.PoolClosed), env);
        return Err(C.PoolClosed);
      }
      Took(config, p0, C.Start, p0, C.Open, env);
      var conn := GetIdle(env.idleAt);
      ghost var p1 := View();
      if conn != null {
        Took(config, p0, C.Open, p1, C.Handing(conn.Value()), env);
        acquired := acquired + 1;
        Took(config, p1, C.Handing(conn.Value()), View(), C.Holding(conn.Value()), env);
        Ended(config, View(), C.Holding(conn.Value()), env);
        return Ok(conn);
      }
      Took(config, p0, C.Open, p1, C.Waiting, env);
      r := Grow(env);
    }

    /** Acquire from the select on. */
    method Grow(env: Env) returns (r: Result<Conn, C.Failure>)
      requires Valid()
      modifies this
      ensures Valid() && idle == old(idle)
      ensures var end := if r.Ok? then C.Holding(r.value.Value()) else C.Failed(r.error);
              Alone(config, old(View()), C.Waiting, env) == Some((View(), end))
      ensures r.Ok? <==> env.patient && old(sem) < config.maxSize && env.dialled
      ensures r.Err? ==> sem == old(sem) && r.error == if env.patient && sem < config.maxSize then C.CreateFailed else C.TimedOut
      ensures r.Ok? ==> fresh(r.value)
    {
      hide Alone, C.GetIdle;
      ghost var p0 := View();
      if !(env.patient && sem < config.maxSize) {
        timeouts := timeouts + 1;
        Took(config, p0, C.Waiting, View(), C.Failed(C.TimedOut), env);
        Ended(config, View(), C.Failed(C.TimedOut), env);
        return Err(C.TimedOut);
      }
      sem := sem + 1;
      ghost var p1 := View();
      Took(config, p0, C.Waiting, p1, C.Creating, env);
      var conn := Create(env);
      if conn == null {
        GiveBack(env);
        return Err(C.CreateFailed);
      }
      HandOver(conn, env);
      return Ok(conn);
    }

    method GiveBack(ghost env: Env)
      requires sem > 0
      modifies this`sem, this`errors
      ensures Alone(config, old(View()), C.GivingBack, env) == Some((View(), C.Failed(C.CreateFailed)))
      ensures sem == old(sem) - 1
    {
      hide Alone, C.GetIdle;
      ghost var p0 := View();
      sem := sem - 1;
      ghost var p1 := View();
      Took(config, p0, C.GivingBack, p1, C.Erring, env);
      errors := errors + 1;
      Took(config, p1, C.Erring, View(), C.Failed(C.CreateFailed), env);
      Ended(config, View(), C.Failed(C.CreateFailed), env);
    }

    method HandOver(ghost conn: Conn, ghost env: Env)
      modifies this`active, this`acquired
      ensures Alone(config, old(View()), C.Built(conn.Value()), env) == Some((View(), C.Holding(conn.Value())))
    {
      hide Alone, C.GetIdle;
      ghost var p0 := View();
      active := active + 1;
      ghost var p1 := View();
      Took(config, p0, C.Built(conn.Value()), p1, C.Handing(conn.Value()), env);
      acquired := acquired + 1;
      Took(config, p1, C.Handing(conn.Value()), View(), C.Holding(conn.Value()), env);
      Ended(config, View(), C.Holding(conn.Value()), env);
    }

    method Create(env: Env) returns (r: Conn?)
      modifies this`nextId, this`created
      ensures r != null <==> env.dialled
      ensures r != null ==> fresh(r)
      ensures Alone(config, old(View()), C.Creating, env)
           == Alone(config, View(), if r == null then C.GivingBack else C.Built(r.Value()), env)
      ensures r == null ==> View() == old(View())
      ensures r != null ==> r.Value() == C.Conn(nextId, env.createdAt, env.usedAt, 1) && nextId == old(nextId) + 1
    {
      hide Alone, C.GetIdle;
      ghost var p0 := View();
      if !env.dialled {
        Took(config, p0, C.Creating, p0, C.GivingBack, env);
        return null;
      }
      Took(config, p0, C.Creating, p0, C.Dialled, env);
      nextId := nextId + 1;
      ghost var p1 := View();
      Took(config, p0, C.Dialled, p1, C.Numbered(nextId), env);
      created := created + 1;
      Took(config, p1, C.Numbered(nextId), View(), C.Stamped(nextId, env.createdAt), env);
      r := new Conn(nextId, env.createdAt, env.usedAt);
      Took(config, View(), C.Stamped(nextId, env.createdAt), View(), C.Built(r.Value()), env);
    }

    /** Takes the last element off the slice. */
    method Pop() returns (conn: Conn)
      requires Valid() && idle != []
      modifies this`idle
      ensures Valid() && old(idle) == idle + [conn] && conn !in idle
      ensures View() == old(View()).(idle := old(View()).idle[..|idle|])
      ensures conn.Value() == old(View()).idle[|idle|]
    {
      ghost var before := View();
      conn := idle[|idle| - 1];
      idle := idle[..|idle| - 1];
      assert View().idle == before.idle[..|idle|];
    }

    /** LIFO over the idle stack; the connection returned leaves the stack and its stamps are refreshed. */
    method GetIdle(now: int) returns (r: Conn?)
      requires Valid()
      modifies this, idle
      ensures Valid()
      ensures var (view, conn) := C.GetIdle(config, old(View()), now);
              && View() == view
              && (r == null <==> conn == None)
              && (r != null ==> r in old(idle) && r !in idle && conn == Some(r.Value()))
      ensures r == null ==> idle == []
      ensures r != null ==>
                && idle + [r] <= old(idle)
                && (config.maxLifetime > 0 ==> now - r.createdAt <= config.maxLifetime)
                && (config.idleTimeout > 0 ==> now - old(r.lastUsed) <= config.idleTimeout)
    {
      hide C.GetIdle;
      while |idle| > 0
        invariant Valid() && idle <= old(idle) && unchanged(old(idle))
        invariant C.GetIdle(config, View(), now) == C.GetIdle(config, old(View()), now)
        decreases |idle|
      {
        PopStep(config, View(), now);
        var conn := Pop();
        if config.maxLifetime > 0 && now - conn.createdAt > config.maxLifetime {
          DestroyLocked(conn);
          continue;
        }
        if config.idleTimeout > 0 && now - conn.lastUsed > config.idleTimeout {
          DestroyLocked(conn);
          continue;
        }
        Use(conn, now);
        return conn;
      }
      PopStep(config, View(), now);
      return null;
    }

    /** getIdle's last lines, for the connection it returns. */
    method Use(conn: Conn, now: int)
      requires Valid() && conn !in idle
      modifies this`active, conn
      ensures View() == old(View()).(active := old(View()).active + 1)
      ensures conn.Value() == old(conn.Value()).(lastUsed := now, useCount := old(conn.Value()).useCount + 1)
    {
      ghost var before := Values(idle);
      active := active + 1;
      conn.lastUsed := now;
      conn.useCount := conn.useCount + 1;
      assert Values(idle) == before;
    }

    method Release(conn: Conn, now: int)
      requires Valid() && conn !in idle
      modifies this, conn
      ensures Valid()
      ensures View() == C.Release(config, old(View()), old(conn.Value()), now)
      ensures idle == if !old(closed) && (config.maxLifetime > 0 ==> now - conn.createdAt <= config.maxLifetime)
                      then old(idle) + [conn] else old(idle)
    {
      active := active - 1;
      released := released + 1;
      if closed {
        DestroyLocked(conn);
        return;
      }
      if config.maxLifetime > 0 && now - conn.createdAt > config.maxLifetime {
        DestroyLocked(conn);
        return;
      }
      conn.lastUsed := now;
      idle := idle + [conn];
    }

    method Destroy(conn: Conn)
      requires Valid() && conn !in idle
      modifies this
      ensures Valid() && idle == old(idle)
      ensures View() == C.Destroy(old(View()), conn.Value())
    {
      active := active - 1;
      DestroyLocked(conn);
    }

    method Close()
      requires Valid()
      modifies this
      ensures Valid()
      ensures View() == C.Close(old(View()))
    {
      if closed {
        return;
      }
      closed := true;
      var i := 0;
      ghost var open := View();
      while i < |idle|
        invariant 0 <= i <= |idle| && idle == old(idle)
        invariant View().idle == open.idle
        invariant C.DestroyAll(View(), open.idle[i..]) == C.DestroyAll(open, open.idle)
      {
        DestroyLocked(idle[i]);
        i := i + 1;
        assert open.idle[i - 1..][1..] == open.idle[i..];
      }
      idle := [];
    }
  }
}
