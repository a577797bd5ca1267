/** packages/golib/connpool/connpool.go: Acquire in its separately locked steps, Release, Destroy and
    Close, by any number of goroutines in any interleaving.

    Each critical section under p.mu and each channel or atomic operation is one step. A connection is
    named by its id; `closedIds` lists the ids the closer was called on. */
module Connpool {
  import opened Counting
  import opened Wrappers

  datatype Config = Config(maxSize: int, maxLifetime: int, idleTimeout: int)

  function New(cfg: Config): Config {
    if cfg.maxSize <= 0 then cfg.(maxSize := 25) else cfg
  }

  datatype Conn = Conn(id: int, createdAt: int, lastUsed: int, useCount: int)

  datatype Pool = Pool(
    idle: seq<Conn>, active: int, closed: bool, nextId: nat,
    sem: nat,                                    // occupied slots of the channel
    acquired: int, released: int, created: int, destroyed: int, timeouts: int, errors: int,
    closedIds: seq<int>)

  const EMPTY := Pool([], 0, false, 0, 0, 0, 0, 0, 0, 0, 0, [])

  /** destroyLocked: the receive has a default case, so an empty channel is left alone. */
  function DestroyLocked(p: Pool, id: int): Pool {
    p.(destroyed := p.destroyed + 1, sem := if p.sem > 0 then p.sem - 1 else 0, closedIds := p.closedIds + [id])
  }

  predicate TooOld(cfg: Config, conn: Conn, now: int) {
    cfg.maxLifetime > 0 && now - conn.createdAt > cfg.maxLifetime
  }

  predicate TooIdle(cfg: Config, conn: Conn, now: int) {
    cfg.idleTimeout > 0 && now - conn.lastUsed > cfg.idleTimeout
  }

  /** getIdle: pops from the back, destroying what has outlived its limits. */
  function GetIdle(cfg: Config, p: Pool, now: int): (Pool, Option<Conn>)
    decreases |p.idle|
  {
    if p.idle == [] then (p, None) else
    var conn := p.idle[|p.idle| - 1];
    var rest := p.(idle := p.idle[..|p.idle| - 1]);
    if TooOld(cfg, conn, now) || TooIdle(cfg, conn, now) then GetIdle(cfg, DestroyLocked(rest, conn.id), now)
    else (rest.(active := p.active + 1), Some(conn.(lastUsed := now, useCount := conn.useCount + 1)))
  }

  function Release(cfg: Config, p: Pool, conn: Conn, now: int): Pool {
    var q := p.(active := p.active - 1, released := p.released + 1);
    if p.closed || TooOld(cfg, conn, now) then DestroyLocked(q, conn.id)
    else q.(idle := q.idle + [conn.(lastUsed := now)])
  }

  function Destroy(p: Pool, conn: Conn): Pool {
    DestroyLocked(p.(active := p.active - 1), conn.id)
  }

  function DestroyAll(p: Pool, conns: seq<Conn>): Pool
    decreases |conns|
  {
    if conns == [] then p else DestroyAll(DestroyLocked(p, conns[0].id), conns[1..])
  }

  function Close(p: Pool): Pool {
    if p.closed then p else DestroyAll(p.(closed := true), p.idle).(idle := [])
  }

  // One Acquire and the Release or Destroy that ends it.

  datatype Failure = PoolClosed | TimedOut | CreateFailed

  datatype Pc =
    | Start                       // read p.closed
    | Open                        // getIdle
    | Waiting                     // select: sem, timer, ctx
    | Creating                    // call the factory
    | GivingBack                  // <-p.sem after a failed create
    | Erring                      // stats.errors.Add(1)
    | Dialled                     // value exists: nextID.Add(1)
    | Numbered(id: int)           // stats.created.Add(1), CreatedAt: time.Now()
    | Stamped(id: int, createdAt: int)   // LastUsed: time.Now()
    | Built(conn: Conn)           // p.active++
    | Handing(conn: Conn)         // stats.acquired.Add(1)
    | Holding(conn: Conn)         // the caller's
    | Finished
    | Failed(why: Failure)

  datatype Choice = At(now: int) | GiveUp | Discard

  datatype Move = Blocked | Move(pool: Pool, pc: Pc)

  /** One step of a goroutine: `At` gives the clock, `GiveUp` a timeout or a failing factory, `Discard` a Destroy. */
  function Act(cfg: Config, p: Pool, pc: Pc, ch: Choice): Move {
    match pc
    case Start => if p.closed then Move(p, Failed(PoolClosed)) else Move(p, Open)
    case Open =>
      if !ch.At? then Blocked else
      (match GetIdle(cfg, p, ch.now)
       case (q, Some(conn)) => Move(q, Handing(conn))
       case (q, None) => Move(q, Waiting))
    case Waiting =>
      if ch.GiveUp? then Move(p.(timeouts := p.timeouts + 1), Failed(TimedOut))
      else if p.sem < cfg.maxSize then Move(p.(sem := p.sem + 1), Creating)
      else Blocked
    case Creating => if ch.GiveUp? then Move(p, GivingBack) else Move(p, Dialled)
    case GivingBack =>
      if p.sem == 0 then Blocked else Move(p.(sem := p.sem - 1), Erring)
    case Erring => Move(p.(errors := p.errors + 1), Failed(CreateFailed))
    case Dialled => Move(p.(nextId := p.nextId + 1), Numbered(p.nextId + 1))
    case Numbered(id) =>
      if !ch.At? then Blocked else Move(p.(created := p.created + 1), Stamped(id, ch.now))
    case Stamped(id, createdAt) =>
      if !ch.At? then Blocked else Move(p, Built(Conn(id, createdAt, ch.now, 1)))
    case Built(conn) => Move(p.(active := p.active + 1), Handing(conn))
    case Handing(conn) => Move(p.(acquired := p.acquired + 1), Holding(conn))
    case Holding(conn) =>
      (match ch
       case At(now) => Move(Release(cfg, p, conn, now), Finished)
       case Discard => Move(Destroy(p, conn), Finished)
       case GiveUp => Blocked)
    case Finished => Blocked
    case Failed(_) => Blocked
  }

  datatype State = State(pool: Pool, threads: seq<Pc>)

  datatype Event = Thread(i: nat, choice: Choice) | ClosePool

  function Init(n: nat): State {
    State(EMPTY, seq(n, i => Start))
  }

  function Step(cfg: Config, s: State, e: Event): Option<State> {
    match e
    case ClosePool => Some(s.(pool := Close(s.pool)))
    case Thread(i, ch) =>
      if i >= |s.threads| then None else
      match Act(cfg, s.pool, s.threads[i], ch)
      case Blocked => None
      case Move(p, pc) => Some(State(p, s.threads[i := pc]))
  }

  function Exec(cfg: Config, s: State, run: seq<Event>): Option<State>
    decreases |run|
  {
    if run == [] then Some(s) else
    match Step(cfg, s, run[0])
    case None => None
    case Some(s') => Exec(cfg, s', run[1..])
  }

  // Where connections and slots are.

  predicate InFlight(pc: Pc) { pc.Creating? || pc.GivingBack? || pc.Dialled? || pc.Numbered? || pc.Stamped? || pc.Built? }
  predicate IsActive(pc: Pc) { pc.Handing? || pc.Holding? }
  predicate HasConnection(pc: Pc) { pc.Dialled? || pc.Numbered? || pc.Stamped? || pc.Built? || pc.Handing? || pc.Holding? }
  predicate HasCounted(pc: Pc) { pc.Stamped? || pc.Built? || pc.Handing? || pc.Holding? }
  predicate HasSlot(pc: Pc) { InFlight(pc) || IsActive(pc) }
  predicate IsSettled(pc: Pc) { pc.Start? || pc.Open? || pc.Waiting? || pc.Erring? || pc.Finished? || pc.Failed? }

  predicate IsNumbered(pc: Pc) { pc.Numbered? }

  predicate HasId(pc: Pc, id: int) {
    match pc
    case Numbered(n) => n == id
    case Stamped(n, _) => n == id
    case Built(c) => c.id == id
    case Handing(c) => c.id == id
    case Holding(c) => c.id == id
    case _ => false
  }

  /** How often an id occurs among the closed connections, the idle ones, and the goroutines. */
  function ClosedTimes(ids: seq<int>, id: int): nat {
    if ids == [] then 0 else ClosedTimes(ids[..|ids| - 1], id) + Bit(ids[|ids| - 1] == id)
  }

  function IdleTimes(conns: seq<Conn>, id: int): nat {
    if conns == [] then 0 else IdleTimes(conns[..|conns| - 1], id) + Bit(conns[|conns| - 1].id == id)
  }

  function PoolTimes(p: Pool, id: int): nat {
    ClosedTimes(p.closedIds, id) + IdleTimes(p.idle, id)
  }

  function Has(id: int): Pc -> bool {
    (pc: Pc) => HasId(pc, id)
  }

  function ThreadTimes(threads: seq<Pc>, id: int): nat {
    Count(threads, Has(id))
  }

  /** getIdle frees one slot for each connection it destroys and hands on the slot of the one it returns. */
  lemma {:induction false} GetIdleBalances(cfg: Config, p: Pool, now: int)
    requires p.sem >= |p.idle|
    ensures var (q, r) := GetIdle(cfg, p, now);
            && q.sem - |q.idle| - Bit(r.Some?) == p.sem - |p.idle| && q.sem <= p.sem
            && q.active - Bit(r.Some?) == p.active
            && q.created == p.created && q.destroyed - p.destroyed == |p.idle| - |q.idle| - Bit(r.Some?)
            && q.destroyed - |q.closedIds| == p.destroyed - |p.closedIds|
            && q.closed == p.closed && q.nextId == p.nextId && |q.idle| <= |p.idle|
    decreases |p.idle|
  {
    if p.idle != [] {
      var conn := p.idle[|p.idle| - 1];
      if TooOld(cfg, conn, now) || TooIdle(cfg, conn, now) {
        GetIdleBalances(cfg, DestroyLocked(p.(idle := p.idle[..|p.idle| - 1]), conn.id), now);
      }
    }
  }

  lemma DestroyCounts(p: Pool, id: int, other: int)
    ensures PoolTimes(DestroyLocked(p, id), other) == PoolTimes(p, other) + Bit(id == other)
  {
    assert (p.closedIds + [id])[..|p.closedIds|] == p.closedIds;
  }

  /** getIdle only moves ids from the idle list to the closer or to its caller. */
  lemma {:induction false} GetIdleKeepsIds(cfg: Config, p: Pool, now: int, id: int)
    ensures var (q, r) := GetIdle(cfg, p, now);
            PoolTimes(q, id) + Bit(r.Some? && r.value.id == id) == PoolTimes(p, id)
    decreases |p.idle|
  {
    if p.idle != [] {
      var conn := p.idle[|p.idle| - 1];
      if TooOld(cfg, conn, now) || TooIdle(cfg, conn, now) {
        var rest := p.(idle := p.idle[..|p.idle| - 1]);
        DestroyCounts(rest, conn.id, id);
        GetIdleKeepsIds(cfg, DestroyLocked(rest, conn.id), now, id);
      }
    }
  }

  lemma ReleaseKeepsIds(cfg: Config, p: Pool, conn: Conn, now: int, id: int)
    ensures PoolTimes(Release(cfg, p, conn, now), id) == PoolTimes(p, id) + Bit(conn.id == id)
  {
    if p.closed || TooOld(cfg, conn, now) {
      DestroyCounts(p.(active := p.active - 1, released := p.released + 1), conn.id, id);
    } else {
      assert (p.idle + [conn.(lastUsed := now)])[..|p.idle|] == p.idle;
    }
  }

  /** Close's loop: one slot and one closer call for each idle connection. */
  lemma {:induction false} DestroyAllBalances(p: Pool, conns: seq<Conn>)
    requires p.sem >= |conns|
    ensures var q := DestroyAll(p, conns);
            && q == p.(sem := p.sem - |conns|, destroyed := p.destroyed + |conns|, closedIds := q.closedIds)
            && |q.closedIds| == |p.closedIds| + |conns|
    decreases |conns|
  {
    if conns != [] {
      DestroyAllBalances(DestroyLocked(p, conns[0].id), conns[1..]);
    }
  }

  lemma {:induction false} IdleTimesFront(conns: seq<Conn>, id: int)
    requires conns != []
    ensures IdleTimes(conns, id) == Bit(conns[0].id == id) + IdleTimes(conns[1..], id)
  {
    if |conns| > 1 {
      IdleTimesFront(conns[..|conns| - 1], id);
      assert conns[..|conns| - 1][1..] == conns[1..][..|conns| - 2];
    }
  }

  lemma {:induction false} DestroyAllKeepsIds(p: Pool, conns: seq<Conn>, id: int)
    ensures var q := DestroyAll(p, conns);
            && ClosedTimes(q.closedIds, id) == ClosedTimes(p.closedIds, id) + IdleTimes(conns, id)
            && q.closed == p.closed && q.nextId == p.nextId
    decreases |conns|
  {
    if conns != [] {
      DestroyCounts(p, conns[0].id, id);
      DestroyAllKeepsIds(DestroyLocked(p, conns[0].id), conns[1..], id);
      IdleTimesFront(conns, id);
    }
  }

  /** What every step keeps of the sums, given that each connection in the pool's or the thread's hands has a slot. */
  lemma ActBalances(cfg: Config, p: Pool, pc: Pc, ch: Choice)
    requires p.sem >= |p.idle| + Bit(HasSlot(pc)) && Act(cfg, p, pc, ch).Move?
    ensures var Move(q, pc') := Act(cfg, p, pc, ch);
            && q.sem - |q.idle| - Bit(HasSlot(pc')) == p.sem - |p.idle| - Bit(HasSlot(pc))
            && (q.sem <= p.sem || q.sem <= cfg.maxSize)
            && q.active - Bit(IsActive(pc')) == p.active - Bit(IsActive(pc))
            && q.created - q.destroyed - |q.idle| - Bit(HasCounted(pc')) == p.created - p.destroyed - |p.idle| - Bit(HasCounted(pc))
            && q.destroyed - |q.closedIds| == p.destroyed - |p.closedIds|
            && q.nextId - q.created - Bit(IsNumbered(pc')) == p.nextId - p.created - Bit(IsNumbered(pc))
            && q.closed == p.closed && (p.closed && p.idle == [] ==> q.idle == [])
  {
    if pc.Open? && ch.At? {
      GetIdleBalances(cfg, p, ch.now);
    }
  }

  /** No step loses, duplicates or invents an id, except the one that draws the next. */
  lemma ActKeepsIds(cfg: Config, p: Pool, pc: Pc, ch: Choice, id: int)
    requires Act(cfg, p, pc, ch).Move?
    ensures var Move(q, pc') := Act(cfg, p, pc, ch);
            PoolTimes(q, id) + Bit(HasId(pc', id)) == PoolTimes(p, id) + Bit(HasId(pc, id)) + Bit(pc.Dialled? && id == p.nextId + 1)
  {
    if pc.Open? {
      GetIdleKeepsIds(cfg, p, ch.now, id);
    } else if pc.Holding? && ch.At? {
      ReleaseKeepsIds(cfg, p, pc.conn, ch.now, id);
    } else if pc.Holding? {
      DestroyCounts(p.(active := p.active - 1), pc.conn.id, id);
    }
  }

  lemma ActDraws(cfg: Config, p: Pool, pc: Pc, ch: Choice)
    requires p.sem >= |p.idle| && Act(cfg, p, pc, ch).Move?
    ensures Act(cfg, p, pc, ch).pool.nextId == p.nextId + Bit(pc.Dialled?)
  {
    if pc.Open? {
      GetIdleBalances(cfg, p, ch.now);
    }
  }

  ghost predicate Balanced(cfg: Config, s: State) {
    var p := s.pool;
    && p.sem <= cfg.maxSize
    && p.sem == |p.idle| + Count(s.threads, HasSlot)
    && p.active == Count(s.threads, IsActive)
    && p.created - p.destroyed == |p.idle| + Count(s.threads, HasCounted)
    && p.destroyed == |p.closedIds|
    && p.nextId == p.created + Count(s.threads, IsNumbered)
    && (p.closed ==> p.idle == [])
  }

  /** Every id ever drawn is in exactly one place: closed, idle, or with one goroutine. */
  ghost predicate Conserved(s: State) {
    forall id :: PoolTimes(s.pool, id) + ThreadTimes(s.threads, id) == Bit(1 <= id <= s.pool.nextId)
  }

  lemma InitBalanced(cfg: Config, n: nat)
    requires cfg.maxSize > 0
    ensures Balanced(cfg, Init(n)) && Conserved(Init(n))
  {
    var t := Init(n).threads;
    CountBounds(t, HasSlot);
    CountBounds(t, IsActive);
    CountBounds(t, HasCounted);
    CountBounds(t, IsNumbered);
    forall id ensures PoolTimes(EMPTY, id) + ThreadTimes(t, id) == 0 {
      CountBounds(t, Has(id));
    }
  }

  lemma ThreadKeepsBalanced(cfg: Config, s: State, i: nat, ch: Choice)
    requires Balanced(cfg, s) && Step(cfg, s, Thread(i, ch)).Some?
    ensures Balanced(cfg, Step(cfg, s, Thread(i, ch)).value)
    ensures s.pool.sem >= |s.pool.idle| + Bit(HasSlot(s.threads[i]))
  {
    var t, x := s.threads, Act(cfg, s.pool, s.threads[i], ch).pc;
    CountBounds(t, HasSlot);
    ActBalances(cfg, s.pool, t[i], ch);
    CountUpdate(t, i, x, HasSlot);
    CountUpdate(t, i, x, IsActive);
    CountUpdate(t, i, x, HasCounted);
    CountUpdate(t, i, x, IsNumbered);
  }

  lemma ThreadKeepsIds(cfg: Config, s: State, i: nat, ch: Choice)
    requires Balanced(cfg, s) && Conserved(s) && Step(cfg, s, Thread(i, ch)).Some?
    ensures Conserved(Step(cfg, s, Thread(i, ch)).value)
  {
    var t, x := s.threads, Act(cfg, s.pool, s.threads[i], ch).pc;
    var s' := Step(cfg, s, Thread(i, ch)).value;
    ActDraws(cfg, s.pool, t[i], ch);
    forall id ensures PoolTimes(s'.pool, id) + ThreadTimes(s'.threads, id) == Bit(1 <= id <= s'.pool.nextId) {
      ActKeepsIds(cfg, s.pool, t[i], ch, id);
      CountUpdate(t, i, x, Has(id));
      assert PoolTimes(s.pool, id) + ThreadTimes(t, id) == Bit(1 <= id <= s.pool.nextId);
    }
  }

  lemma CloseKeeps(cfg: Config, s: State)
    requires Balanced(cfg, s) && Conserved(s)
    ensures Balanced(cfg, s.(pool := Close(s.pool))) && Conserved(s.(pool := Close(s.pool)))
  {
    if !s.pool.closed {
      var open, q := s.pool.(closed := true), Close(s.pool);
      DestroyAllBalances(open, s.pool.idle);
      forall id ensures PoolTimes(q, id) + ThreadTimes(s.threads, id) == Bit(1 <= id <= q.nextId) {
        DestroyAllKeepsIds(open, s.pool.idle, id);
        assert PoolTimes(s.pool, id) + ThreadTimes(s.threads, id) == Bit(1 <= id <= s.pool.nextId);
      }
    }
  }

  lemma {:induction false} RunKeeps(cfg: Config, s: State, run: seq<Event>)
    requires Balanced(cfg, s) && Conserved(s) && Exec(cfg, s, run).Some?
    ensures Balanced(cfg, Exec(cfg, s, run).value) && Conserved(Exec(cfg, s, run).value)
    decreases |run|
  {
    if run != [] {
      if run[0].ClosePool? {
        CloseKeeps(cfg, s);
      } else {
        ThreadKeepsBalanced(cfg, s, run[0].i, run[0].choice);
        ThreadKeepsIds(cfg, s, run[0].i, run[0].choice);
      }
      RunKeeps(cfg, Step(cfg, s, run[0]).value, run[1..]);
    }
  }

  ghost predicate Reaches(cfg: Config, n: nat, run: seq<Event>, s: State) {
    Exec(New(cfg), Init(n), run) == Some(s)
  }

  lemma ReachableKeeps(cfg: Config, n: nat, run: seq<Event>, s: State)
    requires Reaches(cfg, n, run, s)
    ensures Balanced(New(cfg), s) && Conserved(s)
  {
    InitBalanced(New(cfg), n);
    RunKeeps(New(cfg), Init(n), run);
  }

  /** In every interleaving the occupied slots are the idle, the active and the in-flight connections,
      created minus destroyed is what is left alive, and no more than MaxSize connections are alive. */
  lemma SlotsBalance(cfg: Config, n: nat, run: seq<Event>, s: State)
    requires Reaches(cfg, n, run, s)
    ensures s.pool.sem == |s.pool.idle| + s.pool.active + Count(s.threads, InFlight) <= New(cfg).maxSize
    ensures s.pool.created - s.pool.destroyed == |s.pool.idle| + Count(s.threads, HasCounted)
    ensures |s.pool.idle| + Count(s.threads, HasConnection) <= New(cfg).maxSize
    ensures 0 <= s.pool.destroyed <= s.pool.created
  {
    ReachableKeeps(cfg, n, run, s);
    CountSplit(s.threads, HasSlot, InFlight, IsActive);
    CountMono(s.threads, HasConnection, HasSlot);
  }

  ghost predicate HeldOnce(s: State) {
    && (forall i, j, id | 0 <= i < j < |s.threads| && HasId(s.threads[i], id) :: !HasId(s.threads[j], id))
    && (forall i, id | 0 <= i < |s.threads| && HasId(s.threads[i], id) :: PoolTimes(s.pool, id) == 0)
    && (forall id :: PoolTimes(s.pool, id) <= 1)
  }

  lemma ConservedHeldOnce(s: State)
    requires Conserved(s)
    ensures HeldOnce(s)
  {
    forall i, j, id | 0 <= i < j < |s.threads| && HasId(s.threads[i], id) ensures !HasId(s.threads[j], id) {
      assert PoolTimes(s.pool, id) + ThreadTimes(s.threads, id) <= 1;
      if HasId(s.threads[j], id) {
        CountTwo(s.threads, i, j, Has(id));
      }
    }
    forall i, id | 0 <= i < |s.threads| && HasId(s.threads[i], id) ensures PoolTimes(s.pool, id) == 0 {
      CountBounds(s.threads, Has(id));
      assert PoolTimes(s.pool, id) + ThreadTimes(s.threads, id) <= 1;
    }
    forall id ensures PoolTimes(s.pool, id) <= 1 {
      assert PoolTimes(s.pool, id) + ThreadTimes(s.threads, id) <= 1;
    }
  }

  /** No connection has two holders, or is idle or closed while held; none is closed twice or kept
      after it was closed, as its id occurs at most once among the closed and the idle. */
  lemma SingleHolder(cfg: Config, n: nat, run: seq<Event>, s: State)
    requires Reaches(cfg, n, run, s)
    ensures HeldOnce(s)
  {
    ReachableKeeps(cfg, n, run, s);
    ConservedHeldOnce(s);
  }

  /** A closed pool whose callers have all given their connections back has closed each connection it
      ever created, once, and has every slot free again. */
  lemma DrainedPool(cfg: Config, n: nat, run: seq<Event>, s: State)
    requires Reaches(cfg, n, run, s) && s.pool.closed
    requires forall i | 0 <= i < |s.threads| :: IsSettled(s.threads[i])
    ensures s.pool.sem == 0 && s.pool.active == 0 && s.pool.created == s.pool.destroyed == s.pool.nextId
    ensures forall id :: ClosedTimes(s.pool.closedIds, id) == Bit(1 <= id <= s.pool.nextId)
  {
    ReachableKeeps(cfg, n, run, s);
    forall i | 0 <= i < |s.threads|
      ensures !HasSlot(s.threads[i]) && !HasCounted(s.threads[i]) && !IsNumbered(s.threads[i])
    {
      assert IsSettled(s.threads[i]);
    }
    CountBounds(s.threads, HasSlot);
    CountBounds(s.threads, IsActive);
    CountBounds(s.threads, HasCounted);
    CountBounds(s.threads, IsNumbered);
    forall id ensures ClosedTimes(s.pool.closedIds, id) == Bit(1 <= id <= s.pool.nextId) {
      CountBounds(s.threads, Has(id));
      assert PoolTimes(s.pool, id) + ThreadTimes(s.threads, id) == Bit(1 <= id <= s.pool.nextId);
    }
  }

  /** No slot receive blocks and the default case of destroyLocked is never what saves it: whoever gives
      a connection or a slot back finds the channel non-empty. Every unfinished goroutine can move on. */
  lemma NeverStuck(cfg: Config, n: nat, run: seq<Event>, s: State, i: nat)
    requires Reaches(cfg, n, run, s) && i < |s.threads|
    ensures HasSlot(s.threads[i]) ==> s.pool.sem > |s.pool.idle|
    ensures s.threads[i].Finished? || s.threads[i].Failed? ||
            exists ch :: Step(New(cfg), s, Thread(i, ch)).Some?
  {
    ReachableKeeps(cfg, n, run, s);
    CountBounds(s.threads, HasSlot);
    var pc := s.threads[i];
    var ch := if pc.Waiting? then GiveUp else At(0);
    assert pc.Finished? || pc.Failed? || Step(New(cfg), s, Thread(i, ch)).Some?;
  }

  /** A goroutine waiting for capacity gets on exactly when fewer than MaxSize connections are alive or
      being created; a connection released into the idle list does not help it, only a destroyed one. */
  lemma WaiterNeedsFreeSlot(cfg: Config, n: nat, run: seq<Event>, s: State, i: nat, now: int)
    requires Reaches(cfg, n, run, s) && i < |s.threads| && s.threads[i].Waiting?
    ensures Step(New(cfg), s, Thread(i, At(now))).Some? <==>
              |s.pool.idle| + s.pool.active + Count(s.threads, InFlight) < New(cfg).maxSize
  {
    SlotsBalance(cfg, n, run, s);
  }
}
