/** packages/golib/distlock/distlock.go: lease locks with expiry, owner checks and fencing tokens.

    The first part describes each critical section as a function on values; a *Lock is named by its
    fencing token, which no two locks share, so the aliasing between the backend's entry and a
    Mutex's lock field (Renew changes both) is kept. DistlockObjects holds the Go objects. */
module Distlock {
  import opened Wrappers

  datatype Error = NotAcquired | Expired | StaleToken | Cancelled

  const DEFAULT_TTL := 30_000_000_000

  datatype Lease = Lease(key: string, owner: string, expiresAt: int)

  predicate IsExpired(l: Lease, now: int) {
    now > l.expiresAt
  }

  /** Every lock ever handed out, which of them the map holds, and the token counter. */
  datatype Store = Store(leases: map<int, Lease>, locks: map<string, int>, tokenSeq: int)

  const EMPTY := Store(map[], map[], 0)

  ghost predicate Wellformed(b: Store) {
    && 0 <= b.tokenSeq
    && (forall t :: t in b.leases <==> 1 <= t <= b.tokenSeq)
    && (forall k | k in b.locks :: b.locks[k] in b.leases && b.leases[b.locks[k]].key == k)
  }

  /** TryAcquire reads the clock twice: `check` decides expiry, `stamp` dates the new lease. */
  function TryAcquire(b: Store, key: string, owner: string, ttl: int, check: int, stamp: int): (Store, Result<int, Error>)
    requires Wellformed(b)
  {
    if key in b.locks && !IsExpired(b.leases[b.locks[key]], check) && b.leases[b.locks[key]].owner != owner then
      (b, Err(NotAcquired))
    else
      var token := b.tokenSeq + 1;
      (Store(b.leases[token := Lease(key, owner, stamp + ttl)], b.locks[key := token], token), Ok(token))
  }

  function Release(b: Store, key: string, owner: string): (Store, Option<Error>)
    requires Wellformed(b)
  {
    if key !in b.locks then (b, None)
    else if b.leases[b.locks[key]].owner != owner then (b, Some(NotAcquired))
    else (b.(locks := b.locks - {key}), None)
  }

  function Renew(b: Store, key: string, owner: string, ttl: int, now: int): (Store, Option<Error>)
    requires Wellformed(b)
  {
    if key !in b.locks then (b, Some(Expired))
    else
      var token := b.locks[key];
      if b.leases[token].owner != owner then (b, Some(NotAcquired))
      else (b.(leases := b.leases[token := b.leases[token].(expiresAt := now + ttl)]), None)
  }

  function Validate(lastToken: int, token: int): (int, Option<Error>) {
    if token <= lastToken then (lastToken, Some(StaleToken)) else (token, None)
  }

  // The protocol: mutexes of any number of processes, a clock, one backend and one fencing guard.

  datatype Client = Client(key: string, owner: string, ttl: int)

  function NewMutex(key: string, owner: string, ttl: int): Client {
    Client(key, owner, if ttl <= 0 then DEFAULT_TTL else ttl)
  }

  /** Where the mutex's one thread is: between calls, between TryAcquire and `m.lock = lock`, or
      between Release and `m.lock = nil`. */
  datatype Pc = Ready | Publishing(token: int) | Clearing

  datatype Mutex = Mutex(lock: Option<int>, pc: Pc, seen: set<int>)

  datatype World = World(
    now: int, store: Store, mutexes: seq<Mutex>,
    guard: int,               // FencingGuard.lastToken
    holders: seq<nat>,        // holders[k]: who made acquisition number k + 1
    accepted: seq<Accepted>)  // writes the guard let through, in order

  datatype Accepted = Accepted(writer: nat, token: int)

  datatype Event =
    | Tick(d: nat)
    | Acquire(i: nat, lag: nat)     // Lock's loop, TryLock: the backend call, the second clock read lagging
    | Publish(i: nat)
    | Unlock(i: nat)
    | Clear(i: nat)
    | Extend(i: nat)                // Mutex.Renew
    | Write(i: nat, token: int)     // a write under any lock the client ever saw, however late

  function Init(clients: seq<Client>, now: int): World {
    World(now, EMPTY, seq(|clients|, i => Mutex(None, Ready, {})), 0, [], [])
  }

  ghost predicate Shaped(clients: seq<Client>, w: World) {
    Wellformed(w.store) && |w.mutexes| == |clients|
  }

  /** None when the event is not possible in w. */
  function Step(clients: seq<Client>, w: World, e: Event): (r: Option<World>)
    requires Shaped(clients, w)
    ensures r.Some? ==> Shaped(clients, r.value)
  {
    if e.Tick? then Some(w.(now := w.now + e.d))
    else if e.i >= |clients| then None
    else
      var m, c := w.mutexes[e.i], clients[e.i];
      match e
      case Acquire(i, lag) =>
        if !m.pc.Ready? then None else
        (match TryAcquire(w.store, c.key, c.owner, c.ttl, w.now, w.now + lag)
         case (_, Err(_)) => Some(w.(now := w.now + lag))
         case (store, Ok(token)) =>
           Some(w.(now := w.now + lag, store := store, holders := w.holders + [i],
                   mutexes := w.mutexes[i := m.(pc := Publishing(token))])))
      case Publish(i) =>
        if !m.pc.Publishing? then None
        else Some(w.(mutexes := w.mutexes[i := Mutex(Some(m.pc.token), Ready, m.seen + {m.pc.token})]))
      case Unlock(i) =>
        if !m.pc.Ready? then None
        else if m.lock.None? then Some(w)
        else Some(w.(store := Release(w.store, c.key, c.owner).0, mutexes := w.mutexes[i := m.(pc := Clearing)]))
      case Clear(i) =>
        if !m.pc.Clearing? then None
        else Some(w.(mutexes := w.mutexes[i := m.(lock := None, pc := Ready)]))
      case Extend(i) =>
        if !m.pc.Ready? then None
        else if m.lock.None? then Some(w)
        else Some(w.(store := Renew(w.store, c.key, c.owner, c.ttl, w.now).0))
      case Write(i, token) =>
        if token !in m.seen then None
        else
          var (last, err) := Validate(w.guard, token);
          Some(w.(guard := last, accepted := if err.None? then w.accepted + [Accepted(i, token)] else w.accepted))
  }

  /** Client i holds lock t: it is the one it will publish, or m.lock outside Unlock. */
  predicate Holds(w: World, i: nat, t: int)
    requires i < |w.mutexes|
  {
    var m := w.mutexes[i];
    m.pc == Publishing(t) || (m.lock == Some(t) && !m.pc.Clearing?)
  }

  predicate HoldsLive(w: World, i: nat, t: int)
    requires i < |w.mutexes|
  {
    Holds(w, i, t) && t in w.store.leases && !IsExpired(w.store.leases[t], w.now)
  }

  /** No two mutexes on one key hold an unexpired lock. */
  ghost predicate Exclusive(clients: seq<Client>, w: World)
    requires |w.mutexes| == |clients|
  {
    forall i, j, t, u | 0 <= i < j < |clients| && clients[i].key == clients[j].key ::
      !(HoldsLive(w, i, t) && HoldsLive(w, j, u))
  }

  predicate DistinctOwners(clients: seq<Client>) {
    forall i, j | 0 <= i < j < |clients| && clients[i].key == clients[j].key :: clients[i].owner != clients[j].owner
  }

  predicate PositiveTtls(clients: seq<Client>) {
    forall c | c in clients :: c.ttl > 0
  }

  /** Acquisition number t was made by a client whose key, owner and ttl its lease carries. */
  ghost predicate Recorded(clients: seq<Client>, w: World, t: int)
    requires Wellformed(w.store)
  {
    1 <= t <= |w.holders| && t in w.store.leases && w.holders[t - 1] < |clients| &&
    var c, l := clients[w.holders[t - 1]], w.store.leases[t];
    l.key == c.key && l.owner == c.owner && l.expiresAt <= w.now + c.ttl
  }

  /** An unexpired lock of client i is backed by the backend's entry: same client, expiry no earlier,
      and the very same lock unless the client has just acquired again. */
  ghost predicate Backed(clients: seq<Client>, w: World, i: nat, t: int)
    requires Wellformed(w.store) && i < |clients|
  {
    var b, key := w.store, clients[i].key;
    && Recorded(clients, w, t) && w.holders[t - 1] == i
    && (!IsExpired(b.leases[t], w.now) ==>
          && key in b.locks && Recorded(clients, w, b.locks[key])
          && w.holders[b.locks[key] - 1] == i
          && b.leases[b.locks[key]].expiresAt >= b.leases[t].expiresAt)
  }

  ghost predicate ClientOk(clients: seq<Client>, w: World, i: nat)
    requires Wellformed(w.store) && i < |clients| == |w.mutexes|
  {
    var m, b, key := w.mutexes[i], w.store, clients[i].key;
    && (m.lock.Some? && !m.pc.Clearing? ==> Backed(clients, w, i, m.lock.value))
    && (m.pc.Publishing? ==> Backed(clients, w, i, m.pc.token))
    && (m.pc.Publishing? && !IsExpired(b.leases[m.pc.token], w.now) ==> b.locks[key] == m.pc.token)
    && (m.pc.Ready? && m.lock.Some? && !IsExpired(b.leases[m.lock.value], w.now) ==> b.locks[key] == m.lock.value)
    && (forall t | t in m.seen :: 1 <= t <= |w.holders| && w.holders[t - 1] == i)
  }

  ghost predicate Inv(clients: seq<Client>, w: World) {
    && Wellformed(w.store) && |w.mutexes| == |clients|
    && w.store.tokenSeq == |w.holders|
    && (forall t | 1 <= t <= |w.holders| :: Recorded(clients, w, t))
    && (forall i | 0 <= i < |clients| :: ClientOk(clients, w, i))
  }

  lemma TickKeepsInv(clients: seq<Client>, w: World, d: nat)
    requires Inv(clients, w)
    ensures Inv(clients, w.(now := w.now + d))
  {
    var w' := w.(now := w.now + d);
    forall t | 1 <= t <= |w.holders| ensures Recorded(clients, w', t) {
      assert Recorded(clients, w, t);
    }
    forall i | 0 <= i < |clients| ensures ClientOk(clients, w', i) {
      assert ClientOk(clients, w, i);
    }
  }

  /** What a granted TryAcquire does to the world. */
  ghost predicate Granted(clients: seq<Client>, w: World, i: nat, lag: nat, w': World) {
    && i < |clients| == |w.mutexes| && w.mutexes[i].pc.Ready? && Wellformed(w.store)
    && var c, token := clients[i], w.store.tokenSeq + 1;
    && (c.key in w.store.locks ==>
          var l := w.store.leases[w.store.locks[c.key]];
          IsExpired(l, w.now) || l.owner == c.owner)
    && w'.now == w.now + lag
    && w'.store == Store(w.store.leases[token := Lease(c.key, c.owner, w'.now + c.ttl)], w.store.locks[c.key := token], token)
    && w'.holders == w.holders + [i]
    && w'.mutexes == w.mutexes[i := w.mutexes[i].(pc := Publishing(token))]
  }

  lemma GrantedRecords(clients: seq<Client>, w: World, i: nat, lag: nat, w': World)
    requires Inv(clients, w) && Granted(clients, w, i, lag, w')
    ensures forall t | 1 <= t <= |w'.holders| :: Recorded(clients, w', t)
  {
    forall t | 1 <= t <= |w'.holders| ensures Recorded(clients, w', t) {
      assert t <= |w.holders| ==> Recorded(clients, w, t);
    }
  }

  lemma GrantedToSelf(clients: seq<Client>, w: World, i: nat, lag: nat, w': World)
    requires Inv(clients, w) && PositiveTtls(clients) && Granted(clients, w, i, lag, w')
    ensures ClientOk(clients, w', i)
  {
    GrantedRecords(clients, w, i, lag, w');
    assert ClientOk(clients, w, i) && clients[i] in clients;
    var token := w.store.tokenSeq + 1;
    assert Recorded(clients, w', token);
    assert w'.holders[token - 1] == i;
    assert Backed(clients, w', i, token);
    if w.mutexes[i].lock.Some? {
      var t := w.mutexes[i].lock.value;
      assert Recorded(clients, w, t) && Recorded(clients, w', t);
    }
  }

  /** Another client on the same key can hold nothing live: its entry would be the unexpired one. */
  lemma GrantedToOther(clients: seq<Client>, w: World, i: nat, lag: nat, w': World, j: nat)
    requires Inv(clients, w) && DistinctOwners(clients) && Granted(clients, w, i, lag, w')
    requires j < |clients| && j != i
    ensures ClientOk(clients, w', j)
  {
    hide TryAcquire, Step;
    assert ClientOk(clients, w, j);
    if clients[i].key == clients[j].key {
      assert clients[i].owner != clients[j].owner;
    }
    if clients[j].key in w.store.locks {
      GrantedRecords(clients, w, i, lag, w');
      var t := w.store.locks[clients[j].key];
      assert Recorded(clients, w, t) && Recorded(clients, w', t);
    }
  }

  lemma AcquireKeepsInv(clients: seq<Client>, w: World, i: nat, lag: nat)
    requires Inv(clients, w) && DistinctOwners(clients) && PositiveTtls(clients)
    requires Step(clients, w, Acquire(i, lag)).Some?
    ensures Inv(clients, Step(clients, w, Acquire(i, lag)).value)
  {
    var w' := Step(clients, w, Acquire(i, lag)).value;
    TickKeepsInv(clients, w, lag);
    if w'.store != w.store {
      assert Granted(clients, w, i, lag, w');
      GrantedRecords(clients, w, i, lag, w');
      GrantedToSelf(clients, w, i, lag, w');
      forall j | 0 <= j < |clients| && j != i ensures ClientOk(clients, w', j) {
        GrantedToOther(clients, w, i, lag, w', j);
      }
    }
  }

  lemma ReleaseKeepsInv(clients: seq<Client>, w: World, i: nat)
    requires Inv(clients, w) && DistinctOwners(clients)
    requires Step(clients, w, Unlock(i)).Some?
    ensures Inv(clients, Step(clients, w, Unlock(i)).value)
  {
    var w' := Step(clients, w, Unlock(i)).value;
    forall t | 1 <= t <= |w'.holders| ensures Recorded(clients, w', t) {
      assert Recorded(clients, w, t);
    }
    forall j | 0 <= j < |clients| ensures ClientOk(clients, w', j) {
      assert ClientOk(clients, w, j);
    }
  }

  lemma ExtendKeepsInv(clients: seq<Client>, w: World, i: nat)
    requires Inv(clients, w) && DistinctOwners(clients)
    requires Step(clients, w, Extend(i)).Some?
    ensures Inv(clients, Step(clients, w, Extend(i)).value)
  {
    var w' := Step(clients, w, Extend(i)).value;
    forall t | 1 <= t <= |w'.holders| ensures Recorded(clients, w', t) {
      assert Recorded(clients, w, t);
    }
    forall j | 0 <= j < |clients| ensures ClientOk(clients, w', j) {
      assert ClientOk(clients, w, j);
    }
  }

  /** A step that touches no lock, nor the mutex in question, leaves what is known about that mutex. */
  lemma Untouched(clients: seq<Client>, w: World, w': World, j: nat)
    requires Wellformed(w.store) && j < |clients| == |w.mutexes| == |w'.mutexes|
    requires w'.store == w.store && w'.now == w.now && w'.holders == w.holders && w'.mutexes[j] == w.mutexes[j]
    requires ClientOk(clients, w, j)
    ensures ClientOk(clients, w', j)
  {
  }

  lemma LocalStepSelf(clients: seq<Client>, w: World, e: Event)
    requires Inv(clients, w) && (e.Publish? || e.Clear? || e.Write?)
    requires Step(clients, w, e).Some?
    ensures ClientOk(clients, Step(clients, w, e).value, e.i)
  {
    hide TryAcquire, Release, Renew;
    assert ClientOk(clients, w, e.i);
  }

  lemma LocalStepKeepsInv(clients: seq<Client>, w: World, e: Event)
    requires Inv(clients, w) && (e.Publish? || e.Clear? || e.Write?)
    requires Step(clients, w, e).Some?
    ensures Inv(clients, Step(clients, w, e).value)
  {
    hide ClientOk, TryAcquire, Release, Renew;
    var w' := Step(clients, w, e).value;
    forall t | 1 <= t <= |w'.holders| ensures Recorded(clients, w', t) {
      assert Recorded(clients, w, t);
    }
    LocalStepSelf(clients, w, e);
    forall j | 0 <= j < |clients| && j != e.i ensures ClientOk(clients, w', j) {
      Untouched(clients, w, w', j);
    }
  }

  lemma StepKeepsInv(clients: seq<Client>, w: World, e: Event)
    requires Inv(clients, w) && DistinctOwners(clients) && PositiveTtls(clients)
    requires Step(clients, w, e).Some?
    ensures Inv(clients, Step(clients, w, e).value)
  {
    match e {
      case Tick(d) => TickKeepsInv(clients, w, d);
      case Acquire(i, lag) => AcquireKeepsInv(clients, w, i, lag);
      case Unlock(i) => ReleaseKeepsInv(clients, w, i);
      case Extend(i) => ExtendKeepsInv(clients, w, i);
      case _ => LocalStepKeepsInv(clients, w, e);
    }
  }

  /** Runs a schedule; None when some event of it is impossible where it stands. */
  function Exec(clients: seq<Client>, w: World, run: seq<Event>): (r: Option<World>)
    requires Shaped(clients, w)
    ensures r.Some? ==> Shaped(clients, r.value)
    decreases |run|
  {
    if run == [] then Some(w) else
    match Step(clients, w, run[0])
    case None => None
    case Some(w') => Exec(clients, w', run[1..])
  }

  ghost predicate Reaches(clients: seq<Client>, start: int, run: seq<Event>, w: World) {
    Exec(clients, Init(clients, start), run) == Some(w)
  }

  lemma {:induction false} RunKeepsInv(clients: seq<Client>, w: World, run: seq<Event>)
    requires Inv(clients, w) && DistinctOwners(clients) && PositiveTtls(clients)
    requires Exec(clients, w, run).Some?
    ensures Inv(clients, Exec(clients, w, run).value)
    decreases |run|
  {
    if run != [] {
      StepKeepsInv(clients, w, run[0]);
      RunKeepsInv(clients, Step(clients, w, run[0]).value, run[1..]);
    }
  }

  /** In every interleaving of lock, unlock, renew and clock steps, an unexpired lock is backed by the
      backend's entry for its key, which is the same client's and expires no earlier. */
  lemma LiveLockOwnsEntry(clients: seq<Client>, start: int, run: seq<Event>, w: World, i: nat, t: int)
    requires DistinctOwners(clients) && PositiveTtls(clients) && Reaches(clients, start, run, w)
    requires i < |clients| && HoldsLive(w, i, t)
    ensures clients[i].key in w.store.locks
    ensures var entry := w.store.leases[w.store.locks[clients[i].key]];
            entry.owner == clients[i].owner && entry.expiresAt >= w.store.leases[t].expiresAt
  {
    RunKeepsInv(clients, Init(clients, start), run);
    assert ClientOk(clients, w, i);
  }

  lemma NotBoth(clients: seq<Client>, w: World, i: nat, j: nat, t: int, u: int)
    requires Inv(clients, w) && DistinctOwners(clients) && i < j < |clients| && clients[i].key == clients[j].key
    ensures !(HoldsLive(w, i, t) && HoldsLive(w, j, u))
  {
    assert ClientOk(clients, w, i) && ClientOk(clients, w, j);
  }

  /** So with distinct owners two mutexes on one key never hold unexpired locks at the same time. */
  lemma MutualExclusion(clients: seq<Client>, start: int, run: seq<Event>, w: World)
    requires DistinctOwners(clients) && PositiveTtls(clients) && Reaches(clients, start, run, w)
    ensures |w.mutexes| == |clients| && Exclusive(clients, w)
  {
    RunKeepsInv(clients, Init(clients, start), run);
    hide ClientOk, HoldsLive, Recorded, DistinctOwners;
    forall i, j, t, u | 0 <= i < j < |clients| && clients[i].key == clients[j].key
      ensures !(HoldsLive(w, i, t) && HoldsLive(w, j, u))
    {
      NotBoth(clients, w, i, j, t, u);
    }
  }

  lemma ExecStep(clients: seq<Client>, w: World, e: Event, w': World, run: seq<Event>)
    requires Shaped(clients, w) && Step(clients, w, e) == Some(w')
    ensures Exec(clients, w, [e] + run) == Exec(clients, w', run)
  {
    assert ([e] + run)[1..] == run;
  }

  /** Two mutexes that share key and owner can both hold the lock: TryAcquire lets an owner in again. */
  lemma SharedOwnerBothHold(clients: seq<Client>, i: nat, j: nat) returns (run: seq<Event>, w: World)
    requires PositiveTtls(clients) && i < j < |clients|
    requires clients[i].key == clients[j].key && clients[i].owner == clients[j].owner
    ensures Reaches(clients, 0, run, w) && |w.mutexes| == |clients| && !Exclusive(clients, w)
  {
    var w0, ci, cj := Init(clients, 0), clients[i], clients[j];
    assert ci in clients && cj in clients;
    var s1 := TryAcquire(EMPTY, ci.key, ci.owner, ci.ttl, 0, 0).0;
    var w1 := w0.(store := s1, holders := [i], mutexes := w0.mutexes[i := Mutex(None, Publishing(1), {})]);
    var s2 := TryAcquire(s1, cj.key, cj.owner, cj.ttl, 0, 0).0;
    w := w1.(store := s2, holders := [i] + [j], mutexes := w1.mutexes[j := Mutex(None, Publishing(2), {})]);
    assert [] + [i] == [i];
    ExecStep(clients, w1, Acquire(j, 0), w, []);
    ExecStep(clients, w0, Acquire(i, 0), w1, [Acquire(j, 0)] + []);
    run := [Acquire(i, 0)] + ([Acquire(j, 0)] + []);
    assert HoldsLive(w, i, 1) && HoldsLive(w, j, 2);
  }

  /** Distinct owners per key are exactly what mutual exclusion over all runs needs. */
  lemma ExclusionIffDistinctOwners(clients: seq<Client>)
    requires PositiveTtls(clients)
    ensures DistinctOwners(clients) <==>
              forall start, run, w | Reaches(clients, start, run, w) :: |w.mutexes| == |clients| && Exclusive(clients, w)
  {
    if DistinctOwners(clients) {
      forall start, run, w | Reaches(clients, start, run, w) ensures |w.mutexes| == |clients| && Exclusive(clients, w) {
        MutualExclusion(clients, start, run, w);
      }
    } else {
      var i, j :| 0 <= i < j < |clients| && clients[i].key == clients[j].key && clients[i].owner == clients[j].owner;
      var run, w := SharedOwnerBothHold(clients, i, j);
    }
  }

  // Fencing needs no assumption on owners.

  ghost predicate TokensKnown(w: World) {
    && w.store.tokenSeq == |w.holders|
    && (forall i, t | 0 <= i < |w.mutexes| && t in w.mutexes[i].seen :: 1 <= t <= |w.holders| && w.holders[t - 1] == i)
    && (forall i | 0 <= i < |w.mutexes| && w.mutexes[i].pc.Publishing? ::
          1 <= w.mutexes[i].pc.token <= |w.holders| && w.holders[w.mutexes[i].pc.token - 1] == i)
  }

  ghost predicate LogOrdered(w: World) {
    && (forall a | 0 <= a < |w.accepted| ::
          1 <= w.accepted[a].token <= |w.holders| && w.holders[w.accepted[a].token - 1] == w.accepted[a].writer)
    && (forall a, b | 0 <= a < b < |w.accepted| :: w.accepted[a].token < w.accepted[b].token)
    && w.guard == if w.accepted == [] then 0 else w.accepted[|w.accepted| - 1].token
  }

  ghost predicate FenceInv(clients: seq<Client>, w: World) {
    Shaped(clients, w) && TokensKnown(w) && LogOrdered(w)
  }

  ghost predicate Extends(w: World, w': World) {
    w.holders <= w'.holders && w.accepted <= w'.accepted
  }

  lemma AcquireFences(clients: seq<Client>, w: World, i: nat, lag: nat)
    requires FenceInv(clients, w) && Step(clients, w, Acquire(i, lag)).Some?
    ensures FenceInv(clients, Step(clients, w, Acquire(i, lag)).value)
    ensures Extends(w, Step(clients, w, Acquire(i, lag)).value)
  {
    var w' := Step(clients, w, Acquire(i, lag)).value;
    if w'.store != w.store {
      assert w'.holders[|w.holders|] == i;
    }
  }

  lemma WriteFences(clients: seq<Client>, w: World, i: nat, t: int)
    requires FenceInv(clients, w) && Step(clients, w, Write(i, t)).Some?
    ensures FenceInv(clients, Step(clients, w, Write(i, t)).value)
    ensures Extends(w, Step(clients, w, Write(i, t)).value)
  {
  }

  lemma OwnStepFences(clients: seq<Client>, w: World, e: Event)
    requires FenceInv(clients, w) && !e.Acquire? && !e.Write? && Step(clients, w, e).Some?
    ensures var w' := Step(clients, w, e).value;
            w'.accepted == w.accepted && w'.guard == w.guard && w'.holders == w.holders && TokensKnown(w')
  {
  }

  lemma StepFences(clients: seq<Client>, w: World, e: Event)
    requires FenceInv(clients, w) && Step(clients, w, e).Some?
    ensures FenceInv(clients, Step(clients, w, e).value) && Extends(w, Step(clients, w, e).value)
  {
    if e.Acquire? {
      AcquireFences(clients, w, e.i, e.lag);
    } else if e.Write? {
      WriteFences(clients, w, e.i, e.token);
    } else {
      OwnStepFences(clients, w, e);
    }
  }

  lemma {:induction false} RunFences(clients: seq<Client>, w: World, run: seq<Event>)
    requires FenceInv(clients, w) && Exec(clients, w, run).Some?
    ensures FenceInv(clients, Exec(clients, w, run).value) && Extends(w, Exec(clients, w, run).value)
    decreases |run|
  {
    if run != [] {
      StepFences(clients, w, run[0]);
      RunFences(clients, Step(clients, w, run[0]).value, run[1..]);
    }
  }

  /** In every run, expiry and delayed writers included, the accepted writes are in acquisition order:
      each carries the number of an acquisition its own writer made, and the numbers strictly increase. */
  lemma AcceptedInAcquisitionOrder(clients: seq<Client>, start: int, run: seq<Event>, w: World)
    requires Reaches(clients, start, run, w)
    ensures forall a | 0 <= a < |w.accepted| ::
              1 <= w.accepted[a].token <= |w.holders| && w.holders[w.accepted[a].token - 1] == w.accepted[a].writer
    ensures forall a, b | 0 <= a < b < |w.accepted| :: w.accepted[a].token < w.accepted[b].token
  {
    RunFences(clients, Init(clients, start), run);
  }

  /** A lock granted at any point of any run carries a larger token than every lock granted before it. */
  lemma TokensIncrease(clients: seq<Client>, start: int, run: seq<Event>, w: World, i: nat, lag: nat)
    requires Reaches(clients, start, run, w) && Shaped(clients, w) && Step(clients, w, Acquire(i, lag)).Some?
    ensures var w' := Step(clients, w, Acquire(i, lag)).value;
            && (w'.store == w.store || w'.mutexes[i].pc.Publishing?)
            && (w'.store != w.store ==> forall t | 1 <= t <= |w.holders| :: t in w.store.leases && t < w'.mutexes[i].pc.token)
  {
    RunFences(clients, Init(clients, start), run);
  }

  lemma GuardRemembers(clients: seq<Client>, w: World, w': World, a: nat)
    requires FenceInv(clients, w) && FenceInv(clients, w') && Extends(w, w') && a < |w.accepted|
    ensures forall b | |w.accepted| <= b < |w'.accepted| :: w'.accepted[b].token > w.accepted[a].token
    ensures w'.guard >= w.accepted[a].token
  {
    assert w'.accepted[a] == w.accepted[a];
  }

  lemma StaleWriteIgnored(clients: seq<Client>, w: World, i: nat, t: int)
    requires Shaped(clients, w) && t <= w.guard && Step(clients, w, Write(i, t)).Some?
    ensures Step(clients, w, Write(i, t)).value == w
  {
  }

  /** Once a write under acquisition u is accepted, no run ever accepts one under an acquisition t <= u;
      and every lock granted after w carries a larger token than every lock granted before. */
  lemma StaleHolderStaysFenced(clients: seq<Client>, start: int, run: seq<Event>, w: World, more: seq<Event>, w': World, a: nat)
    requires Reaches(clients, start, run, w) && Shaped(clients, w) && Exec(clients, w, more) == Some(w') && a < |w.accepted|
    ensures Extends(w, w') && Shaped(clients, w')
    ensures forall b | |w.accepted| <= b < |w'.accepted| :: w'.accepted[b].token > w.accepted[a].token
    ensures forall i, t | t <= w.accepted[a].token && Step(clients, w', Write(i, t)).Some? ::
              Step(clients, w', Write(i, t)).value == w'
    ensures w.store.tokenSeq == |w.holders| && w'.store.tokenSeq == |w'.holders|
  {
    RunFences(clients, Init(clients, start), run);
    RunFences(clients, w, more);
    GuardRemembers(clients, w, w', a);
    forall i, t | t <= w.accepted[a].token && Step(clients, w', Write(i, t)).Some?
      ensures Step(clients, w', Write(i, t)).value == w'
    {
      StaleWriteIgnored(clients, w', i, t);
    }
  }
}
