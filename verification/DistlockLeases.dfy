/** When packages/golib/distlock/distlock.go grants a lease, how long it lasts, and when a guarded write
    goes through: what a client can count on, over the runs of module Distlock. */
module DistlockLeases {
  import opened Distlock
  import opened Wrappers

  /** Every lease on client i's key is of its own owner or has run out. */
  ghost predicate Unhindered(clients: seq<Client>, w: World, i: nat)
    requires i < |clients|
  {
    forall t | t in w.store.leases && w.store.leases[t].key == clients[i].key ::
      w.store.leases[t].owner == clients[i].owner || w.now > w.store.leases[t].expiresAt
  }

  /** The backend's entry for client i's key is another owner's and has not run out. */
  predicate Taken(clients: seq<Client>, w: World, i: nat)
    requires i < |clients|
  {
    var key := clients[i].key;
    && key in w.store.locks && w.store.locks[key] in w.store.leases
    && w.store.leases[w.store.locks[key]].owner != clients[i].owner
    && w.now <= w.store.leases[w.store.locks[key]].expiresAt
  }

  /** A client between calls is granted the lock exactly when its key is not taken; otherwise nothing but
      the clock changes. */
  lemma GrantedExactly(clients: seq<Client>, start: int, run: seq<Event>, w: World, i: nat, lag: nat)
    requires Reaches(clients, start, run, w) && i < |clients| == |w.mutexes| && w.mutexes[i].pc.Ready?
    ensures Shaped(clients, w) && Step(clients, w, Acquire(i, lag)).Some?
    ensures var v := Step(clients, w, Acquire(i, lag)).value;
            && (v.mutexes[i].pc.Publishing? <==> !Taken(clients, w, i))
            && (Taken(clients, w, i) ==> v == w.(now := w.now + lag))
  {
  }

  /** So it is granted whenever every lease ever given on its key is its own or has run out, */
  lemma GrantedWhenUnhindered(clients: seq<Client>, start: int, run: seq<Event>, w: World, i: nat, lag: nat)
    requires Reaches(clients, start, run, w) && i < |clients| == |w.mutexes| && w.mutexes[i].pc.Ready?
    requires Unhindered(clients, w, i)
    ensures Shaped(clients, w) && Step(clients, w, Acquire(i, lag)).Some?
    ensures Step(clients, w, Acquire(i, lag)).value.mutexes[i].pc.Publishing?
  {
    GrantedExactly(clients, start, run, w, i, lag);
    if clients[i].key in w.store.locks {
      var t := w.store.locks[clients[i].key];
      assert t in w.store.leases && w.store.leases[t].key == clients[i].key;
    }
  }

  /** refused while another client holds a lock on it that has not run out, */
  lemma RefusedWhileHeld(clients: seq<Client>, start: int, run: seq<Event>, w: World, i: nat, j: nat, t: int, lag: nat)
    requires DistinctOwners(clients) && PositiveTtls(clients) && Reaches(clients, start, run, w)
    requires i < |clients| && j < |clients| && i != j && clients[i].key == clients[j].key
    requires |w.mutexes| == |clients| && w.mutexes[i].pc.Ready? && HoldsLive(w, j, t)
    ensures Shaped(clients, w) && Step(clients, w, Acquire(i, lag)) == Some(w.(now := w.now + lag))
  {
    LiveLockOwnsEntry(clients, start, run, w, j, t);
    assert clients[i].owner != clients[j].owner;
    GrantedExactly(clients, start, run, w, i, lag);
  }

  /** and granted after waiting long enough, whatever happened before: nobody blocks a key for ever. */
  lemma GrantedAfterWaiting(clients: seq<Client>, start: int, run: seq<Event>, w: World, i: nat) returns (d: nat)
    requires Reaches(clients, start, run, w) && i < |clients| == |w.mutexes| && w.mutexes[i].pc.Ready?
    ensures Shaped(clients, w)
    ensures forall e, lag | e >= d ::
              var u := Step(clients, w, Tick(e)).value;
              Step(clients, u, Acquire(i, lag)).Some? && Step(clients, u, Acquire(i, lag)).value.mutexes[i].pc.Publishing?
  {
    var key := clients[i].key;
    d := if Taken(clients, w, i) then w.store.leases[w.store.locks[key]].expiresAt - w.now + 1 else 0;
    assert Wellformed(w.store);
    forall e: nat, lag | e >= d
      ensures var u := Step(clients, w, Tick(e)).value;
              Step(clients, u, Acquire(i, lag)).Some? && Step(clients, u, Acquire(i, lag)).value.mutexes[i].pc.Publishing?
    {
      var u := w.(now := w.now + e);
      assert !Taken(clients, u, i);
    }
  }

  /** A lock granted is held from then on for exactly its ttl. */
  lemma LeaseLasts(clients: seq<Client>, start: int, run: seq<Event>, w: World, i: nat, lag: nat, d: nat)
    requires Reaches(clients, start, run, w) && i < |clients| == |w.mutexes| && w.mutexes[i].pc.Ready?
    requires Shaped(clients, w) && !Taken(clients, w, i)
    ensures Step(clients, w, Acquire(i, lag)).Some?
    ensures var v := Step(clients, w, Acquire(i, lag)).value;
            && v.mutexes[i].pc.Publishing? && v.now == w.now + lag
            && (HoldsLive(v.(now := v.now + d), i, v.mutexes[i].pc.token) <==> d <= clients[i].ttl)
  {
    GrantedExactly(clients, start, run, w, i, lag);
  }

  /** Publishing makes it the mutex's lock, and one the client may write under; clearing lets go of it. */
  lemma PublishAndClear(clients: seq<Client>, w: World, i: nat, t: int)
    requires Shaped(clients, w) && i < |clients|
    ensures w.mutexes[i].pc == Publishing(t) ==>
              && Step(clients, w, Publish(i)).Some?
              && var v := Step(clients, w, Publish(i)).value;
              && Holds(w, i, t) && Holds(v, i, t) && v.mutexes[i].lock == Some(t) && v.mutexes[i].pc.Ready?
              && v.store == w.store && Step(clients, v, Write(i, t)).Some?
    ensures w.mutexes[i].pc.Clearing? ==>
              && !Holds(w, i, t) && Step(clients, w, Clear(i)).Some?
              && var v := Step(clients, w, Clear(i)).value;
              !Holds(v, i, t) && v.mutexes[i].lock == None && v.mutexes[i].pc.Ready? && v.store == w.store
  {
  }

  /** The entry for its key is the client's own lock, run out or not. */
  predicate Owns(clients: seq<Client>, w: World, i: nat, t: int)
    requires i < |clients| == |w.mutexes|
  {
    w.mutexes[i].lock == Some(t) && clients[i].key in w.store.locks && w.store.locks[clients[i].key] == t
  }

  /** Renewing makes such a lock last for exactly the ttl from now on, even one that has run out. */
  lemma RenewalLasts(clients: seq<Client>, start: int, run: seq<Event>, w: World, i: nat, t: int, d: nat)
    requires DistinctOwners(clients) && PositiveTtls(clients) && Reaches(clients, start, run, w)
    requires i < |clients| == |w.mutexes| && w.mutexes[i].pc.Ready?
    requires HoldsLive(w, i, t) || Owns(clients, w, i, t)
    ensures Shaped(clients, w) && Step(clients, w, Extend(i)).Some?
    ensures HoldsLive(w, i, t) ==> Owns(clients, w, i, t)
    ensures var v := Step(clients, w, Extend(i)).value;
            HoldsLive(v.(now := v.now + d), i, t) <==> d <= clients[i].ttl
  {
    RunKeepsInv(clients, Init(clients, start), run);
    assert ClientOk(clients, w, i) && Recorded(clients, w, t);
  }

  /** After the holder's Unlock whoever tries next on that key is granted the lock at once. */
  lemma UnlockFrees(clients: seq<Client>, start: int, run: seq<Event>, w: World, i: nat, t: int, j: nat, lag: nat)
    requires DistinctOwners(clients) && PositiveTtls(clients) && Reaches(clients, start, run, w)
    requires i < |clients| == |w.mutexes| && w.mutexes[i].pc.Ready? && HoldsLive(w, i, t)
    requires j < |clients| && j != i && clients[j].key == clients[i].key && w.mutexes[j].pc.Ready?
    ensures Shaped(clients, w) && Step(clients, w, Unlock(i)).Some?
    ensures var u := Step(clients, w, Unlock(i)).value;
            Step(clients, u, Acquire(j, lag)).Some? && Step(clients, u, Acquire(j, lag)).value.mutexes[j].pc.Publishing?
  {
    RunKeepsInv(clients, Init(clients, start), run);
    assert ClientOk(clients, w, i);
    assert Recorded(clients, w, t);
  }

  /** And nobody else's Unlock ends a lock that has not run out. */
  lemma OthersUnlockKeeps(clients: seq<Client>, start: int, run: seq<Event>, w: World, i: nat, t: int, j: nat)
    requires DistinctOwners(clients) && PositiveTtls(clients) && Reaches(clients, start, run, w)
    requires i < |clients| == |w.mutexes| && HoldsLive(w, i, t)
    requires j < |clients| && j != i && clients[j].key == clients[i].key && w.mutexes[j].pc.Ready?
    ensures Shaped(clients, w) && Step(clients, w, Unlock(j)).Some?
    ensures Step(clients, w, Unlock(j)).value.store == w.store && HoldsLive(Step(clients, w, Unlock(j)).value, i, t)
  {
    LiveLockOwnsEntry(clients, start, run, w, i, t);
    assert clients[i].owner != clients[j].owner;
  }

  /** The guard lets a write through exactly when its token is larger than that of every write before. */
  lemma AcceptedExactly(clients: seq<Client>, start: int, run: seq<Event>, w: World, i: nat, t: int)
    requires Reaches(clients, start, run, w) && Shaped(clients, w) && Step(clients, w, Write(i, t)).Some?
    ensures Step(clients, w, Write(i, t)).value.accepted ==
            if forall a | a in w.accepted :: a.token < t then w.accepted + [Accepted(i, t)] else w.accepted
  {
    RunFences(clients, Init(clients, start), run);
    if w.accepted != [] {
      assert w.accepted[|w.accepted| - 1] in w.accepted;
    }
  }
}
