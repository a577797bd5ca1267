/** The Go objects of packages/golib/distlock/distlock.go, each method proved against the function of
    module Distlock that describes its critical section. Clock readings are parameters. */
module DistlockObjects {
  import opened Wrappers
  import D = Distlock

  class Lock {
    const key: string
    const fencingToken: int
    const owner: string
    var expiresAt: int

    constructor (key: string, fencingToken: int, owner: string, expiresAt: int)
      ensures this.key == key && this.fencingToken == fencingToken
      ensures this.owner == owner && this.expiresAt == expiresAt
    {
      this.key, this.fencingToken, this.owner, this.expiresAt := key, fencingToken, owner, expiresAt;
    }

    function Lease(): D.Lease
      reads this
    {
      D.Lease(key, owner, expiresAt)
    }
  }

  ghost function Leases(issued: map<int, Lock>): map<int, D.Lease>
    reads issued.Values
  {
    map t | t in issued :: issued[t].Lease()
  }

  function Tokens(locks: map<string, Lock>): map<string, int> {
    map k | k in locks :: locks[k].fencingToken
  }

  lemma LeasesPut(issued: map<int, Lock>, token: int, lock: Lock)
    requires token !in issued
    ensures Leases(issued[token := lock]) == Leases(issued)[token := lock.Lease()]
  {
  }

  lemma TokensPut(locks: map<string, Lock>, key: string, lock: Lock)
    ensures Tokens(locks[key := lock]) == Tokens(locks)[key := lock.fencingToken]
  {
  }

  lemma PutWellformed(before: D.Store, key: string, lease: D.Lease)
    requires D.Wellformed(before) && lease.key == key
    ensures var token := before.tokenSeq + 1;
            && token !in before.leases
            && D.Wellformed(D.Store(before.leases[token := lease], before.locks[key := token], token))
  {
  }

  /** A call by anyone else who uses the backend. */
  datatype Use =
    | Tries(key: string, owner: string, ttl: int, check: int, stamp: int)
    | Releases(key: string, owner: string)
    | Renews(key: string, owner: string, ttl: int, now: int)

  function Used(b: D.Store, u: Use): (r: D.Store)
    requires D.Wellformed(b)
    ensures D.Wellformed(r)
  {
    match u
    case Tries(key, owner, ttl, check, stamp) => D.TryAcquire(b, key, owner, ttl, check, stamp).0
    case Releases(key, owner) => D.Release(b, key, owner).0
    case Renews(key, owner, ttl, now) => D.Renew(b, key, owner, ttl, now).0
  }

  function UsedAll(b: D.Store, uses: seq<Use>): (r: D.Store)
    requires D.Wellformed(b)
    ensures D.Wellformed(r)
    decreases |uses|
  {
    if uses == [] then b else UsedAll(Used(b, uses[0]), uses[1..])
  }

  /** What attempt k meets when those before it were refused. */
  function Met(b: D.Store, others: seq<seq<Use>>, k: nat): (r: D.Store)
    requires D.Wellformed(b) && k < |others|
    ensures D.Wellformed(r)
  {
    UsedAll(if k == 0 then b else Met(b, others, k - 1), others[k])
  }

  ghost predicate Extends(before: map<int, Lock>, after: map<int, Lock>) {
    forall t | t in before :: t in after && after[t] == before[t]
  }

  class MemoryBackend {
    var locks: map<string, Lock>
    var tokenSeq: int
    /** Every lock ever returned, by token. */
    ghost var issued: map<int, Lock>

    ghost predicate Valid()
      reads this, issued.Values
    {
      && (forall t | t in issued :: issued[t].fencingToken == t)
      && (forall k | k in locks :: locks[k].fencingToken in issued && issued[locks[k].fencingToken] == locks[k])
      && D.Wellformed(View())
    }

    ghost function View(): D.Store
      reads this, issued.Values
    {
      D.Store(Leases(issued), Tokens(locks), tokenSeq)
    }

    constructor ()
      ensures Valid() && View() == D.EMPTY && issued == map[]
    {
      locks, tokenSeq, issued := map[], 0, map[];
    }

    method TryAcquire(key: string, owner: string, ttl: int, check: int, stamp: int) returns (r: Result<Lock, D.Error>)
      requires Valid()
      modifies this
      ensures Valid()
      ensures var (view, answer) := D.TryAcquire(old(View()), key, owner, ttl, check, stamp);
              && View() == view
              && (r.Ok? <==> answer.Ok?)
              && (r.Ok? ==> fresh(r.value) && r.value.fencingToken == answer.value && issued == old(issued)[answer.value := r.value])
              && (r.Err? ==> r.error == answer.error && issued == old(issued))
      ensures r.Err? <==> old(key in locks && locks[key].owner != owner && check <= locks[key].expiresAt)
      ensures r.Ok? ==> key in locks && locks[key] == r.value && r.value.owner == owner && r.value.expiresAt == stamp + ttl
    {
      if key in locks {
        var existing := locks[key];
        if !(check > existing.expiresAt) && existing.owner != owner {
          return Err(D.NotAcquired);
        }
      }
      var lock := Grant(key, owner, stamp + ttl);
      return Ok(lock);
    }

    /** A fresh lock under the next token, which becomes the entry. */
    method Grant(key: string, owner: string, expiresAt: int) returns (lock: Lock)
      requires Valid()
      modifies this
      ensures Valid() && fresh(lock) && lock.key == key && lock.owner == owner && lock.expiresAt == expiresAt
      ensures lock.fencingToken == tokenSeq == old(tokenSeq) + 1
      ensures locks == old(locks)[key := lock] && issued == old(issued)[tokenSeq := lock]
      ensures View() == D.Store(old(View()).leases[tokenSeq := D.Lease(key, owner, expiresAt)],
                                old(View()).locks[key := tokenSeq], tokenSeq)
    {
      ghost var before := View();
      var token := tokenSeq + 1;
      lock := new Lock(key, token, owner, expiresAt);
      PutWellformed(before, key, lock.Lease());
      LeasesPut(issued, token, lock);
      TokensPut(locks, key, lock);
      tokenSeq, locks, issued := token, locks[key := lock], issued[token := lock];
    }

    method Release(key: string, owner: string) returns (err: Option<D.Error>)
      requires Valid()
      modifies this
      ensures Valid() && issued == old(issued)
      ensures (View(), err) == D.Release(old(View()), key, owner)
      ensures err.Some? <==> old(key in locks && locks[key].owner != owner)
      ensures locks == if err.Some? then old(locks) else old(locks) - {key}
    {
      if key in locks {
        if locks[key].owner == owner {
          ghost var before := View();
          locks := locks - {key};
          assert View().locks == before.locks - {key} && View().leases == before.leases;
          return None;
        }
        return Some(D.NotAcquired);
      }
      return None;
    }

    /** Updates the entry in place, so every holder of the same *Lock sees the new expiry. */
    method Renew(key: string, owner: string, ttl: int, now: int) returns (err: Option<D.Error>)
      requires Valid()
      modifies issued.Values
      ensures Valid() && issued == old(issued)
      ensures (View(), err) == D.Renew(old(View()), key, owner, ttl, now)
      ensures err.None? <==> key in locks && locks[key].owner == owner
      ensures err.None? ==> locks[key].expiresAt == now + ttl
    {
      if key in locks {
        var existing := locks[key];
        if existing.owner == owner {
          ghost var before, token := View(), existing.fencingToken;
          existing.expiresAt := now + ttl;
          assert forall t | t in issued && t != token :: issued[t] != existing;
          assert View().locks == before.locks;
          assert View().leases == before.leases[token := before.leases[token].(expiresAt := now + ttl)];
          return None;
        }
        return Some(D.NotAcquired);
      }
      return Some(D.Expired);
    }

    method UseOnce(u: Use)
      requires Valid()
      modifies this, issued.Values
      ensures Valid() && View() == Used(old(View()), u)
      ensures Extends(old(issued), issued) && fresh(issued.Values - old(issued.Values))
    {
      assert View().tokenSeq + 1 !in View().leases && View().leases.Keys == issued.Keys;
      match u {
        case Tries(key, owner, ttl, check, stamp) =>
          var r := TryAcquire(key, owner, ttl, check, stamp);
        case Releases(key, owner) =>
          var r := Release(key, owner);
        case Renews(key, owner, ttl, now) =>
          var r := Renew(key, owner, ttl, now);
      }
    }

    method UseBy(uses: seq<Use>)
      requires Valid()
      modifies this, issued.Values
      ensures Valid() && View() == UsedAll(old(View()), uses)
      ensures Extends(old(issued), issued) && fresh(issued.Values - old(issued.Values))
    {
      hide Used;
      for i := 0 to |uses|
        invariant Valid() && UsedAll(View(), uses[i..]) == UsedAll(old(View()), uses)
        invariant Extends(old(issued), issued) && fresh(issued.Values - old(issued.Values))
      {
        assert uses[i..][1..] == uses[i + 1..];
        UseOnce(uses[i]);
      }
    }

    /** One attempt, after others have used the backend. */
    method TryAfter(uses: seq<Use>, key: string, owner: string, ttl: int, check: int, stamp: int)
      returns (r: Result<Lock, D.Error>)
      requires Valid()
      modifies this, issued.Values
      ensures Valid()
      ensures (View(), if r.Ok? then Ok(r.value.fencingToken) else Err(r.error)) ==
              D.TryAcquire(UsedAll(old(View()), uses), key, owner, ttl, check, stamp)
      ensures r.Err? ==> View() == UsedAll(old(View()), uses) && r.error == D.NotAcquired
      ensures r.Ok? ==> r.value.fencingToken in issued && issued[r.value.fencingToken] == r.value
      ensures Extends(old(issued), issued) && fresh(issued.Values - old(issued.Values))
    {
      hide Used, UsedAll;
      UseBy(uses);
      assert View().tokenSeq + 1 !in View().leases && View().leases.Keys == issued.Keys;
      r := TryAcquire(key, owner, ttl, check, stamp);
    }
  }

  class Mutex {
    const backend: MemoryBackend
    const client: D.Client
    var lock: Lock?

    /** m.lock, when set, is a lock its backend issued. */
    ghost predicate Valid()
      reads this, backend, backend.issued.Values
    {
      backend.Valid() && (lock != null ==> lock.fencingToken in backend.issued && backend.issued[lock.fencingToken] == lock)
    }

    ghost function Held(): Option<int>
      reads this
    {
      if lock == null then None else Some(lock.fencingToken)
    }

    constructor (backend: MemoryBackend, key: string, owner: string, ttl: int)
      requires backend.Valid()
      ensures this.backend == backend && Valid() && Held() == None
      ensures client == D.NewMutex(key, owner, ttl)
      ensures client.key == key && client.owner == owner && client.ttl == if ttl > 0 then ttl else 30_000_000_000
    {
      this.backend := backend;
      client := D.Client(key, owner, if ttl <= 0 then D.DEFAULT_TTL else ttl);
      lock := null;
    }

    method TryLock(check: int, stamp: int) returns (r: Result<Lock, D.Error>)
      requires Valid()
      modifies this, backend
      ensures Valid()
      ensures var (view, answer) := D.TryAcquire(old(backend.View()), client.key, client.owner, client.ttl, check, stamp);
              && backend.View() == view
              && (r.Ok? <==> answer.Ok?)
              && (r.Ok? ==> lock == r.value && Held() == Some(answer.value))
              && (r.Err? ==> r.error == answer.error && lock == old(lock))
    {
      r := backend.TryAcquire(client.key, client.owner, client.ttl, check, stamp);
      if r.Ok? {
        lock := r.value;
      }
    }

    /** What one attempt gets, on the two clock readings it makes. */
    ghost function Attempt(view: D.Store, at: (int, int)): (D.Store, Result<int, D.Error>)
      requires D.Wellformed(view)
    {
      D.TryAcquire(view, client.key, client.owner, client.ttl, at.0, at.1)
    }

    /** Attempt k was refused and left everything as it met it. */
    ghost predicate Refused(view: D.Store, clock: seq<(int, int)>, others: seq<seq<Use>>, k: nat)
      requires D.Wellformed(view) && k < |clock| == |others|
    {
      Attempt(Met(view, others, k), clock[k]) == (Met(view, others, k), Err(D.NotAcquired))
    }

    /** The retry loop: attempt k happens at clock[k], after others have used the backend as others[k] says,
        and the context is cancelled after the last one. It wins at the first attempt not refused. */
    method Lock(clock: seq<(int, int)>, others: seq<seq<Use>>) returns (r: Result<Lock, D.Error>, failed: nat)
      requires Valid() && 0 < |clock| == |others|
      modifies this, backend, backend.issued.Values
      ensures Valid()
      ensures failed <= |clock| && forall k | 0 <= k < failed :: Refused(old(backend.View()), clock, others, k)
      ensures r.Ok? ==>
                && failed < |clock| && lock == r.value
                && (backend.View(), Ok(lock.fencingToken)) == Attempt(Met(old(backend.View()), others, failed), clock[failed])
      ensures r.Err? ==>
                && r.error == D.Cancelled && failed == |clock| && lock == old(lock)
                && backend.View() == Met(old(backend.View()), others, failed - 1)
    {
      hide D.TryAcquire, UsedAll;
      failed := 0;
      ghost var issued := backend.issued;
      while true
        invariant Valid() && failed < |clock| && lock == old(lock) && Extends(issued, backend.issued)
        invariant fresh(backend.issued.Values - old(backend.issued.Values))
        invariant backend.View() == if failed == 0 then old(backend.View()) else Met(old(backend.View()), others, failed - 1)
        invariant forall k | 0 <= k < failed :: Refused(old(backend.View()), clock, others, k)
        decreases |clock| - failed
      {
        r := backend.TryAfter(others[failed], client.key, client.owner, client.ttl, clock[failed].0, clock[failed].1);
        if r.Ok? {
          lock := r.value;
          return;
        }
        failed := failed + 1;
        if failed == |clock| {
          return Err(D.Cancelled), failed;
        }
      }
    }

    method Unlock() returns (err: Option<D.Error>)
      requires Valid()
      modifies this, backend
      ensures Valid() && lock == null
      ensures (backend.View(), err) ==
              if old(lock) == null then (old(backend.View()), None)
              else D.Release(old(backend.View()), client.key, client.owner)
    {
      if lock == null {
        return None;
      }
      err := backend.Release(client.key, client.owner);
      lock := null;
    }

    method Renew(now: int) returns (err: Option<D.Error>)
      requires Valid()
      modifies backend.issued.Values
      ensures Valid() && lock == old(lock)
      ensures (backend.View(), err) ==
              if old(lock) == null then (old(backend.View()), Some(D.Expired))
              else D.Renew(old(backend.View()), client.key, client.owner, client.ttl, now)
    {
      if lock == null {
        return Some(D.Expired);
      }
      err := backend.Renew(client.key, client.owner, client.ttl, now);
    }
  }

  class FencingGuard {
    var lastToken: int

    constructor ()
      ensures lastToken == 0
    {
      lastToken := 0;
    }

    method Validate(token: int) returns (err: Option<D.Error>)
      modifies this
      ensures (lastToken, err) == D.Validate(old(lastToken), token)
      ensures if token > old(lastToken) then err == None && lastToken == token else err == Some(D.StaleToken) && lastToken == old(lastToken)
    {
      if token <= lastToken {
        return Some(D.StaleToken);
      }
      lastToken := token;
      return None;
    }
  }
}
