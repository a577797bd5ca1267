/** Exactly when the limiters of module RateLimits let a request through: packages/golib/leakybucket/leakybucket.go
    and packages/golib/limiter/limiter.go. */
module RateDecisions {
  import opened Division
  import opened GoInts
  import opened RateLimits

  /** The drips of a bucket between two times: one at each whole multiple of the rate after its clock. */
  function Drips(b: Bucket, s: int, t: int): int
    requires b.rate != 0
  {
    if b.rate > 0 then (t - b.lastDrip) / b.rate - (s - b.lastDrip) / b.rate else 0
  }

  /** The bucket after these calls. */
  function After(b: Bucket, calls: seq<Call>): (r: Bucket)
    requires b.rate != 0
    ensures r.rate == b.rate && r.capacity == b.capacity
    decreases |calls|
  {
    if calls == [] then b else After(Do(b, calls[0]).0, calls[1..])
  }

  predicate Until(calls: seq<Call>, t: int) {
    forall i | 0 <= i < |calls| :: calls[i].time <= t
  }

  lemma UntilTail(calls: seq<Call>, t: int)
    requires Until(calls, t) && calls != []
    ensures Until(calls[1..], t) && calls[0].time <= t
  {
  }

  /** How full the bucket is at t. */
  function Level(b: Bucket, calls: seq<Call>, t: int): int
    requires b.rate != 0
  {
    Drip(After(b, calls), t).queue
  }

  lemma GridKept(b: Bucket, u: int, x: int)
    requires Usable(b) && b.rate > 0 && b.lastDrip <= u
    ensures (x - Drip(b, u).lastDrip) / b.rate == (x - b.lastDrip) / b.rate - (u - b.lastDrip) / b.rate
  {
    DripFacts(b, u);
    var k := (u - b.lastDrip) / b.rate;
    DivShift(x - b.lastDrip, b.rate, k);
    assert x - Drip(b, u).lastDrip == x - b.lastDrip - k * b.rate;
  }

  lemma LevelDrops(b: Bucket, u: int)
    requires Usable(b) && b.lastDrip <= u
    ensures Drip(b, u).queue == Max0(b.queue - Drips(b, b.lastDrip, u))
  {
    if b.rate > 0 {
      DripFacts(b, u);
      DivIs(0, b.rate, 0);
    } else {
      DripKeeps(b, u);
    }
  }

  /** A call at u, between the clock and t, leaves the drips after u as they were. */
  lemma DripsAfterCall(b: Bucket, u: int, t: int, s: int)
    requires Usable(b) && b.lastDrip <= u <= t
    ensures var d := Drip(b, u);
            && Usable(d) && b.lastDrip <= d.lastDrip <= u
            && Drips(d, s, t) == Drips(b, s, t)
            && Drips(d, d.lastDrip, t) == Drips(b, u, t)
            && d.queue == Max0(b.queue - Drips(b, b.lastDrip, u))
  {
    DripKeeps(b, u);
    LevelDrops(b, u);
    if b.rate > 0 {
      hide Drip;
      GridKept(b, u, t);
      GridKept(b, u, s);
      DivIs(0, b.rate, 0);
      assert Drip(b, u).rate == b.rate by {
        DripKeepsRate(b, u);
      }
    }
  }

  lemma DripKeepsRate(b: Bucket, u: int)
    requires b.rate != 0
    ensures Drip(b, u).rate == b.rate
  {
  }

  lemma DripsAdd(b: Bucket, s: int, u: int, t: int)
    requires b.rate != 0 && s <= u <= t
    ensures Drips(b, s, t) == Drips(b, s, u) + Drips(b, u, t) && Drips(b, s, u) >= 0
    ensures Drips(b, s, s) == 0
  {
    if b.rate > 0 {
      DivMono(s - b.lastDrip, u - b.lastDrip, b.rate);
    }
  }

  /** Nothing is lost but drips of an empty bucket: the level is at least what came in less the drips. */
  lemma {:induction false} LevelAtLeast(b: Bucket, calls: seq<Call>, t: int)
    requires Usable(b) && Ordered(calls, b.lastDrip) && Until(calls, t) && b.lastDrip <= t
    ensures Level(b, calls, t) >= b.queue + AdmittedIn(b, calls, b.lastDrip, t) - Drips(b, b.lastDrip, t)
    decreases |calls|
  {
    hide Drip;
    if calls == [] {
      DripsAfterCall(b, t, t, t);
    } else {
      var u, next := calls[0].time, Do(b, calls[0]).0;
      UntilTail(calls, t);
      DripsAfterCall(b, u, t, t);
      DripsAdd(b, b.lastDrip, u, t);
      OrderedFrom(calls[1..], u, next.lastDrip);
      LevelAtLeast(next, calls[1..], t);
      AllAfter(next, calls[1..], b.lastDrip, next.lastDrip, u, t);
      SameDrips(Drip(b, u), next);
    }
  }

  lemma SameDrips(d: Bucket, next: Bucket)
    requires d.rate != 0 && next.rate == d.rate && next.lastDrip == d.lastDrip
    ensures forall s, t :: Drips(next, s, t) == Drips(d, s, t)
  {
  }

  /** Windows that begin before all calls count the same. */
  lemma {:induction false} AllAfter(b: Bucket, calls: seq<Call>, s: int, s': int, u: int, t: int)
    requires b.rate != 0 && Ordered(calls, u) && s <= u && s' <= u
    ensures AdmittedIn(b, calls, s, t) == AdmittedIn(b, calls, s', t)
    decreases |calls|
  {
    if calls != [] {
      AllAfter(Do(b, calls[0]).0, calls[1..], s, s', calls[0].time, t);
    }
  }

  /** So it is for every window that ends at t. */
  lemma {:induction false} LevelCoversWindow(b: Bucket, calls: seq<Call>, s: int, t: int)
    requires Usable(b) && Ordered(calls, b.lastDrip) && Until(calls, t) && b.lastDrip <= s <= t
    ensures Level(b, calls, t) >= AdmittedIn(b, calls, s, t) - Drips(b, s, t)
    decreases |calls|
  {
    hide Drip;
    DripsAdd(b, s, t, t);
    if calls == [] {
      DripsAfterCall(b, t, t, t);
    } else {
      var u, next := calls[0].time, Do(b, calls[0]).0;
      UntilTail(calls, t);
      DripsAfterCall(b, u, t, s);
      SameDrips(Drip(b, u), next);
      OrderedFrom(calls[1..], u, next.lastDrip);
      if u < s {
        LevelCoversWindow(next, calls[1..], s, t);
      } else {
        DripsAdd(b, s, u, t);
        LevelAtLeast(next, calls[1..], t);
        AllAfter(next, calls[1..], s, next.lastDrip, u, t);
      }
    }
  }

  /** And some window accounts for all of it: the one since the bucket was last empty. */
  lemma {:induction false} LevelFromWindow(b: Bucket, calls: seq<Call>, t: int) returns (s: int)
    requires Usable(b) && Ordered(calls, b.lastDrip) && Until(calls, t) && b.lastDrip <= t
    ensures b.lastDrip <= s <= t
    ensures Level(b, calls, t) <= (if s == b.lastDrip then b.queue else 0) + AdmittedIn(b, calls, s, t) - Drips(b, s, t)
    decreases |calls|
  {
    hide Drip;
    if calls == [] {
      DripsAfterCall(b, t, t, t);
      DripsAdd(b, t, t, t);
      s := if b.queue >= Drips(b, b.lastDrip, t) then b.lastDrip else t;
    } else {
      var u, next := calls[0].time, Do(b, calls[0]).0;
      UntilTail(calls, t);
      OrderedFrom(calls[1..], u, next.lastDrip);
      DripsAfterCall(b, u, t, t);
      s := LevelFromWindow(next, calls[1..], t);
      DripsAfterCall(b, u, t, s);
      SameDrips(Drip(b, u), next);
      if s == next.lastDrip {
        s := ExtendWindow(b, calls, t);
      }
    }
  }

  /** The window of the rest begins where the first call was: it can begin there, or at the clock when no
      drip was lost before. */
  lemma ExtendWindow(b: Bucket, calls: seq<Call>, t: int) returns (s: int)
    requires Usable(b) && calls != [] && Ordered(calls, b.lastDrip) && Until(calls, t)
    ensures b.lastDrip <= s <= t
    ensures var next := Do(b, calls[0]).0;
            next.queue + AdmittedIn(next, calls[1..], next.lastDrip, t) - Drips(next, next.lastDrip, t) <=
            (if s == b.lastDrip then b.queue else 0) + AdmittedIn(b, calls, s, t) - Drips(b, s, t)
  {
    hide Drip;
    var u, next := calls[0].time, Do(b, calls[0]).0;
    UntilTail(calls, t);
    DripsAfterCall(b, u, t, t);
    SameDrips(Drip(b, u), next);
    DripsAdd(b, b.lastDrip, u, t);
    s := if b.queue >= Drips(b, b.lastDrip, u) then b.lastDrip else u;
    AllAfter(next, calls[1..], s, next.lastDrip, u, t);
  }

  /** An Allow at t is refused exactly when some window that ends at t has filled the bucket: admitted at
      least its capacity and a request for each drip since the window began. */
  lemma RefusedExactly(b: Bucket, calls: seq<Call>, t: int)
    requires Usable(b) && b.queue == 0 && b.capacity > 0 && Ordered(calls, b.lastDrip) && Until(calls, t) && b.lastDrip <= t
    ensures !Do(After(b, calls), Allow(t)).1 <==>
              exists s :: b.lastDrip <= s <= t && AdmittedIn(b, calls, s, t) >= b.capacity + Drips(b, s, t)
  {
    hide Drip, Drips;
    var s := LevelFromWindow(b, calls, t);
    forall s | b.lastDrip <= s <= t ensures Level(b, calls, t) >= AdmittedIn(b, calls, s, t) - Drips(b, s, t) {
      LevelCoversWindow(b, calls, s, t);
    }
    AfterUsable(b, calls, t);
  }

  lemma {:induction false} AfterUsable(b: Bucket, calls: seq<Call>, t: int)
    requires Usable(b) && Ordered(calls, b.lastDrip) && Until(calls, t) && b.lastDrip <= t
    ensures Usable(After(b, calls)) && After(b, calls).lastDrip <= t
    ensures 0 <= Level(b, calls, t) <= Max0(b.capacity)
    decreases |calls|
  {
    if calls == [] {
      DripKeeps(b, t);
    } else {
      var u, next := calls[0].time, Do(b, calls[0]).0;
      UntilTail(calls, t);
      DripKeeps(b, u);
      OrderedFrom(calls[1..], u, next.lastDrip);
      AfterUsable(next, calls[1..], t);
    }
  }

  // One bucket of the limiter.

  /** The tokens at hand after the whole intervals since the last refill have been paid in. */
  function AtHand(b: Tokens, t: int): int
    requires b.interval > 0
  {
    var paid := (t - b.lastFill) / b.interval * b.rate;
    if paid <= 0 then b.tokens else if b.tokens + paid < b.burst then b.tokens + paid else b.burst
  }

  function Together(n: nat, t: int): seq<int> {
    seq(n, i => t)
  }

  /** Of n requests at one time exactly as many get through as there are tokens at hand. */
  lemma {:induction false} TakesExactly(b: Tokens, n: nat, t: int)
    requires b.interval > 0 && b.lastFill <= t
    ensures TakenIn(b, Together(n, t), t, t) == if n <= Max0(AtHand(b, t)) then n else Max0(AtHand(b, t))
    decreases n
  {
    if n > 0 {
      var (next, ok) := Take(b, t);
      DivMono(0, t - b.lastFill, b.interval);
      assert Together(n, t)[1..] == Together(n - 1, t);
      assert AtHand(next, t) == AtHand(b, t) - (if ok then 1 else 0) && ok == (AtHand(b, t) > 0) by {
        assert (t - t) / b.interval * b.rate == 0;
      }
      TakesExactly(next, n - 1, t);
    }
  }

  /** And a bucket that has just run dry lets the next one through exactly when a whole interval has passed
      since its last refill. */
  lemma DryUntilRefilled(b: Tokens, t: int)
    requires b.interval > 0 && b.rate > 0 && b.burst > 0 && b.tokens == 0 && b.lastFill <= t
    ensures Take(b, t).1 <==> t - b.lastFill >= b.interval
  {
    var k := (t - b.lastFill) / b.interval;
    DivMono(0, t - b.lastFill, b.interval);
    if t - b.lastFill >= b.interval {
      DivMono(b.interval, t - b.lastFill, b.interval);
      MulMono(b.rate, 1, k);
      assert k * b.rate == b.rate * k;
    } else {
      DivIs(t - b.lastFill, b.interval, 0);
    }
  }
}
