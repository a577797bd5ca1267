/** packages/golib/leakybucket/leakybucket.go and packages/golib/limiter/limiter.go: how many requests
    two integer rate limiters let through in any window of time. Clock readings are parameters. */
module RateLimits {
  import opened Division
  import opened GoInts

  function Max0(x: int): int {
    if x > 0 then x else 0
  }

  // The leaky bucket.

  datatype Bucket = Bucket(capacity: int, rate: int, queue: int, lastDrip: int)

  predicate Usable(b: Bucket) {
    b.rate != 0 && 0 <= b.queue <= Max0(b.capacity)
  }

  /** drip. With a negative rate the quotient is never positive and nothing leaks. */
  function Drip(b: Bucket, now: int): Bucket
    requires b.rate != 0
  {
    var drips := Quot(now - b.lastDrip, b.rate);
    if drips > 0 then b.(queue := Max0(b.queue - drips), lastDrip := b.lastDrip + drips * b.rate) else b
  }

  datatype Call = Allow(time: int) | Queue(time: int)

  function Do(b: Bucket, c: Call): (r: (Bucket, bool))
    requires b.rate != 0
    ensures r.0.rate == b.rate && r.0.capacity == b.capacity
  {
    var d := Drip(b, c.time);
    if c.Allow? && d.queue < d.capacity then (d.(queue := d.queue + 1), true) else (d, false)
  }

  predicate Ordered(calls: seq<Call>, from: int) {
    calls == [] || (from <= calls[0].time && Ordered(calls[1..], calls[0].time))
  }

  /** How many requests of the run are admitted at times in [s, t]. */
  function AdmittedIn(b: Bucket, calls: seq<Call>, s: int, t: int): nat
    requires b.rate != 0
    decreases |calls|
  {
    if calls == [] then 0 else
    var (next, ok) := Do(b, calls[0]);
    (if ok && s <= calls[0].time <= t then 1 else 0) + AdmittedIn(next, calls[1..], s, t)
  }

  lemma DripFacts(b: Bucket, now: int)
    requires Usable(b) && b.rate > 0 && b.lastDrip <= now
    ensures var d, k := Drip(b, now), (now - b.lastDrip) / b.rate;
            && Usable(d) && d.lastDrip <= now < d.lastDrip + b.rate && b.lastDrip <= d.lastDrip
            && d.queue >= b.queue - k && d.lastDrip == b.lastDrip + k * b.rate && k >= 0
  {
    DivMono(0, now - b.lastDrip, b.rate);
    var k := (now - b.lastDrip) / b.rate;
    assert now - b.lastDrip == k * b.rate + (now - b.lastDrip) % b.rate;
  }

  lemma DripKeeps(b: Bucket, now: int)
    requires Usable(b) && b.lastDrip <= now
    ensures var d := Drip(b, now);
            && Usable(d) && b.lastDrip <= d.lastDrip <= now && (b.rate < 0 ==> d == b)
  {
    if b.rate > 0 {
      DripFacts(b, now);
    } else {
      DivMono(0, now - b.lastDrip, -b.rate);
    }
  }

  /** From any state, admissions up to t are paid for by free places and by drips up to t. */
  lemma {:induction false} AdmittedUntil(b: Bucket, calls: seq<Call>, s: int, t: int)
    requires Usable(b) && b.rate > 0 && b.capacity >= 0 && Ordered(calls, b.lastDrip) && b.lastDrip <= t
    ensures AdmittedIn(b, calls, s, t) <= b.capacity - b.queue + (t - b.lastDrip) / b.rate
    decreases |calls|
  {
    DivMono(0, t - b.lastDrip, b.rate);
    if calls != [] {
      var u := calls[0].time;
      var d, next := Drip(b, u), Do(b, calls[0]).0;
      DripFacts(b, u);
      OrderedFrom(calls[1..], u, next.lastDrip);
      if u <= t {
        AdmittedUntil(next, calls[1..], s, t);
        var k := (u - b.lastDrip) / b.rate;
        DivShift(t - b.lastDrip, b.rate, k);
        assert t - d.lastDrip == t - b.lastDrip - k * b.rate;
      } else {
        NoneAfter(next, calls[1..], s, t, u);
      }
    }
  }

  lemma OrderedFrom(calls: seq<Call>, u: int, earlier: int)
    ensures Ordered(calls, u) && earlier <= u ==> Ordered(calls, earlier)
  {
  }

  lemma {:induction false} NoneAfter(b: Bucket, calls: seq<Call>, s: int, t: int, u: int)
    requires b.rate != 0 && Ordered(calls, u) && u > t
    ensures AdmittedIn(b, calls, s, t) == 0
    decreases |calls|
  {
    if calls != [] {
      NoneAfter(Do(b, calls[0]).0, calls[1..], s, t, calls[0].time);
    }
  }

  /** Dripping twice is dripping once, at the later time. */
  lemma DripTwice(b: Bucket, t0: int, t1: int)
    requires Usable(b) && b.lastDrip <= t0 <= t1
    ensures Drip(Drip(b, t0), t1) == Drip(b, t1)
  {
    if b.rate > 0 {
      PositiveDripTwice(b, t0, t1);
    } else {
      DripKeeps(b, t0);
    }
  }

  lemma DripIs(b: Bucket, now: int, k: int)
    requires Usable(b) && b.rate > 0 && b.lastDrip <= now && k == (now - b.lastDrip) / b.rate
    ensures k >= 0 && Drip(b, now) == b.(queue := Max0(b.queue - k), lastDrip := b.lastDrip + k * b.rate)
  {
    DivMono(0, now - b.lastDrip, b.rate);
  }

  lemma PositiveDripTwice(b: Bucket, t0: int, t1: int)
    requires Usable(b) && b.rate > 0 && b.lastDrip <= t0 <= t1
    ensures Drip(Drip(b, t0), t1) == Drip(b, t1)
  {
    DripFacts(b, t0);
    hide Drip, Quot;
    var k0, k1 := (t0 - b.lastDrip) / b.rate, (t1 - b.lastDrip) / b.rate;
    DripIs(b, t0, k0);
    DripIs(b, t1, k1);
    DivShift(t1 - b.lastDrip, b.rate, k0);
    var c := Drip(b, t0);
    assert t1 - c.lastDrip == t1 - b.lastDrip - k0 * b.rate;
    DripIs(c, t1, k1 - k0);
    assert k0 * b.rate + (k1 - k0) * b.rate == k1 * b.rate;
  }

  lemma {:induction false} PositiveWindow(b: Bucket, calls: seq<Call>, s: int, t: int)
    requires Usable(b) && b.rate > 0 && Ordered(calls, b.lastDrip) && s <= t
    ensures AdmittedIn(b, calls, s, t) <= Max0(b.capacity) + (t - s) / b.rate + 1
    decreases |calls|
  {
    DivMono(0, t - s, b.rate);
    if b.capacity <= 0 {
      NeverAdmits(b, calls, s, t);
    } else if calls != [] {
      var u := calls[0].time;
      DripFacts(b, u);
      var d, next := Drip(b, u), Do(b, calls[0]).0;
      OrderedFrom(calls[1..], u, next.lastDrip);
      if u < s {
        PositiveWindow(next, calls[1..], s, t);
      } else if u <= t {
        DripTwice(b, u, u);
        assert AdmittedIn(b, calls, s, t) == AdmittedIn(d, calls, s, t);
        OrderedFrom(calls, u, d.lastDrip);
        AdmittedUntil(d, calls, s, t);
        DivMono(t - d.lastDrip, t - s + b.rate, b.rate);
        DivShift(t - s, b.rate, -1);
      } else {
        NoneAfter(next, calls[1..], s, t, u);
      }
    }
  }

  lemma {:induction false} NeverLeaks(b: Bucket, calls: seq<Call>, s: int, t: int)
    requires Usable(b) && b.rate < 0 && Ordered(calls, b.lastDrip)
    ensures AdmittedIn(b, calls, s, t) <= Max0(b.capacity) - b.queue
    decreases |calls|
  {
    if calls != [] {
      DripKeeps(b, calls[0].time);
      OrderedFrom(calls[1..], calls[0].time, b.lastDrip);
      NeverLeaks(Do(b, calls[0]).0, calls[1..], s, t);
    }
  }

  /** In any window [s, t] of any run, at most capacity + floor((t - s) / rate) + 1 requests are admitted;
      with a negative rate at most capacity. */
  lemma LeakyWindow(b: Bucket, calls: seq<Call>, s: int, t: int)
    requires Usable(b) && Ordered(calls, b.lastDrip) && s <= t
    ensures AdmittedIn(b, calls, s, t) <= Max0(b.capacity) + (if b.rate > 0 then (t - s) / b.rate + 1 else 0)
  {
    if b.rate > 0 {
      PositiveWindow(b, calls, s, t);
    } else {
      NeverLeaks(b, calls, s, t);
    }
  }

  lemma {:induction false} NeverAdmits(b: Bucket, calls: seq<Call>, s: int, t: int)
    requires Usable(b) && b.capacity <= 0 && Ordered(calls, b.lastDrip)
    ensures AdmittedIn(b, calls, s, t) == 0
    decreases |calls|
  {
    if calls != [] {
      DripKeeps(b, calls[0].time);
      OrderedFrom(calls[1..], calls[0].time, Do(b, calls[0]).0.lastDrip);
      NeverAdmits(Do(b, calls[0]).0, calls[1..], s, t);
    }
  }

  /** The answers the Allow calls of a run get. */
  function Decisions(b: Bucket, calls: seq<Call>): seq<bool>
    requires b.rate != 0
    decreases |calls|
  {
    if calls == [] then [] else
    var (next, ok) := Do(b, calls[0]);
    (if calls[0].Allow? then [ok] else []) + Decisions(next, calls[1..])
  }

  function OnlyAllows(calls: seq<Call>): seq<Call> {
    if calls == [] then [] else (if calls[0].Allow? then [calls[0]] else []) + OnlyAllows(calls[1..])
  }

  lemma {:induction false} OnlyAllowsOrdered(calls: seq<Call>, from: int)
    requires Ordered(calls, from)
    ensures Ordered(OnlyAllows(calls), from)
  {
    if calls != [] {
      OnlyAllowsOrdered(calls[1..], calls[0].time);
      var rest := OnlyAllows(calls[1..]);
      if calls[0].Allow? {
        assert ([calls[0]] + rest)[1..] == rest;
      } else {
        assert [] + rest == rest;
        OrderedFrom(rest, calls[0].time, from);
      }
    }
  }

  /** A drip now changes no decision from now on. */
  lemma DripIsInvisible(b: Bucket, now: int, calls: seq<Call>)
    requires Usable(b) && b.lastDrip <= now && Ordered(calls, now)
    ensures Decisions(Drip(b, now), calls) == Decisions(b, calls)
  {
    if calls != [] {
      DripTwice(b, now, calls[0].time);
    }
  }

  /** Queue calls, wherever they are put, never change what Allow answers. */
  lemma {:induction false} QueueIsInvisible(b: Bucket, calls: seq<Call>)
    requires Usable(b) && Ordered(calls, b.lastDrip)
    ensures Decisions(b, calls) == Decisions(b, OnlyAllows(calls))
    decreases |calls|
  {
    if calls != [] {
      var c, next := calls[0], Do(b, calls[0]).0;
      DripKeeps(b, c.time);
      OrderedFrom(calls[1..], c.time, next.lastDrip);
      QueueIsInvisible(next, calls[1..]);
      var rest := OnlyAllows(calls[1..]);
      if c.Allow? {
        assert ([c] + rest)[1..] == rest;
      } else {
        assert [] + rest == rest;
        OnlyAllowsOrdered(calls[1..], c.time);
        DripIsInvisible(b, c.time, rest);
      }
    }
  }

  /** A rate of zero makes drip divide by zero, which Usable leaves out. */
  class LeakyBucket {
    const capacity: int
    const rate: int
    var queue: int
    var lastDrip: int

    ghost function View(): Bucket
      reads this
    {
      Bucket(capacity, rate, queue, lastDrip)
    }

    constructor (capacity: int, rate: int, now: int)
      ensures View() == Bucket(capacity, rate, 0, now) && (rate != 0 ==> Usable(View()))
    {
      this.capacity, this.rate, queue, lastDrip := capacity, rate, 0, now;
    }

    method DripNow(now: int)
      requires Usable(View())
      modifies this
      ensures View() == Drip(old(View()), now) && Usable(View())
    {
      var drips := Quot(now - lastDrip, rate);
      if drips > 0 {
        queue := queue - drips;
        if queue < 0 {
          queue := 0;
        }
        lastDrip := lastDrip + drips * rate;
      }
    }

    method AllowNow(now: int) returns (ok: bool)
      requires Usable(View())
      modifies this
      ensures (View(), ok) == Do(old(View()), Allow(now)) && Usable(View())
    {
      DripNow(now);
      if queue < capacity {
        queue := queue + 1;
        return true;
      }
      return false;
    }

    method QueueNow(now: int) returns (depth: int)
      requires Usable(View())
      modifies this
      ensures View() == Do(old(View()), Queue(now)).0 && Usable(View()) && depth == View().queue
    {
      DripNow(now);
      return queue;
    }

    method Reset(now: int)
      requires Usable(View())
      modifies this
      ensures View() == Bucket(capacity, rate, 0, now) && Usable(View())
    {
      queue := 0;
      lastDrip := now;
    }
  }

  // One bucket of the limiter registry.

  datatype Tokens = Tokens(rate: int, burst: int, interval: int, tokens: int, lastFill: int)

  function Refill(b: Tokens, now: int): Tokens
    requires b.interval != 0
  {
    var refill := Quot(now - b.lastFill, b.interval) * b.rate;
    if refill > 0 then b.(tokens := if b.tokens + refill > b.burst then b.burst else b.tokens + refill, lastFill := now) else b
  }

  function Take(b: Tokens, now: int): (r: (Tokens, bool))
    requires b.interval != 0
    ensures r.0.interval == b.interval && r.0.rate == b.rate && r.0.burst == b.burst
  {
    var f := Refill(b, now);
    if f.tokens > 0 then (f.(tokens := f.tokens - 1), true) else (f, false)
  }

  predicate Increasing(times: seq<int>, from: int) {
    times == [] || (from <= times[0] && Increasing(times[1..], times[0]))
  }

  function TakenIn(b: Tokens, times: seq<int>, s: int, t: int): nat
    requires b.interval != 0
    decreases |times|
  {
    if times == [] then 0 else
    var (next, ok) := Take(b, times[0]);
    (if ok && s <= times[0] <= t then 1 else 0) + TakenIn(next, times[1..], s, t)
  }

  lemma MulMono(r: int, x: int, y: int)
    ensures r >= 0 && x <= y ==> r * x <= r * y
  {
  }

  lemma IncreasingFrom(times: seq<int>, u: int, earlier: int)
    ensures Increasing(times, u) && earlier <= u ==> Increasing(times, earlier)
  {
  }

  lemma {:induction false} NoneTakenAfter(b: Tokens, times: seq<int>, s: int, t: int, u: int)
    requires b.interval > 0 && Increasing(times, u) && u > t
    ensures TakenIn(b, times, s, t) == 0
    decreases |times|
  {
    if times != [] {
      NoneTakenAfter(Take(b, times[0]).0, times[1..], s, t, times[0]);
    }
  }

  /** A refill at u takes no more from the intervals left until t than it grants tokens for. */
  lemma RefillPays(b: Tokens, u: int, t: int)
    requires b.interval > 0 && b.rate >= 0 && b.tokens <= b.burst && b.lastFill <= u <= t
    ensures var f := Refill(b, u);
            && f.tokens <= f.burst && b.lastFill <= f.lastFill <= u
            && Max0(f.tokens) + b.rate * ((t - f.lastFill) / b.interval) <= Max0(b.tokens) + b.rate * ((t - b.lastFill) / b.interval)
  {
    var f, k := Refill(b, u), (u - b.lastFill) / b.interval;
    DivMono(0, u - b.lastFill, b.interval);
    if f.lastFill != b.lastFill || f.tokens != b.tokens {
      DivPlus(u - b.lastFill, t - u, b.interval);
      MulMono(b.rate, k + (t - u) / b.interval, (t - b.lastFill) / b.interval);
      assert b.rate * (k + (t - u) / b.interval) == k * b.rate + b.rate * ((t - u) / b.interval);
    }
  }

  lemma {:induction false} TakenUntil(b: Tokens, times: seq<int>, s: int, t: int)
    requires b.interval > 0 && b.rate >= 0 && b.tokens <= b.burst && Increasing(times, b.lastFill) && b.lastFill <= t
    ensures TakenIn(b, times, s, t) <= Max0(b.tokens) + b.rate * ((t - b.lastFill) / b.interval)
    decreases |times|
  {
    DivMono(0, t - b.lastFill, b.interval);
    MulMono(b.rate, 0, (t - b.lastFill) / b.interval);
    if times != [] {
      var u := times[0];
      var f, next := Refill(b, u), Take(b, u).0;
      if u <= t {
        RefillPays(b, u, t);
        IncreasingFrom(times[1..], u, next.lastFill);
        TakenUntil(next, times[1..], s, t);
      } else {
        NoneTakenAfter(next, times[1..], s, t, u);
      }
    }
  }

  /** After a call at u the last refill lies less than an interval back, or nothing is ever refilled. */
  lemma RefillIsRecent(b: Tokens, u: int)
    requires b.interval > 0 && b.rate > 0 && b.lastFill <= u
    ensures u - Refill(b, u).lastFill < b.interval
  {
    var k := (u - b.lastFill) / b.interval;
    DivMono(0, u - b.lastFill, b.interval);
    if k >= 1 {
      MulMono(b.rate, 1, k);
      assert k * b.rate == b.rate * k;
    }
  }

  lemma {:induction false} PositiveLimit(b: Tokens, times: seq<int>, s: int, t: int)
    requires b.interval > 0 && b.tokens <= b.burst && Increasing(times, b.lastFill) && s <= t
    ensures TakenIn(b, times, s, t) <= Max0(b.burst) + Max0(b.rate) * ((t - s) / b.interval + 1)
    decreases |times|
  {
    DivMono(0, t - s, b.interval);
    MulMono(Max0(b.rate), 0, (t - s) / b.interval + 1);
    if b.rate <= 0 {
      NeverRefilled(b, times, s, t);
    } else if times != [] {
      var u := times[0];
      var f, next := Refill(b, u), Take(b, u).0;
      if u < s {
        RefillPays(b, u, u);
        IncreasingFrom(times[1..], u, next.lastFill);
        PositiveLimit(next, times[1..], s, t);
      } else if u <= t {
        RefillPays(b, u, t);
        RefillIsRecent(b, u);
        IncreasingFrom(times[1..], u, next.lastFill);
        TakenUntil(next, times[1..], s, t);
        DivMono(t - f.lastFill, t - s + b.interval, b.interval);
        DivShift(t - s, b.interval, -1);
        MulMono(b.rate, (t - f.lastFill) / b.interval, (t - s) / b.interval + 1);
      } else {
        NoneTakenAfter(next, times[1..], s, t, u);
      }
    }
  }

  lemma {:induction false} NeverRefilled(b: Tokens, times: seq<int>, s: int, t: int)
    requires b.interval > 0 && b.rate <= 0 && Increasing(times, b.lastFill)
    ensures TakenIn(b, times, s, t) <= Max0(b.tokens)
    decreases |times|
  {
    if times != [] {
      var k := (times[0] - b.lastFill) / b.interval;
      DivMono(0, times[0] - b.lastFill, b.interval);
      assert k * b.rate <= 0 by {
        MulMono(k, b.rate, 0);
      }
      IncreasingFrom(times[1..], times[0], b.lastFill);
      NeverRefilled(Take(b, times[0]).0, times[1..], s, t);
    }
  }

  /** A negative interval turns the sign of what a refill adds, so it is the positive one with the
      opposite rate. */
  function Upright(b: Tokens): Tokens {
    if b.interval < 0 then b.(interval := -b.interval, rate := -b.rate) else b
  }

  lemma QuotByNegative(d: int, interval: int)
    requires d >= 0 && interval < 0
    ensures Quot(d, interval) == -Quot(d, -interval)
  {
  }

  lemma NegateTwice(k: int, rate: int)
    ensures -k * rate == k * -rate
  {
  }

  lemma UprightTakes(b: Tokens, now: int)
    requires b.interval != 0 && b.lastFill <= now
    ensures Take(Upright(b), now) == (Upright(Take(b, now).0), Take(b, now).1)
    ensures Take(b, now).0.lastFill <= now
  {
    hide Quot;
    if b.interval < 0 {
      var d := now - b.lastFill;
      QuotByNegative(d, b.interval);
      NegateTwice(Quot(d, -b.interval), b.rate);
    }
  }

  lemma {:induction false} UprightTakesAll(b: Tokens, times: seq<int>, s: int, t: int)
    requires b.interval != 0 && Increasing(times, b.lastFill)
    ensures TakenIn(b, times, s, t) == TakenIn(Upright(b), times, s, t)
    decreases |times|
  {
    if times != [] {
      UprightTakes(b, times[0]);
      IncreasingFrom(times[1..], times[0], Take(b, times[0]).0.lastFill);
      UprightTakesAll(Take(b, times[0]).0, times[1..], s, t);
    }
  }

  /** In any window [s, t] of any run one limiter bucket lets at most Burst + Rate * (floor((t - s) / Interval) + 1)
      requests through, Rate and Burst counted as 0 when a configuration makes them negative, and both
      Rate and Interval with the opposite sign when the interval is. */
  lemma LimiterWindow(b: Tokens, times: seq<int>, s: int, t: int)
    requires b.interval != 0 && b.tokens <= b.burst && Increasing(times, b.lastFill) && s <= t
    ensures var u := Upright(b);
            u.interval > 0 && TakenIn(b, times, s, t) <= Max0(u.burst) + Max0(u.rate) * ((t - s) / u.interval + 1)
  {
    UprightTakesAll(b, times, s, t);
    PositiveLimit(Upright(b), times, s, t);
  }

  class LimiterBucket {
    const rate: int
    const burst: int
    const interval: int
    var tokens: int
    var lastFill: int

    ghost function View(): Tokens
      reads this
    {
      Tokens(rate, burst, interval, tokens, lastFill)
    }

    constructor (rate: int, burst: int, interval: int, now: int)
      ensures View() == Tokens(rate, burst, interval, burst, now)
    {
      this.rate, this.burst, this.interval, tokens, lastFill := rate, burst, interval, burst, now;
    }

    method AllowNow(now: int) returns (ok: bool)
      requires interval != 0
      modifies this
      ensures (View(), ok) == Take(old(View()), now)
    {
      var refill := Quot(now - lastFill, interval) * rate;
      if refill > 0 {
        tokens := tokens + refill;
        if tokens > burst {
          tokens := burst;
        }
        lastFill := now;
      }
      if tokens > 0 {
        tokens := tokens - 1;
        return true;
      }
      return false;
    }
  }
}
