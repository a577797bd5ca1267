/** packages/golib/circuithttp/circuithttp.go: a circuit breaker whose requests may finish in a later
    state than the one that admitted them. */
module Circuit {
  import opened Counting
  import opened Wrappers

  datatype Config = Config(failureThreshold: int, successThreshold: int, openDuration: int, halfOpenMax: int)

  /** NewTransport replaces settings that are not positive. */
  function New(cfg: Config): Config {
    Config(if cfg.failureThreshold <= 0 then 5 else cfg.failureThreshold,
           if cfg.successThreshold <= 0 then 3 else cfg.successThreshold,
           if cfg.openDuration <= 0 then 30_000_000_000 else cfg.openDuration,
           if cfg.halfOpenMax <= 0 then 1 else cfg.halfOpenMax)
  }

  predicate Usable(cfg: Config) {
    cfg.failureThreshold > 0 && cfg.successThreshold > 0 && cfg.openDuration > 0 && cfg.halfOpenMax > 0
  }

  datatype Status = Closed | Open | HalfOpen

  datatype Breaker = Breaker(status: Status, failures: int, successes: int, lastFailure: int, halfOpenActive: int)

  const INITIAL := Breaker(Closed, 0, 0, 0, 0)

  function Transition(b: Breaker, to: Status): Breaker {
    if b.status == to then b else b.(status := to, failures := 0, successes := 0)
  }

  function CanProceed(cfg: Config, b: Breaker, now: int): (Breaker, bool) {
    match b.status
    case Closed => (b, true)
    case Open =>
      if now - b.lastFailure >= cfg.openDuration then (Transition(b, HalfOpen).(halfOpenActive := 1), true)
      else (b, false)
    case HalfOpen =>
      if b.halfOpenActive < cfg.halfOpenMax then (b.(halfOpenActive := b.halfOpenActive + 1), true)
      else (b, false)
  }

  function RecordSuccess(cfg: Config, b: Breaker): Breaker {
    match b.status
    case HalfOpen =>
      var c := b.(successes := b.successes + 1, halfOpenActive := b.halfOpenActive - 1);
      if c.successes >= cfg.successThreshold then Transition(c, Closed) else c
    case Closed => b.(failures := 0)
    case Open => b
  }

  function RecordFailure(cfg: Config, b: Breaker, now: int): Breaker {
    var c := b.(lastFailure := now);
    match b.status
    case Closed =>
      var d := c.(failures := c.failures + 1);
      if d.failures >= cfg.failureThreshold then Transition(d, Open) else d
    case HalfOpen => Transition(c.(halfOpenActive := c.halfOpenActive - 1), Open)
    case Open => c
  }

  function Reset(b: Breaker): Breaker {
    Transition(b, Closed)
  }

  // Runs: any number of requests, admitted and finishing in any order, on a clock that never goes back.

  /** One recorded outcome: in which state, whether a failure, when. */
  datatype Entry = Entry(status: Status, failure: bool, time: int)

  /** `epoch` numbers the stays in a state; a request remembers the one that admitted it, and whether that
      was a half-open one, which makes it a probe. */
  datatype Request = Idle | InFlight(epoch: nat, probe: bool) | Done

  datatype World = World(
    now: int, breaker: Breaker, requests: seq<Request>,
    log: seq<Entry>,      // all recorded outcomes
    epoch: nat,
    entered: nat,         // length of the log when the current state was entered
    strays: nat,          // outcomes recorded since then for requests admitted earlier
    leftover: nat)        // the most requests still in flight at any moment the breaker became half-open

  datatype Event = Tick(d: nat) | Admit(i: nat) | Finish(i: nat, failure: bool) | ResetCall

  function Init(n: nat, now: int): World {
    World(now, INITIAL, seq(n, i => Idle), [], 0, 0, 0, 0)
  }

  predicate IsFlying(r: Request) {
    r.InFlight?
  }

  function Flying(requests: seq<Request>): nat {
    Count(requests, IsFlying)
  }

  function Max(a: nat, b: nat): nat {
    if a < b then b else a
  }

  /** Installs the breaker's new state, opening a new epoch if its status changed. */
  function Enter(w: World, b: Breaker): World {
    if b.status == w.breaker.status then w.(breaker := b)
    else w.(breaker := b, epoch := w.epoch + 1, entered := |w.log|, strays := 0,
            leftover := if b.status == HalfOpen then Max(w.leftover, Flying(w.requests)) else w.leftover)
  }

  function Step(cfg: Config, w: World, e: Event): Option<World> {
    match e
    case Tick(d) => Some(w.(now := w.now + d))
    case ResetCall => Some(Enter(w, Reset(w.breaker)))
    case Admit(i) =>
      if i >= |w.requests| || !w.requests[i].Idle? then None
      else
        var (b, ok) := CanProceed(cfg, w.breaker, w.now);
        var v := Enter(w, b);
        Some(v.(requests := v.requests[i := if ok then InFlight(v.epoch, v.breaker.status == HalfOpen) else Done]))
    case Finish(i, failure) =>
      if i >= |w.requests| || !w.requests[i].InFlight? then None
      else
        var b := if failure then RecordFailure(cfg, w.breaker, w.now) else RecordSuccess(cfg, w.breaker);
        var logged := w.(log := w.log + [Entry(w.breaker.status, failure, w.now)],
                         strays := w.strays + (if w.requests[i].epoch == w.epoch then 0 else 1),
                         requests := w.requests[i := Done]);
        Some(Enter(logged, b))
  }

  function Exec(cfg: Config, w: World, run: seq<Event>): Option<World>
    decreases |run|
  {
    if run == [] then Some(w) else
    match Step(cfg, w, run[0])
    case None => None
    case Some(v) => Exec(cfg, v, run[1..])
  }

  /** How many of the latest entries, back to position `from`, are failures without a success after them. */
  function Streak(log: seq<Entry>, from: nat): nat
    requires from <= |log|
  {
    if |log| == from || !log[|log| - 1].failure then 0 else 1 + Streak(log[..|log| - 1], from)
  }

  lemma {:induction false} StreakFacts(log: seq<Entry>, from: nat)
    requires from <= |log|
    ensures from + Streak(log, from) <= |log|
    ensures forall k | |log| - Streak(log, from) <= k < |log| :: log[k].failure
    ensures from + Streak(log, from) < |log| ==> !log[|log| - Streak(log, from) - 1].failure
    decreases |log|
  {
    if |log| > from && log[|log| - 1].failure {
      StreakFacts(log[..|log| - 1], from);
    }
  }

  /** When the latest failure was recorded. */
  function Latest(log: seq<Entry>): Option<int> {
    if log == [] then None
    else if log[|log| - 1].failure then Some(log[|log| - 1].time)
    else Latest(log[..|log| - 1])
  }

  function IsProbe(epoch: nat): Request -> bool {
    (r: Request) => r.InFlight? && r.epoch == epoch
  }

  /** Requests admitted in the given epoch and still in flight. */
  function Probes(requests: seq<Request>, epoch: nat): nat {
    Count(requests, IsProbe(epoch))
  }

  ghost predicate LogInv(w: World) {
    && w.entered <= |w.log| && w.strays <= |w.log| - w.entered
    && (forall k | w.entered <= k < |w.log| :: w.log[k].status == w.breaker.status)
    && (Latest(w.log).Some? ==> w.breaker.lastFailure == Latest(w.log).value)
    && (forall i | 0 <= i < |w.requests| && w.requests[i].InFlight? :: w.requests[i].epoch <= w.epoch)
  }

  ghost predicate CountInv(cfg: Config, w: World)
    requires LogInv(w)
  {
    var b := w.breaker;
    match b.status
    case Closed => b.failures == Streak(w.log, w.entered) < cfg.failureThreshold
    case Open => Latest(w.log).Some?
    case HalfOpen =>
      && b.successes == |w.log| - w.entered < cfg.successThreshold
      && (forall k | w.entered <= k < |w.log| :: !w.log[k].failure)
      && b.halfOpenActive == Probes(w.requests, w.epoch) - w.strays
      && b.halfOpenActive <= cfg.halfOpenMax
  }

  ghost predicate Inv(cfg: Config, w: World) {
    LogInv(w) && CountInv(cfg, w)
  }

  lemma AdmitKeepsInv(cfg: Config, w: World, i: nat)
    requires Usable(cfg) && Inv(cfg, w) && Step(cfg, w, Admit(i)).Some?
    ensures Inv(cfg, Step(cfg, w, Admit(i)).value)
  {
    hide Streak, Latest, Count, Flying;
    var v := Step(cfg, w, Admit(i)).value;
    CountUpdate(w.requests, i, v.requests[i], IsProbe(v.epoch));
    NoProbesLater(w);
  }

  lemma NoProbesLater(w: World)
    requires LogInv(w)
    ensures Probes(w.requests, w.epoch + 1) == 0
  {
    CountBounds(w.requests, IsProbe(w.epoch + 1));
  }

  lemma StreakGrows(log: seq<Entry>, from: nat, e: Entry)
    requires from <= |log|
    ensures Streak(log + [e], from) == if e.failure then 1 + Streak(log, from) else 0
    ensures Streak(log + [e], |log + [e]|) == 0
    ensures Latest(log + [e]) == if e.failure then Some(e.time) else Latest(log)
  {
    assert (log + [e])[..|log|] == log;
  }

  lemma FinishKeepsInv(cfg: Config, w: World, i: nat, failure: bool)
    requires Usable(cfg) && Inv(cfg, w) && Step(cfg, w, Finish(i, failure)).Some?
    ensures Inv(cfg, Step(cfg, w, Finish(i, failure)).value)
  {
    hide Streak, Latest, Count, Flying;
    CountUpdate(w.requests, i, Done, IsProbe(w.epoch));
    var e := Entry(w.breaker.status, failure, w.now);
    StreakGrows(w.log, w.entered, e);
  }

  lemma StepKeepsInv(cfg: Config, w: World, e: Event)
    requires Usable(cfg) && Inv(cfg, w) && Step(cfg, w, e).Some?
    ensures Inv(cfg, Step(cfg, w, e).value)
  {
    match e {
      case Tick(d) =>
      case ResetCall =>
      case Admit(i) => AdmitKeepsInv(cfg, w, i);
      case Finish(i, failure) => FinishKeepsInv(cfg, w, i, failure);
    }
  }

  lemma {:induction false} RunKeepsInv(cfg: Config, w: World, run: seq<Event>)
    requires Usable(cfg) && Inv(cfg, w) && Exec(cfg, w, run).Some?
    ensures Inv(cfg, Exec(cfg, w, run).value)
    decreases |run|
  {
    if run != [] {
      StepKeepsInv(cfg, w, run[0]);
      RunKeepsInv(cfg, Step(cfg, w, run[0]).value, run[1..]);
    }
  }

  ghost predicate Reaches(cfg: Config, n: nat, start: int, run: seq<Event>, w: World) {
    Exec(New(cfg), Init(n, start), run) == Some(w)
  }

  lemma ReachableInv(cfg: Config, n: nat, start: int, run: seq<Event>, w: World)
    requires Reaches(cfg, n, start, run, w)
    ensures Usable(New(cfg)) && Inv(New(cfg), w)
  {
    RunKeepsInv(New(cfg), Init(n, start), run);
  }

  /** The last n outcomes were recorded since the current state was entered, and all were failures. */
  predicate FailedInARow(log: seq<Entry>, from: nat, n: int) {
    from <= |log| && from + n <= |log| && forall k | |log| - n <= k < |log| && k >= 0 :: log[k].failure
  }

  lemma StreakIsFailures(log: seq<Entry>, from: nat, n: int)
    requires from <= |log| && n > 0
    ensures Streak(log, from) >= n <==> FailedInARow(log, from, n)
  {
    hide Streak;
    StreakFacts(log, from);
  }

  /** From closed, the breaker opens exactly on the outcome that completes FailureThreshold consecutive
      failures recorded while it stayed closed; it goes nowhere else. */
  lemma OpensExactly(cfg: Config, n: nat, start: int, run: seq<Event>, w: World, e: Event)
    requires Reaches(cfg, n, start, run, w) && Step(New(cfg), w, e).Some? && w.breaker.status == Closed
    ensures var v := Step(New(cfg), w, e).value;
            && v.breaker.status != HalfOpen && w.entered <= |w.log|
            && (v.breaker.status == Open <==> e.Finish? && FailedInARow(v.log, w.entered, New(cfg).failureThreshold))
            && (forall k | w.entered <= k < |v.log| :: v.log[k].status == Closed)
  {
    hide FailedInARow, Streak, Latest, Count;
    ReachableInv(cfg, n, start, run, w);
    if e.Finish? {
      var entry := Entry(Closed, e.failure, w.now);
      StreakGrows(w.log, w.entered, entry);
      StreakIsFailures(w.log + [entry], w.entered, New(cfg).failureThreshold);
    }
  }

  /** From half-open, the breaker closes exactly by Reset or on the outcome that makes SuccessThreshold
      successes since it became half-open, none of them a failure. */
  lemma ClosesExactly(cfg: Config, n: nat, start: int, run: seq<Event>, w: World, e: Event)
    requires Reaches(cfg, n, start, run, w) && Step(New(cfg), w, e).Some? && w.breaker.status == HalfOpen
    ensures var v := Step(New(cfg), w, e).value;
            && w.entered <= |w.log|
            && (v.breaker.status == Closed <==>
                  e.ResetCall? || (e.Finish? && !e.failure && |v.log| - w.entered == New(cfg).successThreshold))
            && (v.breaker.status == Open <==> e.Finish? && e.failure)
            && (forall k | w.entered <= k < |w.log| :: w.log[k].status == HalfOpen && !w.log[k].failure)
  {
    ReachableInv(cfg, n, start, run, w);
  }

  /** While open, a request is admitted exactly when OpenDuration has passed since the latest failure
      recorded anywhere in the run, late ones included; nothing but that or Reset ends the open state. */
  lemma OpenHoldsBack(cfg: Config, n: nat, start: int, run: seq<Event>, w: World, e: Event)
    requires Reaches(cfg, n, start, run, w) && Step(New(cfg), w, e).Some? && w.breaker.status == Open
    ensures var v := Step(New(cfg), w, e).value;
            && Latest(w.log).Some?
            && (e.Admit? && e.i < |v.requests| ==>
                  (v.requests[e.i].InFlight? <==> w.now - Latest(w.log).value >= New(cfg).openDuration))
            && (v.breaker.status == Closed <==> e.ResetCall?)
            && (v.breaker.status == HalfOpen <==> e.Admit? && e.i < |v.requests| && v.requests[e.i].InFlight?)
  {
    ReachableInv(cfg, n, start, run, w);
  }

  // HalfOpenMax, documented as the most concurrent requests in half-open.

  predicate IsHalfOpenProbe(r: Request) {
    r.InFlight? && r.probe
  }

  /** Requests admitted while the breaker was half-open, in whichever stay, and still in flight. */
  function HalfOpenProbes(requests: seq<Request>): nat {
    Count(requests, IsHalfOpenProbe)
  }

  /** What is in flight while half-open is what the breaker counts and what the stay began with. */
  ghost predicate ProbeInv(cfg: Config, w: World) {
    && HalfOpenProbes(w.requests) <= cfg.halfOpenMax + w.leftover
    && (w.breaker.status == HalfOpen ==>
          w.breaker.halfOpenActive <= cfg.halfOpenMax && Flying(w.requests) <= w.breaker.halfOpenActive + w.leftover)
  }

  lemma StepKeepsProbeInv(cfg: Config, w: World, e: Event)
    requires Usable(cfg) && ProbeInv(cfg, w) && Step(cfg, w, e).Some?
    ensures ProbeInv(cfg, Step(cfg, w, e).value)
  {
    hide Count;
    var v := Step(cfg, w, e).value;
    if e.Admit? || e.Finish? {
      CountUpdate(w.requests, e.i, v.requests[e.i], IsFlying);
      CountUpdate(w.requests, e.i, v.requests[e.i], IsHalfOpenProbe);
      CountMono(v.requests, IsHalfOpenProbe, IsFlying);
    }
  }

  lemma {:induction false} RunKeepsProbeInv(cfg: Config, w: World, run: seq<Event>)
    requires Usable(cfg) && ProbeInv(cfg, w) && Exec(cfg, w, run).Some?
    ensures ProbeInv(cfg, Exec(cfg, w, run).value)
    decreases |run|
  {
    if run != [] {
      StepKeepsProbeInv(cfg, w, run[0]);
      RunKeepsProbeInv(cfg, Step(cfg, w, run[0]).value, run[1..]);
    }
  }

  /** The half-open probes in flight, and while half-open all requests in flight, exceed HalfOpenMax by at
      most the requests that were still in flight when the breaker became half-open. */
  lemma ProbesAndLeftover(cfg: Config, n: nat, start: int, run: seq<Event>, w: World)
    requires Reaches(cfg, n, start, run, w)
    ensures HalfOpenProbes(w.requests) <= New(cfg).halfOpenMax + w.leftover
    ensures w.breaker.status == HalfOpen ==> Flying(w.requests) <= New(cfg).halfOpenMax + w.leftover
  {
    CountBounds(Init(n, start).requests, IsHalfOpenProbe);
    RunKeepsProbeInv(New(cfg), Init(n, start), run);
  }

  /** Of one stay alone: the probes admitted in the current half-open stay and still in flight exceed
      HalfOpenMax by at most the outcomes that requests admitted earlier have recorded since: each of those
      gives back a place it never took. They are successes, so there are fewer than SuccessThreshold. */
  lemma StayProbesInFlight(cfg: Config, n: nat, start: int, run: seq<Event>, w: World)
    requires Reaches(cfg, n, start, run, w) && w.breaker.status == HalfOpen
    ensures Probes(w.requests, w.epoch) <= New(cfg).halfOpenMax + w.strays
    ensures w.strays < New(cfg).successThreshold
    ensures Probes(w.requests, w.epoch) <= New(cfg).halfOpenMax + New(cfg).successThreshold - 1
  {
    ReachableInv(cfg, n, start, run, w);
  }

  // Both bounds are reached, under every configuration.

  ghost predicate Can(cfg: Config, w: World, v: World) {
    exists run :: Exec(cfg, w, run) == Some(v)
  }

  lemma {:induction false} ExecBoth(cfg: Config, u: World, first: seq<Event>, v: World, more: seq<Event>)
    requires Exec(cfg, u, first) == Some(v)
    ensures Exec(cfg, u, first + more) == Exec(cfg, v, more)
    decreases |first|
  {
    if first == [] {
      assert first + more == more;
    } else {
      assert (first + more)[1..] == first[1..] + more;
      ExecBoth(cfg, Step(cfg, u, first[0]).value, first[1..], v, more);
    }
  }

  lemma CanStep(cfg: Config, u: World, v: World, e: Event, w: World)
    requires Can(cfg, u, v) && Step(cfg, v, e) == Some(w)
    ensures Can(cfg, u, w)
  {
    var run :| Exec(cfg, u, run) == Some(v);
    ExecBoth(cfg, u, run, v, [e]);
    assert [e][1..] == [] && Exec(cfg, w, []) == Some(w);
    assert Exec(cfg, u, run + [e]) == Some(w);
  }

  /** Requests below `done` have ended, those up to `stale` were admitted while closed and those up to
      `probing` while half-open, the rest have not begun. */
  function Stage(n: nat, done: nat, stale: nat, probing: nat): seq<Request> {
    seq(n, i => if i < done then Done else if i < stale then InFlight(0, false)
                else if i < probing then InFlight(2, true) else Idle)
  }

  function Failures(k: nat, time: int): seq<Entry> {
    seq(k, i => Entry(Closed, true, time))
  }

  function Successes(k: nat, time: int): seq<Entry> {
    seq(k, i => Entry(HalfOpen, false, time))
  }

  lemma StageMoves(n: nat, done: nat, stale: nat, probing: nat)
    requires done <= stale <= probing < n
    ensures stale == probing ==> Stage(n, done, stale, stale)[stale := InFlight(0, false)] == Stage(n, done, stale + 1, stale + 1)
    ensures done < stale ==> Stage(n, done, stale, probing)[done := Done] == Stage(n, done + 1, stale, probing)
    ensures Stage(n, done, stale, probing)[probing := InFlight(2, true)] == Stage(n, done, stale, probing + 1)
    ensures Flying(Stage(n, done, stale, probing)) == probing - done
  {
    CountRange(Stage(n, done, stale, probing), done, probing, IsFlying);
  }

  /** k requests admitted while closed. */
  function Filling(n: nat, k: nat): World {
    World(0, INITIAL, Stage(n, 0, k, k), [], 0, 0, 0, 0)
  }

  lemma {:induction false} CanFill(cfg: Config, n: nat, k: nat)
    requires k < n
    ensures Can(cfg, Filling(n, 0), Filling(n, k))
  {
    if k == 0 {
      assert Exec(cfg, Filling(n, 0), []) == Some(Filling(n, 0));
    } else {
      CanFill(cfg, n, k - 1);
      StageMoves(n, 0, k - 1, k - 1);
      CanStep(cfg, Filling(n, 0), Filling(n, k - 1), Admit(k - 1), Filling(n, k));
    }
  }

  /** k of `stale` admitted requests have failed, the last of them opening the breaker. */
  function Failing(cfg: Config, n: nat, stale: nat, k: nat): World {
    if k < cfg.failureThreshold then World(0, INITIAL.(failures := k), Stage(n, k, stale, stale), Failures(k, 0), 0, 0, 0, 0)
    else World(0, INITIAL.(status := Open), Stage(n, k, stale, stale), Failures(k, 0), 1, k, 0, 0)
  }

  lemma {:induction false} CanFail(cfg: Config, n: nat, stale: nat, k: nat)
    requires Usable(cfg) && k <= cfg.failureThreshold <= stale < n
    ensures Can(cfg, Filling(n, 0), Failing(cfg, n, stale, k))
  {
    if k == 0 {
      assert Failures(0, 0) == [];
      CanFill(cfg, n, stale);
    } else {
      var w, v := Failing(cfg, n, stale, k - 1), Failing(cfg, n, stale, k);
      CanFail(cfg, n, stale, k - 1);
      StageMoves(n, k - 1, stale, stale);
      assert Failures(k, 0) == Failures(k - 1, 0) + [Entry(Closed, true, 0)];
      CanStep(cfg, Filling(n, 0), w, Finish(k - 1, true), v);
    }
  }

  /** The open time has passed; `probing - stale` probes are in flight and k stale requests have succeeded. */
  function Probing(cfg: Config, n: nat, stale: nat, probing: nat, k: nat, active: int): World
    requires 0 < cfg.failureThreshold <= stale
  {
    var t := cfg.openDuration;
    World(t, Breaker(HalfOpen, 0, k, 0, active), Stage(n, cfg.failureThreshold + k, stale, probing),
          Failures(cfg.failureThreshold, 0) + Successes(k, t), 2, cfg.failureThreshold, k, stale - cfg.failureThreshold)
  }

  lemma {:induction false} CanProbe(cfg: Config, n: nat, stale: nat, k: nat)
    requires Usable(cfg) && cfg.failureThreshold <= stale < stale + k < n && 1 <= k <= cfg.halfOpenMax
    ensures Can(cfg, Filling(n, 0), Probing(cfg, n, stale, stale + k, 0, k))
  {
    var f := cfg.failureThreshold;
    StageMoves(n, f, stale, stale + k - 1);
    assert Failures(f, 0) + Successes(0, cfg.openDuration) == Failures(f, 0);
    if k == 1 {
      var w := Failing(cfg, n, stale, f);
      var v := w.(now := cfg.openDuration);
      CanFail(cfg, n, stale, f);
      CanStep(cfg, Filling(n, 0), w, Tick(cfg.openDuration), v);
      CanStep(cfg, Filling(n, 0), v, Admit(stale), Probing(cfg, n, stale, stale + 1, 0, 1));
    } else {
      var w := Probing(cfg, n, stale, stale + k - 1, 0, k - 1);
      CanProbe(cfg, n, stale, k - 1);
      CanStep(cfg, Filling(n, 0), w, Admit(stale + k - 1), Probing(cfg, n, stale, stale + k, 0, k));
    }
  }

  /** Each stale success frees a place, which one more probe takes. */
  lemma {:induction false} CanStray(cfg: Config, n: nat, stale: nat, k: nat)
    requires Usable(cfg) && k < cfg.successThreshold && stale == cfg.failureThreshold + cfg.successThreshold - 1
    requires n > stale + cfg.halfOpenMax + k
    ensures Can(cfg, Filling(n, 0), Probing(cfg, n, stale, stale + cfg.halfOpenMax + k, k, cfg.halfOpenMax))
  {
    var h, probing, t := cfg.halfOpenMax, stale + cfg.halfOpenMax + k, cfg.openDuration;
    if k == 0 {
      CanProbe(cfg, n, stale, h);
    } else {
      var u := Probing(cfg, n, stale, probing - 1, k - 1, h);
      var v := Probing(cfg, n, stale, probing - 1, k, h - 1);
      CanStray(cfg, n, stale, k - 1);
      var done := cfg.failureThreshold + k - 1;
      StageMoves(n, done, stale, probing - 1);
      StageMoves(n, done + 1, stale, probing - 1);
      assert Successes(k, t) == Successes(k - 1, t) + [Entry(HalfOpen, false, t)];
      assert v.log == u.log + [Entry(HalfOpen, false, t)];
      CanStep(cfg, Filling(n, 0), u, Finish(done, false), v);
      CanStep(cfg, Filling(n, 0), v, Admit(probing - 1), Probing(cfg, n, stale, probing, k, h));
    }
  }

  /** Under every configuration some run has HalfOpenMax + SuccessThreshold - 1 probes of one stay in flight. */
  lemma StraysLetProbesIn(cfg: Config) returns (n: nat, run: seq<Event>, w: World)
    ensures Reaches(cfg, n, 0, run, w) && w.breaker.status == HalfOpen
    ensures Probes(w.requests, w.epoch) == New(cfg).halfOpenMax + New(cfg).successThreshold - 1
  {
    var c := New(cfg);
    var stale := c.failureThreshold + c.successThreshold - 1;
    var probing := stale + c.halfOpenMax + c.successThreshold - 1;
    n := probing + 1;
    CanStray(c, n, stale, c.successThreshold - 1);
    assert Stage(n, 0, 0, 0) == Init(n, 0).requests;
    w := Probing(c, n, stale, probing, c.successThreshold - 1, c.halfOpenMax);
    run :| Exec(c, Filling(n, 0), run) == Some(w);
    CountRange(w.requests, stale, probing, IsProbe(2));
  }

  ghost predicate KeepsStayLimit(cfg: Config) {
    forall n, start, run, w | Reaches(cfg, n, start, run, w) && w.breaker.status == HalfOpen ::
      Probes(w.requests, w.epoch) <= New(cfg).halfOpenMax
  }

  /** So HalfOpenMax limits the probes of one stay, in all runs, if and only if one success closes the
      breaker. */
  lemma StayLimitHoldsExactly(cfg: Config)
    ensures KeepsStayLimit(cfg) <==> New(cfg).successThreshold == 1
  {
    if New(cfg).successThreshold == 1 {
      forall n, start, run, w | Reaches(cfg, n, start, run, w) && w.breaker.status == HalfOpen
        ensures Probes(w.requests, w.epoch) <= New(cfg).halfOpenMax
      {
        StayProbesInFlight(cfg, n, start, run, w);
      }
    } else {
      var n, run, w := StraysLetProbesIn(cfg);
      assert Reaches(cfg, n, 0, run, w);
    }
  }

  // A failure that comes from an earlier request ends the stay; its probes are in flight in the next one.

  /** As Stage, whichever stays admitted the requests. */
  predicate Laid(requests: seq<Request>, done: nat, stale: nat, probing: nat) {
    && done <= stale <= probing <= |requests|
    && forall i | 0 <= i < |requests| ::
         && (requests[i].Done? <==> i < done)
         && (requests[i].InFlight? <==> done <= i < probing)
         && (requests[i].InFlight? ==> (requests[i].probe <==> stale <= i))
  }

  /** After the open time the next request makes the breaker half-open, whatever is still in flight. */
  lemma CanReopen(cfg: Config, u: World, w: World, done: nat, stale: nat, probing: nat) returns (v: World)
    requires Usable(cfg) && Can(cfg, u, w) && w.breaker.status == Open && w.breaker.lastFailure <= w.now
    requires Laid(w.requests, done, stale, probing) && probing < |w.requests|
    ensures Can(cfg, u, v) && v.breaker.status == HalfOpen && v.breaker.halfOpenActive == 1
    ensures Laid(v.requests, done, stale, probing + 1) && |v.requests| == |w.requests|
    ensures v.leftover == Max(w.leftover, probing - done) && v.breaker.lastFailure <= v.now
  {
    var t := w.(now := w.now + cfg.openDuration);
    CountRange(w.requests, done, probing, IsFlying);
    v := Step(cfg, t, Admit(probing)).value;
    CanStep(cfg, u, w, Tick(cfg.openDuration), t);
    CanStep(cfg, u, t, Admit(probing), v);
  }

  /** Each of k requests left over from closed ends one stay by failing, and leaves its probe in flight. */
  lemma {:induction false} CanPileUp(cfg: Config, n: nat, left: nat, k: nat) returns (w: World)
    requires Usable(cfg) && k <= left && cfg.failureThreshold + left + k < n
    ensures Can(cfg, Filling(n, 0), w) && w.breaker.status == Open && w.breaker.lastFailure <= w.now
    ensures Laid(w.requests, cfg.failureThreshold + k, cfg.failureThreshold + left, cfg.failureThreshold + left + k)
    ensures |w.requests| == n && w.leftover <= left
  {
    var f := cfg.failureThreshold;
    if k == 0 {
      CanFail(cfg, n, f + left, f);
      w := Failing(cfg, n, f + left, f);
    } else {
      var u := CanPileUp(cfg, n, left, k - 1);
      var v := CanReopen(cfg, Filling(n, 0), u, f + k - 1, f + left, f + left + k - 1);
      w := Step(cfg, v, Finish(f + k - 1, true)).value;
      CanStep(cfg, Filling(n, 0), v, Finish(f + k - 1, true), w);
    }
  }

  /** The last stay admits k more. */
  lemma {:induction false} CanCrowd(cfg: Config, n: nat, left: nat, k: nat) returns (w: World)
    requires Usable(cfg) && 1 <= k <= cfg.halfOpenMax && cfg.failureThreshold + left + left + k < n
    ensures Can(cfg, Filling(n, 0), w) && w.breaker.status == HalfOpen && w.breaker.halfOpenActive == k
    ensures Laid(w.requests, cfg.failureThreshold + left, cfg.failureThreshold + left, cfg.failureThreshold + left + left + k)
    ensures |w.requests| == n && w.leftover == left
  {
    var f := cfg.failureThreshold;
    if k == 1 {
      var u := CanPileUp(cfg, n, left, left);
      w := CanReopen(cfg, Filling(n, 0), u, f + left, f + left, f + left + left);
    } else {
      var v := CanCrowd(cfg, n, left, k - 1);
      w := Step(cfg, v, Admit(f + left + left + k - 1)).value;
      CanStep(cfg, Filling(n, 0), v, Admit(f + left + left + k - 1), w);
    }
  }

  /** Under every configuration and for every number, some run in which at most so many requests are left in
      flight when the breaker becomes half-open has HalfOpenMax plus that number of probes in flight. */
  lemma LeftoverLetsProbesIn(cfg: Config, left: nat) returns (n: nat, run: seq<Event>, w: World)
    ensures Reaches(cfg, n, 0, run, w) && w.breaker.status == HalfOpen && w.leftover == left
    ensures HalfOpenProbes(w.requests) == New(cfg).halfOpenMax + left
  {
    var c := New(cfg);
    n := c.failureThreshold + left + left + c.halfOpenMax + 1;
    w := CanCrowd(c, n, left, c.halfOpenMax);
    assert Stage(n, 0, 0, 0) == Init(n, 0).requests;
    run :| Exec(c, Filling(n, 0), run) == Some(w);
    CountRange(w.requests, c.failureThreshold + left, c.failureThreshold + left + left + c.halfOpenMax, IsHalfOpenProbe);
  }

  ghost predicate Limited(w: World, m: int) {
    HalfOpenProbes(w.requests) <= m && (w.breaker.status == HalfOpen ==> Flying(w.requests) <= m)
  }

  /** The runs that leave at most `left` requests in flight when the breaker becomes half-open never have
      more than m probes in flight, nor more than m requests of any kind while half-open. */
  ghost predicate KeepsLimit(cfg: Config, left: nat, m: int) {
    forall n, start, run, w | Reaches(cfg, n, start, run, w) && w.leftover <= left :: Limited(w, m)
  }

  /** So the limit is HalfOpenMax plus what is left in flight when the breaker becomes half-open, exactly:
      it is HalfOpenMax if and only if nothing is left. */
  lemma HalfOpenMaxHoldsExactly(cfg: Config, left: nat, m: int)
    ensures KeepsLimit(cfg, left, m) <==> New(cfg).halfOpenMax + left <= m
    ensures KeepsLimit(cfg, left, New(cfg).halfOpenMax) <==> left == 0
  {
    forall n, start, run, w | Reaches(cfg, n, start, run, w) && w.leftover <= left
      ensures Limited(w, New(cfg).halfOpenMax + left)
    {
      ProbesAndLeftover(cfg, n, start, run, w);
    }
    var n, run, w := LeftoverLetsProbesIn(cfg, left);
    assert Reaches(cfg, n, 0, run, w);
  }

  /** And no configuration bounds them over all runs. */
  lemma HalfOpenProbesUnbounded(cfg: Config, m: nat) returns (n: nat, run: seq<Event>, w: World)
    ensures Reaches(cfg, n, 0, run, w) && w.breaker.status == HalfOpen && HalfOpenProbes(w.requests) > m
  {
    n, run, w := LeftoverLetsProbesIn(cfg, m);
  }

  /** A breaker with its totals. */
  datatype Books = Books(breaker: Breaker, total: int, failed: int, tripped: int)

  /** What a request does to them on its way in and on its way out, and what Reset does. */
  datatype Call = Begins(now: int) | Ends(failed: bool, now: int) | Resets

  function Perform(cfg: Config, a: Books, c: Call): Books {
    match c
    case Begins(now) =>
      var (b, ok) := CanProceed(cfg, a.breaker, now);
      a.(breaker := b, total := a.total + 1, tripped := if ok then a.tripped else a.tripped + 1)
    case Ends(failed, now) =>
      if failed then a.(breaker := RecordFailure(cfg, a.breaker, now), failed := a.failed + 1)
      else a.(breaker := RecordSuccess(cfg, a.breaker))
    case Resets => a.(breaker := Reset(a.breaker))
  }

  function PerformAll(cfg: Config, a: Books, calls: seq<Call>): Books
    decreases |calls|
  {
    if calls == [] then a else PerformAll(cfg, Perform(cfg, a, calls[0]), calls[1..])
  }

  predicate IsBegin(c: Call) { c.Begins? }
  predicate IsFailure(c: Call) { c.Ends? && c.failed }

  /** How many of the calls the breaker turns away. */
  function Refusals(cfg: Config, b: Breaker, calls: seq<Call>): nat
    decreases |calls|
  {
    if calls == [] then 0
    else
      Bit(calls[0].Begins? && !CanProceed(cfg, b, calls[0].now).1) +
      Refusals(cfg, Perform(cfg, Books(b, 0, 0, 0), calls[0]).breaker, calls[1..])
  }

  /** The totals count the requests begun, those that failed, and those turned away. */
  lemma {:induction false} TotalsCount(cfg: Config, a: Books, calls: seq<Call>)
    ensures var z := PerformAll(cfg, a, calls);
            && z.total == a.total + Count(calls, IsBegin)
            && z.failed == a.failed + Count(calls, IsFailure)
            && z.tripped == a.tripped + Refusals(cfg, a.breaker, calls)
    decreases |calls|
  {
    hide CanProceed, RecordFailure, RecordSuccess, Reset;
    if calls != [] {
      TotalsCount(cfg, Perform(cfg, a, calls[0]), calls[1..]);
    }
  }

  /** RoundTrip's bookkeeping around the base transport, as one object. */
  class Transport {
    const config: Config
    var status: Status
    var failures: int
    var successes: int
    var lastFailure: int
    var halfOpenActive: int
    var totalReqs: int
    var failedReqs: int
    var trippedReqs: int

    ghost function View(): Breaker
      reads this
    {
      Breaker(status, failures, successes, lastFailure, halfOpenActive)
    }

    ghost function Totalled(): Books
      reads this
    {
      Books(View(), totalReqs, failedReqs, trippedReqs)
    }

    constructor (cfg: Config)
      ensures View() == INITIAL && config == New(cfg)
      ensures config.failureThreshold == (if cfg.failureThreshold > 0 then cfg.failureThreshold else 5)
      ensures config.successThreshold == (if cfg.successThreshold > 0 then cfg.successThreshold else 3)
      ensures config.openDuration == (if cfg.openDuration > 0 then cfg.openDuration else 30_000_000_000)
      ensures config.halfOpenMax == (if cfg.halfOpenMax > 0 then cfg.halfOpenMax else 1)
      ensures totalReqs == failedReqs == trippedReqs == 0
    {
      config := New(cfg);
      status, failures, successes, lastFailure, halfOpenActive := Closed, 0, 0, 0, 0;
      totalReqs, failedReqs, trippedReqs := 0, 0, 0;
    }

    method TransitionLocked(to: Status)
      modifies this`status, this`failures, this`successes
      ensures View() == Transition(old(View()), to)
    {
      if status == to {
        return;
      }
      status := to;
      failures := 0;
      successes := 0;
    }

    method CanProceedNow(now: int) returns (ok: bool)
      modifies this`status, this`failures, this`successes, this`halfOpenActive
      ensures (View(), ok) == CanProceed(config, old(View()), now)
    {
      match status {
        case Closed => return true;
        case Open =>
          if now - lastFailure >= config.openDuration {
            TransitionLocked(HalfOpen);
            halfOpenActive := 1;
            return true;
          }
          return false;
        case HalfOpen =>
          if halfOpenActive < config.halfOpenMax {
            halfOpenActive := halfOpenActive + 1;
            return true;
          }
          return false;
      }
    }

    method RecordSuccessNow()
      modifies this`status, this`failures, this`successes, this`halfOpenActive
      ensures View() == RecordSuccess(config, old(View()))
    {
      match status {
        case HalfOpen =>
          successes := successes + 1;
          halfOpenActive := halfOpenActive - 1;
          if successes >= config.successThreshold {
            TransitionLocked(Closed);
          }
        case Closed => failures := 0;
        case Open =>
      }
    }

    method RecordFailureNow(now: int)
      modifies this`status, this`failures, this`successes, this`halfOpenActive, this`lastFailure
      ensures View() == RecordFailure(config, old(View()), now)
    {
      lastFailure := now;
      match status {
        case Closed =>
          failures := failures + 1;
          if failures >= config.failureThreshold {
            TransitionLocked(Open);
          }
        case HalfOpen =>
          halfOpenActive := halfOpenActive - 1;
          TransitionLocked(Open);
        case Open =>
      }
    }

    method ResetNow()
      modifies this`status, this`failures, this`successes
      ensures View() == Reset(old(View()))
    {
      TransitionLocked(Closed);
    }

    /** The base transport at work on one request, while others use the circuit breaker. */
    method BaseRoundTrip(others: seq<Call>)
      modifies this
      ensures Totalled() == PerformAll(config, old(Totalled()), others)
    {
      for i := 0 to |others|
        invariant PerformAll(config, Totalled(), others[i..]) == PerformAll(config, old(Totalled()), others)
      {
        assert others[i..][1..] == others[i + 1..];
        match others[i] {
          case Begins(now) =>
            totalReqs := totalReqs + 1;
            var ok := CanProceedNow(now);
            if !ok {
              trippedReqs := trippedReqs + 1;
            }
          case Ends(failed, now) =>
            if failed {
              RecordFailureNow(now);
              failedReqs := failedReqs + 1;
            } else {
              RecordSuccessNow();
            }
          case Resets => ResetNow();
        }
      }
    }

    /** One request among others: `failed` is the classifier's verdict on what the base transport returned,
        `others` all that happens between its admission and its outcome. */
    method RoundTrip(start: int, others: seq<Call>, failed: bool, finish: int) returns (admitted: bool)
      modifies this
      ensures admitted == CanProceed(config, old(View()), start).1
      ensures var begun := Perform(config, old(Totalled()), Begins(start));
              Totalled() == if admitted then Perform(config, PerformAll(config, begun, others), Ends(failed, finish)) else begun
    {
      totalReqs := totalReqs + 1;
      admitted := CanProceedNow(start);
      if !admitted {
        trippedReqs := trippedReqs + 1;
        return;
      }
      BaseRoundTrip(others);
      if failed {
        RecordFailureNow(finish);
        failedReqs := failedReqs + 1;
        return;
      }
      RecordSuccessNow();
    }
  }
}
