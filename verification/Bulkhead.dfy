/** packages/golib/bulkhead/bulkhead.go: any number of concurrent Execute calls.

    Each call is a thread with a program counter; every channel operation and every atomic counter
    update of Execute and run is a step of its own, so all interleavings are covered. */
module Bulkhead {
  import opened Counting
  import opened Wrappers

  datatype Config = Config(maxConcurrent: int, maxQueue: int)

  /** New: a non-positive MaxConcurrent becomes 10; the queue channel exists only if MaxQueue > 0. */
  function New(cfg: Config): Config {
    if cfg.maxConcurrent <= 0 then cfg.(maxConcurrent := 10) else cfg
  }

  /** How fn ends. A panic runs the deferred release but skips completed and failed. */
  datatype Outcome = Success | Failure | Panic

  datatype Verdict = Ran(outcome: Outcome) | Full | Timeout | Cancelled

  /** Each constructor names what the thread is about to do. */
  datatype Pc =
    | Idle                             // call Execute: try sem
    | Permitted                        // accepted.Add(1)
    | Counted                          // active.Add(1)
    | Inside                           // run fn
    | Returned(outcome: Outcome)       // completed.Add(1) or failed.Add(1)
    | Releasing(outcome: Outcome)      // <-sem
    | Leaving(outcome: Outcome)        // active.Add(-1)
    | Knocking                         // try queue
    | Queued                           // queued.Add(1)
    | Waiting                          // select: sem, timer, ctx
    | Granted                          // queued.Add(-1), then free the slot and run
    | FreeingSlot                      // <-queue
    | GivingUp(verdict: Verdict)       // queued.Add(-1), then free the slot and reject
    | DroppingSlot(verdict: Verdict)   // <-queue
    | Rejecting(verdict: Verdict)      // rejected.Add(1)
    | Done(verdict: Verdict)

  /** The two channels' occupancy and the six atomic counters. */
  datatype Shared = Shared(
    sem: nat, queue: nat,
    accepted: int, rejected: int, completed: int, failed: int, active: int, queued: int)

  datatype State = State(shared: Shared, threads: seq<Pc>)

  /** What the environment decides: how fn ends, and which ready case of the waiting select fires. */
  datatype Choice = Proceed | FnEnds(outcome: Outcome) | TimerFires | CtxDone

  function Init(calls: nat): State {
    State(Shared(0, 0, 0, 0, 0, 0, 0, 0), seq(calls, i => Idle))
  }

  datatype Move = Blocked | Move(shared: Shared, pc: Pc)

  /** One step of a thread at pc; Blocked when it is finished, must wait, or the choice does not apply. */
  function Act(c: Config, m: Shared, pc: Pc, ch: Choice): Move {
    match pc
    case Idle =>
      if m.sem < c.maxConcurrent then Move(m.(sem := m.sem + 1), Permitted) else Move(m, Knocking)
    case Permitted => Move(m.(accepted := m.accepted + 1), Counted)
    case Counted => Move(m.(active := m.active + 1), Inside)
    case Inside =>
      if !ch.FnEnds? then Blocked
      else if ch.outcome == Panic then Move(m, Releasing(Panic))
      else Move(m, Returned(ch.outcome))
    case Returned(o) =>
      if o == Success then Move(m.(completed := m.completed + 1), Releasing(o))
      else Move(m.(failed := m.failed + 1), Releasing(o))
    case Releasing(o) => if m.sem == 0 then Blocked else Move(m.(sem := m.sem - 1), Leaving(o))
    case Leaving(o) => Move(m.(active := m.active - 1), Done(Ran(o)))
    case Knocking =>
      if m.queue < c.maxQueue then Move(m.(queue := m.queue + 1), Queued) else Move(m, Rejecting(Full))
    case Queued => Move(m.(queued := m.queued + 1), Waiting)
    case Waiting =>
      if ch == TimerFires then Move(m, GivingUp(Timeout))
      else if ch == CtxDone then Move(m, GivingUp(Cancelled))
      else if m.sem < c.maxConcurrent then Move(m.(sem := m.sem + 1), Granted)
      else Blocked
    case Granted => Move(m.(queued := m.queued - 1), FreeingSlot)
    case FreeingSlot => if m.queue == 0 then Blocked else Move(m.(queue := m.queue - 1), Permitted)
    case GivingUp(v) => Move(m.(queued := m.queued - 1), DroppingSlot(v))
    case DroppingSlot(v) => if m.queue == 0 then Blocked else Move(m.(queue := m.queue - 1), Rejecting(v))
    case Rejecting(v) => Move(m.(rejected := m.rejected + 1), Done(v))
    case Done(_) => Blocked
  }

  function Advance(c: Config, s: State, i: nat, ch: Choice): Option<State> {
    if i >= |s.threads| then None else
    match Act(c, s.shared, s.threads[i], ch)
    case Blocked => None
    case Move(m, pc) => Some(State(m, s.threads[i := pc]))
  }

  datatype Event = Event(thread: nat, choice: Choice)

  /** Runs a schedule from s; None when some step of it is not enabled. */
  function Exec(c: Config, s: State, run: seq<Event>): Option<State>
    decreases |run|
  {
    if run == [] then Some(s) else
    match Advance(c, s, run[0].thread, run[0].choice)
    case None => None
    case Some(s') => Exec(c, s', run[1..])
  }

  // Where each shared variable counts a thread.

  predicate HoldsPermit(pc: Pc) {
    pc.Permitted? || pc.Counted? || pc.Inside? || pc.Returned? || pc.Releasing? || pc.Granted? || pc.FreeingSlot?
  }
  predicate HoldsSlot(pc: Pc) {
    pc.Queued? || pc.Waiting? || pc.Granted? || pc.FreeingSlot? || pc.GivingUp? || pc.DroppingSlot?
  }
  predicate WasAccepted(pc: Pc) {
    pc.Counted? || pc.Inside? || pc.Returned? || pc.Releasing? || pc.Leaving? || (pc.Done? && pc.verdict.Ran?)
  }
  predicate WasRejected(pc: Pc) {
    pc.Done? && !pc.verdict.Ran?
  }
  predicate Ended(pc: Pc, o: Outcome) {
    ((pc.Releasing? || pc.Leaving?) && pc.outcome == o) || pc == Done(Ran(o))
  }
  predicate Succeeded(pc: Pc) { Ended(pc, Success) }
  predicate Failed(pc: Pc) { Ended(pc, Failure) }
  predicate Panicked(pc: Pc) { Ended(pc, Panic) }
  predicate IsActive(pc: Pc) {
    pc.Inside? || pc.Returned? || pc.Releasing? || pc.Leaving?
  }
  predicate IsWaiting(pc: Pc) {
    pc.Waiting? || pc.Granted? || pc.GivingUp?
  }
  predicate IsInside(pc: Pc) { pc.Inside? }
  predicate IsLeaving(pc: Pc) { pc.Leaving? }
  predicate WasCalled(pc: Pc) { !pc.Idle? }
  predicate IsSettled(pc: Pc) { pc.Done? || pc.Idle? }

  /** A verdict carried by a rejected thread is never Ran, and Panic never reaches the counters. */
  predicate Plausible(pc: Pc) {
    && (pc.GivingUp? || pc.DroppingSlot? || pc.Rejecting? ==> !pc.verdict.Ran?)
    && (pc.Returned? ==> pc.outcome != Panic)
  }

  /** Both channels and all six counters are determined by where the threads are. */
  ghost predicate Inv(c: Config, s: State) {
    var m := s.shared;
    && m.sem <= c.maxConcurrent
    && (m.queue == 0 || m.queue <= c.maxQueue)
    && m.sem == Count(s.threads, HoldsPermit)
    && m.queue == Count(s.threads, HoldsSlot)
    && m.accepted == Count(s.threads, WasAccepted)
    && m.rejected == Count(s.threads, WasRejected)
    && m.completed == Count(s.threads, Succeeded)
    && m.failed == Count(s.threads, Failed)
    && m.active == Count(s.threads, IsActive)
    && m.queued == Count(s.threads, IsWaiting)
    && forall i | 0 <= i < |s.threads| :: Plausible(s.threads[i])
  }

  lemma InitInv(c: Config, calls: nat)
    requires c.maxConcurrent > 0
    ensures Inv(c, Init(calls))
  {
    var t := Init(calls).threads;
    CountBounds(t, HoldsPermit);
    CountBounds(t, HoldsSlot);
    CountBounds(t, WasAccepted);
    CountBounds(t, WasRejected);
    CountBounds(t, Succeeded);
    CountBounds(t, Failed);
    CountBounds(t, IsActive);
    CountBounds(t, IsWaiting);
  }

  /** Every step changes each shared variable by exactly what the moving thread stops or starts contributing. */
  lemma ActBalances(c: Config, m: Shared, pc: Pc, ch: Choice)
    requires Plausible(pc) && Act(c, m, pc, ch).Move?
    ensures var Move(m', pc') := Act(c, m, pc, ch);
            && Plausible(pc')
            && (m'.sem <= m.sem || m'.sem <= c.maxConcurrent)
            && (m'.queue <= m.queue || m'.queue <= c.maxQueue)
            && m'.sem - Bit(HoldsPermit(pc')) == m.sem - Bit(HoldsPermit(pc))
            && m'.queue - Bit(HoldsSlot(pc')) == m.queue - Bit(HoldsSlot(pc))
            && m'.accepted - Bit(WasAccepted(pc')) == m.accepted - Bit(WasAccepted(pc))
            && m'.rejected - Bit(WasRejected(pc')) == m.rejected - Bit(WasRejected(pc))
            && m'.completed - Bit(Succeeded(pc')) == m.completed - Bit(Succeeded(pc))
            && m'.failed - Bit(Failed(pc')) == m.failed - Bit(Failed(pc))
            && m'.active - Bit(IsActive(pc')) == m.active - Bit(IsActive(pc))
            && m'.queued - Bit(IsWaiting(pc')) == m.queued - Bit(IsWaiting(pc))
            && Distance(pc') < Distance(pc)
  {
  }

  /** Every step of every thread keeps the invariant. */
  lemma StepKeepsInv(c: Config, s: State, i: nat, ch: Choice)
    requires Inv(c, s) && Advance(c, s, i, ch).Some?
    ensures Inv(c, Advance(c, s, i, ch).value)
  {
    var t, x := s.threads, Act(c, s.shared, s.threads[i], ch).pc;
    ActBalances(c, s.shared, t[i], ch);
    CountUpdate(t, i, x, HoldsPermit);
    CountUpdate(t, i, x, HoldsSlot);
    CountUpdate(t, i, x, WasAccepted);
    CountUpdate(t, i, x, WasRejected);
    CountUpdate(t, i, x, Succeeded);
    CountUpdate(t, i, x, Failed);
    CountUpdate(t, i, x, IsActive);
    CountUpdate(t, i, x, IsWaiting);
  }

  lemma {:induction false} RunKeepsInv(c: Config, s: State, run: seq<Event>)
    requires Inv(c, s) && Exec(c, s, run).Some?
    ensures Inv(c, Exec(c, s, run).value)
    ensures |Exec(c, s, run).value.threads| == |s.threads|
    decreases |run|
  {
    if run != [] {
      StepKeepsInv(c, s, run[0].thread, run[0].choice);
      RunKeepsInv(c, Advance(c, s, run[0].thread, run[0].choice).value, run[1..]);
    }
  }

  ghost predicate Reaches(cfg: Config, calls: nat, run: seq<Event>, s: State) {
    Exec(New(cfg), Init(calls), run) == Some(s)
  }

  lemma ReachableInv(cfg: Config, calls: nat, run: seq<Event>, s: State)
    requires Reaches(cfg, calls, run, s)
    ensures Inv(New(cfg), s) && |s.threads| == calls
  {
    InitInv(New(cfg), calls);
    RunKeepsInv(New(cfg), Init(calls), run);
  }

  /** In every interleaving of any number of calls, at most MaxConcurrent threads are inside fn and at
      most MaxQueue hold queue slots; the active metric exceeds the limit at most by the threads
      that have returned their permit and not yet decremented it, and never the calls in progress. */
  lemma Limits(cfg: Config, calls: nat, run: seq<Event>, s: State)
    requires Reaches(cfg, calls, run, s)
    ensures Count(s.threads, IsInside) <= New(cfg).maxConcurrent
    ensures Count(s.threads, HoldsSlot) <= if cfg.maxQueue > 0 then cfg.maxQueue else 0
    ensures 0 <= s.shared.queued <= if cfg.maxQueue > 0 then cfg.maxQueue else 0
    ensures 0 <= s.shared.active <= New(cfg).maxConcurrent + Count(s.threads, IsLeaving)
    ensures s.shared.active <= Count(s.threads, InProgress) <= calls
  {
    ReachableInv(cfg, calls, run, s);
    CountMono(s.threads, IsInside, HoldsPermit);
    CountMono(s.threads, IsWaiting, HoldsSlot);
    CountSplit(s.threads, IsActive, IsActiveWithPermit, IsLeaving);
    CountMono(s.threads, IsActiveWithPermit, HoldsPermit);
    CountMono(s.threads, IsActive, InProgress);
    CountBounds(s.threads, InProgress);
  }

  predicate InProgress(pc: Pc) { !pc.Idle? && !pc.Done? }

  predicate IsActiveWithPermit(pc: Pc) { IsActive(pc) && !pc.Leaving? }

  /** No release of a permit or of a queue slot ever blocks, and no thread is ever stuck: each one that
      has not finished has a choice that moves it on, whatever the others do. */
  lemma NeverStuck(cfg: Config, calls: nat, run: seq<Event>, s: State, i: nat)
    requires Reaches(cfg, calls, run, s) && i < calls
    ensures |s.threads| == calls
    ensures (s.threads[i].Releasing? || s.threads[i].FreeingSlot? || s.threads[i].DroppingSlot?) ==>
              Advance(New(cfg), s, i, Proceed).Some?
    ensures s.threads[i].Done? || exists ch :: Advance(New(cfg), s, i, ch).Some?
  {
    ReachableInv(cfg, calls, run, s);
    CountBounds(s.threads, HoldsPermit);
    CountBounds(s.threads, HoldsSlot);
    var pc := s.threads[i];
    assert HoldsPermit(pc) ==> s.shared.sem > 0;
    assert HoldsSlot(pc) ==> s.shared.queue > 0;
    var ch := if pc.Inside? then FnEnds(Success) else if pc.Waiting? then TimerFires else Proceed;
    assert pc.Done? || Advance(New(cfg), s, i, ch).Some?;
  }

  ghost predicate Quiet(s: State) {
    forall i | 0 <= i < |s.threads| :: IsSettled(s.threads[i])
  }

  lemma QuietGauges(c: Config, s: State)
    requires Inv(c, s) && Quiet(s)
    ensures s.shared.sem == s.shared.queue == 0 && s.shared.active == s.shared.queued == 0
  {
    CountBounds(s.threads, HoldsPermit);
    CountBounds(s.threads, HoldsSlot);
    CountBounds(s.threads, IsActive);
    CountBounds(s.threads, IsWaiting);
  }

  lemma QuietTotals(c: Config, s: State)
    requires Inv(c, s) && Quiet(s)
    ensures s.shared.accepted + s.shared.rejected == Count(s.threads, WasCalled)
    ensures s.shared.accepted == s.shared.completed + s.shared.failed + Count(s.threads, Panicked)
  {
    CountSplit(s.threads, WasCalled, WasAccepted, WasRejected);
    forall i | 0 <= i < |s.threads|
      ensures Bit(WasAccepted(s.threads[i])) == Bit(RanToEnd(s.threads[i])) + Bit(Panicked(s.threads[i]))
    {
      assert IsSettled(s.threads[i]);
      match s.threads[i] {
        case Done(Ran(Success)) =>
        case Done(Ran(Failure)) =>
        case Done(Ran(Panic)) =>
        case _ =>
      }
    }
    CountSplit(s.threads, WasAccepted, RanToEnd, Panicked);
    CountSplit(s.threads, RanToEnd, Succeeded, Failed);
  }

  /** When no call is in flight every channel slot and gauge is back to zero, every call is counted
      exactly once as accepted or rejected, and accepted = completed + failed exactly when no fn panicked. */
  lemma Quiescence(cfg: Config, calls: nat, run: seq<Event>, s: State)
    requires Reaches(cfg, calls, run, s) && Quiet(s)
    ensures s.shared.sem == s.shared.queue == 0 && s.shared.active == s.shared.queued == 0
    ensures s.shared.accepted + s.shared.rejected == Count(s.threads, WasCalled)
    ensures s.shared.accepted == s.shared.completed + s.shared.failed + Count(s.threads, Panicked)
    ensures s.shared.accepted == s.shared.completed + s.shared.failed <==>
              forall i | 0 <= i < |s.threads| :: !Panicked(s.threads[i])
  {
    ReachableInv(cfg, calls, run, s);
    QuietGauges(New(cfg), s);
    QuietTotals(New(cfg), s);
    CountBounds(s.threads, Panicked);
  }

  predicate RanToEnd(pc: Pc) { Succeeded(pc) || Failed(pc) }

  // Termination: a thread only moves forward through the code.

  function Distance(pc: Pc): nat {
    match pc
    case Idle => 13 case Knocking => 12 case Queued => 11 case Waiting => 10
    case Granted => 9 case FreeingSlot => 8 case Permitted => 7 case Counted => 6 case Inside => 5
    case Returned(_) => 4 case Releasing(_) => 3 case Leaving(_) => 2
    case GivingUp(_) => 4 case DroppingSlot(_) => 3 case Rejecting(_) => 2
    case Done(_) => 0
  }

  function Remaining(threads: seq<Pc>): nat {
    if threads == [] then 0 else Distance(threads[0]) + Remaining(threads[1..])
  }

  lemma {:induction false} RemainingUpdate(t: seq<Pc>, i: nat, x: Pc)
    requires i < |t|
    ensures Remaining(t[i := x]) == Remaining(t) - Distance(t[i]) + Distance(x)
  {
    if i == 0 {
      assert t[i := x][1..] == t[1..];
    } else {
      assert t[i := x][1..] == t[1..][i - 1 := x];
      RemainingUpdate(t[1..], i - 1, x);
    }
  }

  lemma {:induction false} RunConsumes(c: Config, s: State, run: seq<Event>)
    requires Exec(c, s, run).Some?
    ensures |run| + Remaining(Exec(c, s, run).value.threads) <= Remaining(s.threads)
    decreases |run|
  {
    if run != [] {
      var s' := Advance(c, s, run[0].thread, run[0].choice).value;
      RemainingUpdate(s.threads, run[0].thread, s'.threads[run[0].thread]);
      RunConsumes(c, s', run[1..]);
    }
  }

  lemma {:induction false} AllIdle(t: seq<Pc>)
    requires forall i | 0 <= i < |t| :: t[i] == Idle
    ensures Remaining(t) == 13 * |t|
  {
    if t != [] {
      assert forall i | 0 <= i < |t| - 1 :: t[1..][i] == t[i + 1];
      AllIdle(t[1..]);
    }
  }

  /** No schedule of n calls is longer than 13n steps, so with NeverStuck every schedule that is
      kept going ends with all calls finished. */
  lemma EveryRunEnds(cfg: Config, calls: nat, run: seq<Event>, s: State)
    requires Reaches(cfg, calls, run, s)
    ensures |run| <= 13 * calls
  {
    RunConsumes(New(cfg), Init(calls), run);
    AllIdle(Init(calls).threads);
  }

  // Runs that exist, whatever the configuration.

  ghost predicate Can(c: Config, s: State, t: State) {
    exists run :: Exec(c, s, run) == Some(t)
  }

  lemma {:induction false} ExecBoth(c: Config, s: State, first: seq<Event>, t: State, more: seq<Event>)
    requires Exec(c, s, first) == Some(t)
    ensures Exec(c, s, first + more) == Exec(c, t, more)
    decreases |first|
  {
    if first == [] {
      assert first + more == more;
    } else {
      assert (first + more)[1..] == first[1..] + more;
      ExecBoth(c, Advance(c, s, first[0].thread, first[0].choice).value, first[1..], t, more);
    }
  }

  lemma CanStep(c: Config, s: State, t: State, i: nat, ch: Choice, u: State)
    requires Can(c, s, t) && Advance(c, t, i, ch) == Some(u)
    ensures Can(c, s, u)
  {
    var run :| Exec(c, s, run) == Some(t);
    var e := Event(i, ch);
    ExecBoth(c, s, run, t, [e]);
    assert [e][1..] == [] && Exec(c, u, []) == Some(u);
    assert Exec(c, s, run + [e]) == Some(u);
  }

  /** The first k calls have given their permits back and not yet decremented active, call k is at pc,
      the others have not begun. */
  function Row(calls: nat, k: nat, pc: Pc): seq<Pc> {
    seq(calls, i => if i < k then Leaving(Success) else if i == k then pc else Idle)
  }

  lemma RowMoves(calls: nat, k: nat, pc: Pc, next: Pc)
    requires k < calls
    ensures Row(calls, k, pc)[k] == pc && Row(calls, k, pc)[k := next] == Row(calls, k, next)
    ensures Row(calls, k, Leaving(Success)) == Row(calls, k + 1, Idle)
  {
  }

  function Passed(calls: nat, k: nat): State {
    State(Shared(0, 0, k, 0, k, 0, k, 0), Row(calls, k, Idle))
  }

  lemma CanMove(c: Config, calls: nat, k: nat, s: State, m: Shared, pc: Pc, ch: Choice, m': Shared, next: Pc)
    requires k < calls && Can(c, s, State(m, Row(calls, k, pc))) && Act(c, m, pc, ch) == Move(m', next)
    ensures Can(c, s, State(m', Row(calls, k, next)))
  {
    RowMoves(calls, k, pc, next);
    CanStep(c, s, State(m, Row(calls, k, pc)), k, ch, State(m', Row(calls, k, next)));
  }

  /** Call k gets as far as fn. */
  lemma CanEnter(c: Config, calls: nat, k: nat)
    requires c.maxConcurrent > 0 && k < calls && Can(c, Init(calls), Passed(calls, k))
    ensures Can(c, Init(calls), State(Shared(1, 0, k + 1, 0, k, 0, k + 1, 0), Row(calls, k, Inside)))
  {
    var s, m := Init(calls), Passed(calls, k).shared;
    var m1 := m.(sem := 1);
    var m2 := m1.(accepted := k + 1);
    CanMove(c, calls, k, s, m, Idle, Proceed, m1, Permitted);
    CanMove(c, calls, k, s, m1, Permitted, Proceed, m2, Counted);
    CanMove(c, calls, k, s, m2, Counted, Proceed, m2.(active := k + 1), Inside);
  }

  lemma {:induction false} CanPass(c: Config, calls: nat, k: nat)
    requires c.maxConcurrent > 0 && k <= calls
    ensures Can(c, Init(calls), Passed(calls, k))
  {
    if k == 0 {
      assert Row(calls, 0, Idle) == Init(calls).threads;
      assert Exec(c, Init(calls), []) == Some(Init(calls));
    } else {
      var j := k - 1;
      CanPass(c, calls, j);
      CanEnter(c, calls, j);
      var s, m := Init(calls), Shared(1, 0, k, 0, j, 0, k, 0);
      var m1 := m.(completed := k);
      CanMove(c, calls, j, s, m, Inside, FnEnds(Success), m, Returned(Success));
      CanMove(c, calls, j, s, m, Returned(Success), Proceed, m1, Releasing(Success));
      CanMove(c, calls, j, s, m1, Releasing(Success), Proceed, m1.(sem := 0), Leaving(Success));
      RowMoves(calls, j, Leaving(Success), Idle);
    }
  }

  /** Under every configuration the active metric reaches the number of calls, with one thread inside fn:
      permits go back before the decrement. */
  lemma ActiveReachesCalls(cfg: Config, calls: nat) returns (run: seq<Event>, s: State)
    requires calls > 0
    ensures Reaches(cfg, calls, run, s) && s.shared.active == calls && Count(s.threads, IsInside) == 1
  {
    var c, k := New(cfg), calls - 1;
    CanPass(c, calls, k);
    CanEnter(c, calls, k);
    s := State(Shared(1, 0, calls, 0, k, 0, calls, 0), Row(calls, k, Inside));
    run :| Exec(c, Init(calls), run) == Some(s);
    CountRange(s.threads, k, calls, IsInside);
  }

  ghost predicate KeepsActiveLimit(cfg: Config, calls: nat) {
    forall run, s | Reaches(cfg, calls, run, s) :: s.shared.active <= New(cfg).maxConcurrent
  }

  /** So the active metric stays within MaxConcurrent in all runs if and only if there are no more calls
      than that. */
  lemma ActiveLimitHoldsExactly(cfg: Config, calls: nat)
    ensures KeepsActiveLimit(cfg, calls) <==> calls <= New(cfg).maxConcurrent
  {
    if calls <= New(cfg).maxConcurrent {
      forall run, s | Reaches(cfg, calls, run, s) ensures s.shared.active <= New(cfg).maxConcurrent {
        Limits(cfg, calls, run, s);
      }
    } else {
      var run, s := ActiveReachesCalls(cfg, calls);
      assert Reaches(cfg, calls, run, s);
    }
  }

  /** For instance with one permit and two calls. */
  lemma ActiveMayExceedLimit() returns (run: seq<Event>, s: State)
    ensures Reaches(Config(1, 0), 2, run, s) && s.shared.active == 2 && Count(s.threads, IsInside) == 1
  {
    run, s := ActiveReachesCalls(Config(1, 0), 2);
  }

  /** A panicking fn does leave a call accepted that is neither completed nor failed. */
  lemma PanicUnbalances(cfg: Config, calls: nat) returns (run: seq<Event>, s: State)
    requires calls > 0
    ensures Reaches(cfg, calls, run, s) && Quiet(s)
    ensures s.shared.accepted == 1 && s.shared.completed == s.shared.failed == 0
  {
    var c, s0, m := New(cfg), Init(calls), Shared(1, 0, 1, 0, 0, 0, 1, 0);
    CanPass(c, calls, 0);
    CanEnter(c, calls, 0);
    CanMove(c, calls, 0, s0, m, Inside, FnEnds(Panic), m, Releasing(Panic));
    CanMove(c, calls, 0, s0, m, Releasing(Panic), Proceed, m.(sem := 0), Leaving(Panic));
    CanMove(c, calls, 0, s0, m.(sem := 0), Leaving(Panic), Proceed, m.(sem := 0, active := 0), Done(Ran(Panic)));
    s := State(m.(sem := 0, active := 0), Row(calls, 0, Done(Ran(Panic))));
    run :| Exec(c, s0, run) == Some(s);
  }
}
