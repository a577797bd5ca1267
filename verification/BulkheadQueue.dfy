/** Who waits and who is turned away in packages/golib/bulkhead/bulkhead.go, over the runs of module
    Bulkhead. */
module BulkheadQueue {
  import opened Bulkhead
  import opened Counting
  import opened Wrappers

  /** The places in the queue; without a queue there are none. */
  function Places(cfg: Config): nat {
    if cfg.maxQueue > 0 then cfg.maxQueue else 0
  }

  function MaxRunning(cfg: Config): nat {
    if cfg.maxConcurrent > 0 then cfg.maxConcurrent else 10
  }

  lemma Moves(cfg: Config, calls: nat, run: seq<Event>, s: State, i: nat, ch: Choice, m: Shared, pc: Pc)
    requires Reaches(cfg, calls, run, s) && i < calls && |s.threads| == calls
    requires Act(New(cfg), s.shared, s.threads[i], ch) == Move(m, pc)
    ensures Advance(New(cfg), s, i, ch) == Some(State(m, s.threads[i := pc]))
  {
  }

  /** A call takes a permit at once exactly when fewer than MaxConcurrent threads hold one, and otherwise
      tries the queue. */
  lemma EntersExactly(cfg: Config, calls: nat, run: seq<Event>, s: State, i: nat, ch: Choice)
    requires Reaches(cfg, calls, run, s) && i < calls && |s.threads| == calls && s.threads[i] == Idle
    ensures Advance(New(cfg), s, i, ch).Some?
    ensures Advance(New(cfg), s, i, ch).value.threads ==
            s.threads[i := if Count(s.threads, HoldsPermit) < MaxRunning(cfg) then Permitted else Knocking]
  {
    ReachableInv(cfg, calls, run, s);
  }

  /** A call without a permit gets a place in the queue exactly when fewer than MaxQueue threads hold one,
      and is otherwise rejected as full. */
  lemma QueuesExactly(cfg: Config, calls: nat, run: seq<Event>, s: State, i: nat, ch: Choice)
    requires Reaches(cfg, calls, run, s) && i < calls && |s.threads| == calls && s.threads[i] == Knocking
    ensures Advance(New(cfg), s, i, ch).Some?
    ensures Advance(New(cfg), s, i, ch).value.threads ==
            s.threads[i := if Count(s.threads, HoldsSlot) < Places(cfg) then Queued else Rejecting(Full)]
  {
    ReachableInv(cfg, calls, run, s);
  }

  /** One with a place gets to wait. */
  lemma QueuedWaits(cfg: Config, calls: nat, run: seq<Event>, s: State, i: nat, ch: Choice)
    requires Reaches(cfg, calls, run, s) && i < calls && |s.threads| == calls && s.threads[i] == Queued
    ensures Advance(New(cfg), s, i, ch).Some?
    ensures Advance(New(cfg), s, i, ch).value.threads == s.threads[i := Waiting]
  {
  }

  /** The wait ends by the timer, by the context, or with a permit, and this last exactly when fewer than
      MaxConcurrent threads hold one. */
  lemma WaitEnds(cfg: Config, calls: nat, run: seq<Event>, s: State, i: nat)
    requires Reaches(cfg, calls, run, s) && i < calls && |s.threads| == calls && s.threads[i] == Waiting
    ensures Advance(New(cfg), s, i, TimerFires).Some? && Advance(New(cfg), s, i, CtxDone).Some?
    ensures Advance(New(cfg), s, i, TimerFires).value.threads == s.threads[i := GivingUp(Timeout)]
    ensures Advance(New(cfg), s, i, CtxDone).value.threads == s.threads[i := GivingUp(Cancelled)]
    ensures Advance(New(cfg), s, i, Proceed).Some? <==> Count(s.threads, HoldsPermit) < MaxRunning(cfg)
    ensures Advance(New(cfg), s, i, Proceed).Some? ==> Advance(New(cfg), s, i, Proceed).value.threads == s.threads[i := Granted]
  {
    ReachableInv(cfg, calls, run, s);
  }

  /** A thread on its way out after waiting carries the reason for which the wait ended. */
  predicate HasReason(pc: Pc) {
    pc.GivingUp? || pc.DroppingSlot? ==> pc.verdict == Timeout || pc.verdict == Cancelled
  }

  /** The verdict a thread will end with, once it is settled. */
  predicate Bound(pc: Pc, v: Verdict) {
    match pc
    case Returned(o) => v == Ran(o)
    case Releasing(o) => v == Ran(o)
    case Leaving(o) => v == Ran(o)
    case GivingUp(w) => v == w
    case DroppingSlot(w) => v == w
    case Rejecting(w) => v == w
    case Done(w) => v == w
    case _ => false
  }

  /** How fn ends decides the verdict, and a verdict once settled is the one the call returns. */
  lemma VerdictIsKept(c: Config, s: State, i: nat, ch: Choice, v: Verdict)
    requires Advance(c, s, i, ch).Some?
    ensures var next := Advance(c, s, i, ch).value.threads[i];
            && (s.threads[i] == Inside && v.Ran? && ch == FnEnds(v.outcome) ==> Bound(next, v))
            && (Bound(s.threads[i], v) ==> Bound(next, v))
  {
  }

  predicate IsFull(pc: Pc) {
    pc == Rejecting(Full) || pc == Done(Full)
  }

  /** Some state of the run had thread i about to try a queue all of whose places were taken. */
  ghost predicate FoundFull(cfg: Config, calls: nat, run: seq<Event>, i: nat) {
    exists k | 0 <= k < |run| :: FullAt(cfg, calls, run[..k], i)
  }

  ghost predicate FullAt(cfg: Config, calls: nat, run: seq<Event>, i: nat) {
    exists s :: Reaches(cfg, calls, run, s) && i < |s.threads| && s.threads[i] == Knocking
             && Count(s.threads, HoldsSlot) == Places(cfg)
  }

  lemma {:induction false} ExecFront(c: Config, s: State, run: seq<Event>)
    requires run != [] && Exec(c, s, run).Some?
    ensures Exec(c, s, run[..|run| - 1]).Some?
    ensures var u, e := Exec(c, s, run[..|run| - 1]).value, run[|run| - 1];
            Advance(c, u, e.thread, e.choice) == Exec(c, s, run)
    decreases |run|
  {
    if |run| == 1 {
      assert run[..0] == [] && run[1..] == [];
    } else {
      var v := Advance(c, s, run[0].thread, run[0].choice).value;
      ExecFront(c, v, run[1..]);
      assert run[..|run| - 1][1..] == run[1..][..|run| - 2];
    }
  }

  /** What one step can do to the verdicts of the threads. */
  lemma StepReasons(cfg: Config, calls: nat, run: seq<Event>, s: State, i: nat, ch: Choice, j: nat)
    requires Reaches(cfg, calls, run, s) && |s.threads| == calls && j < calls && Advance(New(cfg), s, i, ch).Some?
    requires HasReason(s.threads[j])
    ensures var t := Advance(New(cfg), s, i, ch).value;
            && |t.threads| == calls && HasReason(t.threads[j])
            && (IsFull(t.threads[j]) && !IsFull(s.threads[j]) ==> s.threads[j] == Knocking && Count(s.threads, HoldsSlot) == Places(cfg))
  {
    ReachableInv(cfg, calls, run, s);
  }

  /** A call is rejected as full only because, when it tried, MaxQueue threads held places in the queue. */
  lemma {:induction false} FullMeansFull(cfg: Config, calls: nat, run: seq<Event>, s: State, i: nat)
    requires Reaches(cfg, calls, run, s) && i < calls
    ensures |s.threads| == calls && HasReason(s.threads[i])
    ensures IsFull(s.threads[i]) ==> FoundFull(cfg, calls, run, i)
    decreases |run|
  {
    ReachableInv(cfg, calls, run, s);
    if run != [] {
      var front, e := run[..|run| - 1], run[|run| - 1];
      ExecFront(New(cfg), Init(calls), run);
      var u := Exec(New(cfg), Init(calls), front).value;
      FullMeansFull(cfg, calls, front, u, i);
      StepReasons(cfg, calls, front, u, e.thread, e.choice, i);
      FoundLater(cfg, calls, run, i);
      if IsFull(s.threads[i]) && !IsFull(u.threads[i]) {
        assert FullAt(cfg, calls, front, i);
      }
    }
  }

  lemma FoundLater(cfg: Config, calls: nat, run: seq<Event>, i: nat)
    requires run != []
    ensures FoundFull(cfg, calls, run[..|run| - 1], i) ==> FoundFull(cfg, calls, run, i)
  {
    var front := run[..|run| - 1];
    if FoundFull(cfg, calls, front, i) {
      var k :| 0 <= k < |front| && FullAt(cfg, calls, front[..k], i);
      assert front[..k] == run[..k];
    }
  }
}
