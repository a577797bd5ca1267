/** The Bulkhead of packages/golib/bulkhead/bulkhead.go as an object: Execute and run in the order the
    code has them, proved to take exactly the steps module Bulkhead gives a call that runs alone. */
module BulkheadObjects {
  import opened Wrappers
  import B = Bulkhead

  /** The rest of a call from pc on when no other thread moves: fn ends as `ends`, and a full bulkhead
      keeps it waiting until `wait` fires. None when a step blocks. */
  function Alone(c: B.Config, m: B.Shared, pc: B.Pc, ends: B.Outcome, wait: B.Choice): Option<(B.Shared, B.Verdict)>
    decreases B.Distance(pc)
  {
    if pc.Done? then Some((m, pc.verdict)) else
    match B.Act(c, m, pc, Choice(pc, ends, wait))
    case Blocked => None
    case Move(m', pc') => Alone(c, m', pc', ends, wait)
  }

  function Choice(pc: B.Pc, ends: B.Outcome, wait: B.Choice): B.Choice {
    if pc.Inside? then B.FnEnds(ends) else if pc.Waiting? then wait else B.Proceed
  }

  lemma Took(c: B.Config, m: B.Shared, pc: B.Pc, m': B.Shared, pc': B.Pc, ends: B.Outcome, wait: B.Choice)
    requires B.Act(c, m, pc, Choice(pc, ends, wait)) == B.Move(m', pc')
    ensures Alone(c, m, pc, ends, wait) == Alone(c, m', pc', ends, wait)
  {
  }

  lemma Ended(c: B.Config, m: B.Shared, v: B.Verdict, ends: B.Outcome, wait: B.Choice)
    ensures Alone(c, m, B.Done(v), ends, wait) == Some((m, v))
  {
  }

  class Bulkhead {
    const config: B.Config
    var sem: nat
    var queue: nat
    var accepted: int
    var rejected: int
    var completed: int
    var failed: int
    var active: int
    var queued: int

    function View(): B.Shared
      reads this
    {
      B.Shared(sem, queue, accepted, rejected, completed, failed, active, queued)
    }

    constructor (cfg: B.Config)
      ensures config == B.New(cfg)
      ensures config == B.Config(if cfg.maxConcurrent > 0 then cfg.maxConcurrent else 10, cfg.maxQueue)
      ensures View() == B.Init(0).shared
    {
      config := if cfg.maxConcurrent <= 0 then cfg.(maxConcurrent := 10) else cfg;
      sem, queue, accepted, rejected, completed, failed, active, queued := 0, 0, 0, 0, 0, 0, 0, 0;
    }

    /** A call runs if there is a permit, else waits if there is a queue slot, else is rejected as full; one
        that waits alone ends as the timer or the context says. It counts once, and leaves every gauge as it was. */
    method Execute(ends: B.Outcome, wait: B.Choice) returns (v: B.Verdict)
      requires wait == B.TimerFires || wait == B.CtxDone
      modifies this
      ensures Alone(config, old(View()), B.Idle, ends, wait) == Some((View(), v))
      ensures v == if old(sem) < config.maxConcurrent then B.Ran(ends)
                   else if old(queue) >= config.maxQueue then B.Full
                   else if wait == B.TimerFires then B.Timeout else B.Cancelled
      ensures accepted == old(accepted) + (if v.Ran? then 1 else 0) && rejected == old(rejected) + (if v.Ran? then 0 else 1)
      ensures completed == old(completed) + (if v == B.Ran(B.Success) then 1 else 0)
      ensures failed == old(failed) + (if v == B.Ran(B.Failure) then 1 else 0)
      ensures (sem, queue, active, queued) == old((sem, queue, active, queued))
    {
      hide Alone;
      ghost var m0 := View();
      if sem < config.maxConcurrent {
        sem := sem + 1;
        Took(config, m0, B.Idle, View(), B.Permitted, ends, wait);
        v := Enter(ends, wait);
        return;
      }
      Took(config, m0, B.Idle, m0, B.Knocking, ends, wait);
      if queue < config.maxQueue {
        queue := queue + 1;
        ghost var m1 := View();
        Took(config, m0, B.Knocking, m1, B.Queued, ends, wait);
        queued := queued + 1;
        v := Wait(ends, wait);
        Took(config, m1, B.Queued, m1.(queued := m1.queued + 1), B.Waiting, ends, wait);
        return;
      }
      Took(config, m0, B.Knocking, m0, B.Rejecting(B.Full), ends, wait);
      rejected := rejected + 1;
      Took(config, m0, B.Rejecting(B.Full), View(), B.Done(B.Full), ends, wait);
      Ended(config, View(), B.Full, ends, wait);
      return B.Full;
    }

    /** The second select: a permit that others have given back, the timer, or the context. */
    method Wait(ends: B.Outcome, wait: B.Choice) returns (v: B.Verdict)
      requires queue > 0 && (wait == B.TimerFires || wait == B.CtxDone || (wait == B.Proceed && sem < config.maxConcurrent))
      modifies this
      ensures Alone(config, old(View()), B.Waiting, ends, wait) == Some((View(), v))
      ensures (sem, active) == old((sem, active)) && queue == old(queue) - 1 && queued == old(queued) - 1
      ensures rejected == old(rejected) + (if wait == B.Proceed then 0 else 1)
      ensures accepted == old(accepted) + (if wait == B.Proceed then 1 else 0)
      ensures completed == old(completed) + (if v == B.Ran(B.Success) then 1 else 0)
      ensures failed == old(failed) + (if v == B.Ran(B.Failure) then 1 else 0)
      ensures v == if wait == B.TimerFires then B.Timeout else if wait == B.CtxDone then B.Cancelled else B.Ran(ends)
    {
      hide Alone;
      ghost var m0 := View();
      if wait == B.Proceed {
        sem := sem + 1;
        ghost var m1 := View();
        Took(config, m0, B.Waiting, m1, B.Granted, ends, wait);
        queued := queued - 1;
        ghost var m2 := View();
        Took(config, m1, B.Granted, m2, B.FreeingSlot, ends, wait);
        queue := queue - 1;
        Took(config, m2, B.FreeingSlot, View(), B.Permitted, ends, wait);
        v := Enter(ends, wait);
        return;
      }
      v := if wait == B.TimerFires then B.Timeout else B.Cancelled;
      Took(config, m0, B.Waiting, m0, B.GivingUp(v), ends, wait);
      queued := queued - 1;
      ghost var m1 := View();
      Took(config, m0, B.GivingUp(v), m1, B.DroppingSlot(v), ends, wait);
      queue := queue - 1;
      ghost var m2 := View();
      Took(config, m1, B.DroppingSlot(v), m2, B.Rejecting(v), ends, wait);
      rejected := rejected + 1;
      Took(config, m2, B.Rejecting(v), View(), B.Done(v), ends, wait);
      Ended(config, View(), v, ends, wait);
    }

    /** What follows a permit obtained, at once or after waiting. */
    method Enter(ends: B.Outcome, ghost wait: B.Choice) returns (v: B.Verdict)
      requires sem > 0
      modifies this
      ensures Alone(config, old(View()), B.Permitted, ends, wait) == Some((View(), v))
      ensures v == B.Ran(ends) && accepted == old(accepted) + 1 && rejected == old(rejected)
      ensures completed == old(completed) + (if ends == B.Success then 1 else 0)
      ensures failed == old(failed) + (if ends == B.Failure then 1 else 0)
      ensures sem == old(sem) - 1 && (queue, active, queued) == old((queue, active, queued))
    {
      hide Alone;
      ghost var m0 := View();
      accepted := accepted + 1;
      ghost var m1 := View();
      Took(config, m0, B.Permitted, m1, B.Counted, ends, wait);
      active := active + 1;
      Took(config, m1, B.Counted, View(), B.Inside, ends, wait);
      v := Run(ends, wait);
    }

    /** run, on a permit taken and counted. */
    method Run(ends: B.Outcome, ghost wait: B.Choice) returns (v: B.Verdict)
      requires sem > 0
      modifies this
      ensures Alone(config, old(View()), B.Inside, ends, wait) == Some((View(), v))
      ensures v == B.Ran(ends) && (accepted, rejected) == old((accepted, rejected))
      ensures completed == old(completed) + (if ends == B.Success then 1 else 0)
      ensures failed == old(failed) + (if ends == B.Failure then 1 else 0)
      ensures sem == old(sem) - 1 && active == old(active) - 1 && (queue, queued) == old((queue, queued))
    {
      hide Alone;
      ghost var m0 := View();
      if ends == B.Panic {
        Took(config, m0, B.Inside, m0, B.Releasing(ends), ends, wait);
      } else {
        Took(config, m0, B.Inside, m0, B.Returned(ends), ends, wait);
        if ends == B.Failure {
          failed := failed + 1;
        } else {
          completed := completed + 1;
        }
        Took(config, m0, B.Returned(ends), View(), B.Releasing(ends), ends, wait);
      }
      ghost var m1 := View();
      sem := sem - 1;
      ghost var m2 := View();
      Took(config, m1, B.Releasing(ends), m2, B.Leaving(ends), ends, wait);
      active := active - 1;
      Took(config, m2, B.Leaving(ends), View(), B.Done(B.Ran(ends)), ends, wait);
      Ended(config, View(), B.Ran(ends), ends, wait);
      return B.Ran(ends);
    }
  }
}
