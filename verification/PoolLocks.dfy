/** Which runtime locks the operations of the pool hold when they touch the table, and that a waiter waits for the close
    that is under way. */
module PoolLocks {
  import opened LockOrder
  import opened PoolState
  import opened PoolProtocol
  import opened PoolInvariant
  import opened PoolRuns
  import opened PoolOutcomes

  // The groups an operation locks, from what its first section sees.
  ghost predicate Locks(p: Pool, cfg: Config, job: Job, eligible: set<SessionKey>, g: Group) {
    match job
    case OpenJob(key) =>
      !p.closed && key !in p.sessions && key.agent in cfg && g == Group(cfg[key.agent], key.agent)
    case CloseJob(key) => key in p.sessions && g == p.sessions[key].group
    case KillJob(agent) => agent in cfg && g == Group(cfg[agent], agent)
    case ReleaseJob =>
      exists k :: k in p.sessions && k in eligible && p.sessions[k].uses == 0 && !p.sessions[k].closing &&
        p.sessions[k].group == g
    case ShutdownJob => exists a :: a in cfg && g == Group(cfg[a], a)
  }

  lemma PlansExactly(sys: System, cfg: Config, t: nat, choice: Choice, g: Group)
    requires Enabled(sys, cfg, Run(t, choice)) && sys.threads[t].pc.Start?
    ensures g in choice.plan <==> Locks(sys.pool, cfg, sys.threads[t].job, choice.eligible, g)
  {
    assert g in choice.plan <==> g in (set x | x in choice.plan);
    WantedIs(sys.pool, cfg, sys.threads[t].job, choice.eligible, g);
    hide Wanted, Locks;
  }

  lemma WantedIs(p: Pool, cfg: Config, job: Job, eligible: set<SessionKey>, g: Group)
    ensures g in Wanted(p, cfg, job, eligible) <==> Locks(p, cfg, job, eligible, g)
  {
    if job.ReleaseJob? {
      if k :| k in p.sessions && k in eligible && IdleEntry(p.sessions[k]) && p.sessions[k].group == g {
        assert g in IdleGroups(p, eligible);
      }
    } else if job.ShutdownJob? {
      if a :| a in cfg && g == Group(cfg[a], a) {
        assert g in AllGroups(cfg);
      }
    }
  }

  // Between its start and its work a goroutine's plan is the locks it holds and the ones still to come.
  predicate Planned(th: Thread) {
    th.pc.Locking? || th.pc.Taking? || th.pc.Marking?
  }

  lemma StartPlans(sys: System, cfg: Config, t: nat, choice: Choice)
    requires Enabled(sys, cfg, Run(t, choice)) && sys.threads[t].pc.Start? && !sys.threads[t].job.OpenJob?
    ensures var th, th' := sys.threads[t], StepStart(sys, cfg, t, choice).threads[t];
      && th'.job == th.job && th'.held == th.held && (th'.pc.Ended? || th'.pc == Locking(choice.plan))
  {
    hide IsPlan, Wanted;
  }

  lemma StepKeepsPlan(sys: System, cfg: Config, step: Step, t: nat)
    requires Enabled(sys, cfg, step) && t < |sys.threads| && !sys.threads[t].job.OpenJob?
    requires !sys.threads[t].pc.Start? && !sys.threads[t].pc.Waiting?
    ensures var sys' := Next(sys, cfg, step);
      && t < |sys'.threads| && sys'.threads[t].job == sys.threads[t].job
      && !sys'.threads[t].pc.Start? && !sys'.threads[t].pc.Waiting?
      && (Planned(sys'.threads[t]) ==>
            && Planned(sys.threads[t])
            && sys'.threads[t].held + Todo(sys'.threads[t]) == sys.threads[t].held + Todo(sys.threads[t]))
  {
    if step.Run? && step.thread == t {
      OwnStepKeepsPlan(sys, cfg, t, step.choice);
    } else if step.Run? {
      ThreadKeepsJobs(sys, cfg, step.thread, step.choice);
    }
    hide StepThread, CanRun;
  }

  lemma OwnStepKeepsPlan(sys: System, cfg: Config, t: nat, choice: Choice)
    requires Enabled(sys, cfg, Run(t, choice)) && !sys.threads[t].job.OpenJob?
    requires !sys.threads[t].pc.Start? && !sys.threads[t].pc.Waiting?
    ensures var th, sys' := sys.threads[t], StepThread(sys, cfg, t, choice);
      && t < |sys'.threads|
      && var th' := sys'.threads[t];
         && th'.job == th.job && !th'.pc.Start? && !th'.pc.Waiting?
         && (Planned(th') ==> Planned(th) && th'.held + Todo(th') == th.held + Todo(th))
  {
    hide MarkClosing, FinishClose, Take, Taken, Marked, Markable, StepStart, StepOpen, IsPlan, Wanted;
    if sys.threads[t].pc.Locking? && sys.threads[t].pc.todo != [] {
      var todo := sys.threads[t].pc.todo;
      assert (sys.threads[t].held + [todo[0]]) + todo[1..] == sys.threads[t].held + todo;
    }
  }

  lemma {:induction false} PlanStays(cfg: Config, run: seq<System>, steps: seq<Step>, i: nat, k: nat, t: nat,
                                     choice: Choice)
    requires IsRun(cfg, run, steps) && i < |steps| && i < k < |run| && steps[i] == Run(t, choice)
    requires t < |run[i].threads| && run[i].threads[t].pc.Start? && !run[i].threads[t].job.OpenJob?
    ensures t < |run[k].threads| && run[k].threads[t].job == run[i].threads[t].job
    ensures !run[k].threads[t].pc.Start? && !run[k].threads[t].pc.Waiting?
    ensures Planned(run[k].threads[t]) ==> run[k].threads[t].held + Todo(run[k].threads[t]) == choice.plan
    decreases k
  {
    if k == i + 1 {
      RunIsSafe(cfg, run, steps, i);
      assert ThreadOk(cfg, run[i].threads[t]);
      StartPlans(run[i], cfg, t, choice);
      hide StepStart, Safe;
      assert [] + choice.plan == choice.plan;
    } else {
      hide Next, Enabled;
      PlanStays(cfg, run, steps, i, k - 1, t, choice);
      StepKeepsPlan(run[k - 1], cfg, steps[k - 1], t);
    }
  }

  /** When an operation comes to take or mark sessions, it holds exactly the locks of the groups its first section saw. */
  lemma WorksUnderItsLocks(cfg: Config, run: seq<System>, steps: seq<Step>, i: nat, k: nat, t: nat, choice: Choice,
                           g: Group)
    requires IsRun(cfg, run, steps) && i < |steps| && i < k < |run| && steps[i] == Run(t, choice)
    requires t < |run[i].threads| && run[i].threads[t].pc.Start?
    requires t < |run[k].threads| && (run[k].threads[t].pc.Taking? || run[k].threads[t].pc.Marking?)
    requires !run[i].threads[t].job.OpenJob?
    ensures (g in run[k].locks && run[k].locks[g] == t) <==>
      Locks(run[i].pool, cfg, run[i].threads[t].job, choice.eligible, g)
  {
    PlanStays(cfg, run, steps, i, k, t, choice);
    PlansExactly(run[i], cfg, t, choice, g);
    RunIsSafe(cfg, run, steps, k);
    var th := run[k].threads[t];
    assert th.held + [] == th.held;
    assert Holds(run[k], t, g) <==> g in th.held;
    hide Next, Locks, TableInv, CloseInv, OpenInv, ClosesIdle, ThreadOk, Enabled;
  }

  /** KillAgentProcess and CloseAll take no session whose group's lock they do not hold. Close holds that lock exactly if
      its session was in the table at its first look; one opened in between is taken without it. */
  lemma TakesUnderLockIff(cfg: Config, run: seq<System>, steps: seq<Step>, i: nat, k: nat, t: nat, choice: Choice,
                          key: SessionKey)
    requires IsRun(cfg, run, steps) && i < |steps| && i < k < |run| && steps[i] == Run(t, choice)
    requires t < |run[i].threads| && run[i].threads[t].pc.Start?
    requires t < |run[k].threads| && run[k].threads[t].pc.Taking?
    requires !run[i].threads[t].job.OpenJob? && Targets(cfg, run[i].threads[t].job, key) && key in run[k].pool.sessions
    ensures var g := run[k].pool.sessions[key].group;
      (g in run[k].locks && run[k].locks[g] == t) <==>
        run[i].threads[t].job.KillJob? || run[i].threads[t].job.ShutdownJob? || key in run[i].pool.sessions
  {
    var g := run[k].pool.sessions[key].group;
    GroupsAre(cfg, run, steps, k, key);
    if key in run[i].pool.sessions {
      GroupsAre(cfg, run, steps, i, key);
    }
    WorksUnderItsLocks(cfg, run, steps, i, k, t, choice, g);
    hide IsRun;
  }

  lemma GroupsAre(cfg: Config, run: seq<System>, steps: seq<Step>, k: nat, key: SessionKey)
    requires IsRun(cfg, run, steps) && k < |run| && key in run[k].pool.sessions
    ensures key.agent in cfg && run[k].pool.sessions[key].group == Group(cfg[key.agent], key.agent)
  {
    RunIsSafe(cfg, run, steps, k);
    assert EntryOk(run[k].pool, cfg, run[k].handles, key);
  }

  // ---- gates ----

  // Every open gate belongs to an earlier close of its entry.
  predicate GatesPast(p: Pool) {
    forall g | g in p.openGates ::
      g.entry < p.nextID && forall k | k in p.sessions && p.sessions[k].id == g.entry ::
        g.round <= p.sessions[k].round && (p.sessions[k].closing ==> g.round < p.sessions[k].round)
  }

  // The table changes without a gate being opened: closes start in a new round.
  predicate RoundsGrow(p: Pool, p': Pool) {
    && p'.openGates == p.openGates && p.nextID <= p'.nextID
    && forall k | k in p'.sessions ::
         || p'.sessions[k].id >= p.nextID
         || (k in p.sessions && p'.sessions[k].id == p.sessions[k].id && p.sessions[k].round <= p'.sessions[k].round &&
             (p'.sessions[k].closing ==> p.sessions[k].closing || p.sessions[k].round < p'.sessions[k].round))
  }

  lemma GrowKeepsGates(p: Pool, p': Pool)
    requires GatesPast(p) && RoundsGrow(p, p')
    ensures GatesPast(p')
  {
  }

  lemma FinishKeepsGates(sys: System, cfg: Config, t: nat, choice: Choice)
    requires CloseInv(sys, cfg) && GatesPast(sys.pool) && Enabled(sys, cfg, Run(t, choice))
    requires sys.threads[t].pc.Finishing? && sys.threads[t].pc.items != {}
    ensures GatesPast(StepThread(sys, cfg, t, choice).pool)
  {
    assert Closes(sys, t, choice.item) && ItemOk(sys, cfg, t, choice.item);
    hide CloseInv, Closes, GroupOf;
  }

  lemma StartGrows(sys: System, cfg: Config, t: nat, choice: Choice)
    requires t < |sys.threads|
    ensures RoundsGrow(sys.pool, StepStart(sys, cfg, t, choice).pool)
  {
    hide GroupOf;
  }

  lemma OpenGrows(sys: System, cfg: Config, t: nat, key: SessionKey, ok: bool)
    requires t < |sys.threads|
    ensures RoundsGrow(sys.pool, StepOpen(sys, cfg, t, key, ok).pool)
  {
    hide GroupOf;
  }

  lemma ThreadGrows(sys: System, cfg: Config, t: nat, choice: Choice)
    requires Enabled(sys, cfg, Run(t, choice))
    requires sys.threads[t].pc.Finishing? ==> sys.threads[t].pc.items == {}
    ensures RoundsGrow(sys.pool, StepThread(sys, cfg, t, choice).pool)
  {
    hide StepStart, StepOpen, Taken, Markable, Marked, Wanted, IsPlan;
    match sys.threads[t].pc
    case Start => StartGrows(sys, cfg, t, choice);
    case Rechecking | Opening | Installing =>
      if sys.threads[t].job.OpenJob? {
        OpenGrows(sys, cfg, t, sys.threads[t].job.key, choice.ok);
      }
    case _ =>
  }

  lemma StepKeepsGates(sys: System, cfg: Config, step: Step)
    requires CloseInv(sys, cfg) && GatesPast(sys.pool) && Enabled(sys, cfg, step)
    ensures GatesPast(Next(sys, cfg, step).pool)
  {
    hide StepThread, GatesPast, CloseInv, RoundsGrow;
    if step.Run? && sys.threads[step.thread].pc.Finishing? && sys.threads[step.thread].pc.items != {} {
      FinishKeepsGates(sys, cfg, step.thread, step.choice);
    } else {
      if step.Run? {
        ThreadGrows(sys, cfg, step.thread, step.choice);
      } else {
        OtherGrows(sys, cfg, step);
      }
      GrowKeepsGates(sys.pool, Next(sys, cfg, step).pool);
    }
  }

  lemma {:induction false} RunKeepsGates(cfg: Config, run: seq<System>, steps: seq<Step>, k: nat)
    requires IsRun(cfg, run, steps) && k < |run|
    ensures GatesPast(run[k].pool)
  {
    hide Next, Enabled, CloseInv;
    if k > 0 {
      RunKeepsGates(cfg, run, steps, k - 1);
      ClosesAreSound(cfg, run, steps, k - 1);
      StepKeepsGates(run[k - 1], cfg, steps[k - 1]);
    }
  }

  lemma ClosesAreSound(cfg: Config, run: seq<System>, steps: seq<Step>, k: nat)
    requires IsRun(cfg, run, steps) && k < |run|
    ensures CloseInv(run[k], cfg)
  {
    RunIsSafe(cfg, run, steps, k);
  }

  lemma OtherGrows(sys: System, cfg: Config, step: Step)
    requires Enabled(sys, cfg, step) && !step.Run?
    ensures RoundsGrow(sys.pool, Next(sys, cfg, step).pool)
  {
  }

  /** GetOrCreate waits for the close that is under way: as long as an entry is marked closing, the gate its callers wait
      for has not been opened, however often the entry was closed in vain before. */
  lemma WaitersWait(cfg: Config, run: seq<System>, steps: seq<Step>, k: nat, key: SessionKey)
    requires IsRun(cfg, run, steps) && k < |run|
    requires key in run[k].pool.sessions && run[k].pool.sessions[key].closing
    ensures Gate(run[k].pool.sessions[key].id, run[k].pool.sessions[key].round) !in run[k].pool.openGates
  {
    RunKeepsGates(cfg, run, steps, k);
  }
}
