/** What the pool's operations come to, over whole runs: closed sessions stay gone, sessions that could not be closed
    stay, a shut-down pool stays empty, and an undisturbed GetOrCreate delivers. */
module PoolOutcomes {
  import opened PoolState
  import opened PoolProtocol
  import opened PoolInvariant
  import opened PoolRuns

  // ---- what any step does to identities ----

  // Entries stay themselves or go; new ones have new ids, and a closed pool gets none.
  predicate Succeeds(p: Pool, p': Pool) {
    && p.nextID <= p'.nextID && (p.closed ==> p'.closed)
    && forall k | k in p'.sessions ::
         (k in p.sessions && p'.sessions[k].id == p.sessions[k].id) || (!p.closed && p'.sessions[k].id >= p.nextID)
  }

  // At most one session is handed out, and it is the one the table holds then.
  predicate HandsFromTable(sys: System, sys': System) {
    || sys'.handed == sys.handed
    || (|sys'.handed| == |sys.handed| + 1 && sys'.handed[..|sys.handed|] == sys.handed && !sys.pool.closed &&
        var r := sys'.handed[|sys.handed|];
        && r.key in sys'.pool.sessions
        && sys'.pool.sessions[r.key].id == r.id && sys'.pool.sessions[r.key].closing == r.closing)
  }

  lemma OpenOutcome(sys: System, cfg: Config, t: nat, key: SessionKey, ok: bool)
    requires t < |sys.threads|
    ensures var sys' := StepOpen(sys, cfg, t, key, ok); Succeeds(sys.pool, sys'.pool) && HandsFromTable(sys, sys')
  {
    hide GroupOf;
  }

  lemma StartOutcome(sys: System, cfg: Config, t: nat, choice: Choice)
    requires t < |sys.threads|
    ensures var sys' := StepStart(sys, cfg, t, choice); Succeeds(sys.pool, sys'.pool) && HandsFromTable(sys, sys')
  {
    hide GroupOf;
  }

  lemma ReleaseOutcome(sys: System, t: nat, choice: Choice)
    requires t < |sys.threads|
    ensures Succeeds(sys.pool, StepMarking(sys, t, choice.eligible).pool)
    ensures StepMarking(sys, t, choice.eligible).handed == sys.handed
    ensures sys.threads[t].pc.Finishing? ==>
      Succeeds(sys.pool, StepFinishing(sys, t, choice).pool) && StepFinishing(sys, t, choice).handed == sys.handed
  {
    hide Marked, Markable;
  }

  lemma StepOutcome(sys: System, cfg: Config, step: Step)
    requires Enabled(sys, cfg, step)
    ensures var sys' := Next(sys, cfg, step); Succeeds(sys.pool, sys'.pool) && HandsFromTable(sys, sys')
  {
    hide StepStart, StepOpen, StepMarking, StepFinishing, Taken, IsPlan, Wanted;
    if step.Run? {
      var t, choice := step.thread, step.choice;
      match sys.threads[t].pc
      case Start => StartOutcome(sys, cfg, t, choice);
      case Marking => ReleaseOutcome(sys, t, choice);
      case Finishing(_) => ReleaseOutcome(sys, t, choice);
      case Rechecking | Opening | Installing =>
        if sys.threads[t].job.OpenJob? {
          OpenOutcome(sys, cfg, t, sys.threads[t].job.key, choice.ok);
        }
      case _ =>
    }
  }

  /** Whatever a step of GetOrCreate hands out is in the table right then, and nobody is closing it. */
  lemma HandedIsUsable(cfg: Config, run: seq<System>, steps: seq<Step>, i: nat)
    requires IsRun(cfg, run, steps) && i < |steps| && run[i + 1].handed != run[i].handed
    ensures |run[i + 1].handed| == |run[i].handed| + 1 && !run[i].pool.closed
    ensures var r, sessions := run[i + 1].handed[|run[i].handed|], run[i + 1].pool.sessions;
      r.key in sessions && sessions[r.key].id == r.id && !sessions[r.key].closing
  {
    hide Next, Enabled;
    StepOutcome(run[i], cfg, steps[i]);
    HandedSessionsAreLive(cfg, run, steps, i + 1, |run[i + 1].handed| - 1);
  }

  // ---- a session that was closed ----

  // At step i a release pass closes the session of an entry; ok says whether session.Close() succeeded.
  predicate ClosesSession(cfg: Config, run: seq<System>, steps: seq<Step>, i: nat, item: Item, ok: bool) {
    && i < |steps| < |run| && steps[i].Run? && steps[i].thread < |run[i].threads|
    && run[i].threads[steps[i].thread].pc.Finishing? && item in run[i].threads[steps[i].thread].pc.items
    && steps[i].choice.item == item && steps[i].choice.ok == ok
  }

  predicate NoEntry(p: Pool, id: nat) {
    id < p.nextID && forall k | k in p.sessions :: p.sessions[k].id != id
  }

  // No key has the entry after its session was closed.
  lemma ClosedLeaves(cfg: Config, run: seq<System>, steps: seq<Step>, i: nat, item: Item)
    requires IsRun(cfg, run, steps) && ClosesSession(cfg, run, steps, i, item, true)
    ensures NoEntry(run[i + 1].pool, item.gate.entry)
  {
    RunIsSafe(cfg, run, steps, i);
    assert Closes(run[i], steps[i].thread, item);
    assert ItemOk(run[i], cfg, steps[i].thread, item);
    hide LockInv, TableInv, CloseInv, OpenInv, ClosesIdle, GroupOf;
  }

  lemma {:induction false} StaysGone(cfg: Config, run: seq<System>, steps: seq<Step>, i: nat, k: nat, id: nat)
    requires IsRun(cfg, run, steps) && i <= k < |run| && NoEntry(run[i].pool, id)
    ensures NoEntry(run[k].pool, id)
    ensures |run[i].handed| <= |run[k].handed|
    ensures forall r | |run[i].handed| <= r < |run[k].handed| :: run[k].handed[r].id != id
    decreases k
  {
    hide Next, Enabled;
    if k > i {
      StaysGone(cfg, run, steps, i, k - 1, id);
      StepOutcome(run[k - 1], cfg, steps[k - 1]);
    }
  }

  /** A session whose close succeeded is gone for good: from then on no key has its entry, and GetOrCreate never hands it
      out again, whoever opens the key next. */
  lemma ClosedIsGone(cfg: Config, run: seq<System>, steps: seq<Step>, i: nat, k: nat, item: Item)
    requires IsRun(cfg, run, steps) && ClosesSession(cfg, run, steps, i, item, true) && i < k < |run|
    ensures forall key | key in run[k].pool.sessions :: run[k].pool.sessions[key].id != item.gate.entry
    ensures |run[i].handed| <= |run[k].handed|
    ensures forall r | |run[i].handed| <= r < |run[k].handed| :: run[k].handed[r].id != item.gate.entry
  {
    ClosedLeaves(cfg, run, steps, i, item);
    hide Next, Enabled;
    StepOutcome(run[i], cfg, steps[i]);
    StaysGone(cfg, run, steps, i + 1, k, item.gate.entry);
    ClosingHandsNothing(cfg, run, steps, i, item);
  }

  lemma ClosingHandsNothing(cfg: Config, run: seq<System>, steps: seq<Step>, i: nat, item: Item)
    requires IsRun(cfg, run, steps) && ClosesSession(cfg, run, steps, i, item, true)
    ensures run[i + 1].handed == run[i].handed
  {
    hide FinishClose;
  }

  /** A session that could not be closed stays in the table as the same entry, usable again, if it is still its key's;
      all other entries stay as they were. */
  lemma FailedCloseStays(cfg: Config, run: seq<System>, steps: seq<Step>, i: nat, item: Item)
    requires IsRun(cfg, run, steps) && ClosesSession(cfg, run, steps, i, item, false)
    ensures var before, after := run[i].pool.sessions, run[i + 1].pool.sessions;
      && after.Keys == before.Keys
      && (forall key | key in before && before[key].id != item.gate.entry :: after[key] == before[key])
      && (item.key in before && before[item.key].id == item.gate.entry ==>
            after[item.key] == before[item.key].(closing := false))
  {
    RunIsSafe(cfg, run, steps, i);
    assert Closes(run[i], steps[i].thread, item);
    assert ItemOk(run[i], cfg, steps[i].thread, item);
    hide LockInv, TableInv, CloseInv, OpenInv, ClosesIdle, GroupOf;
  }

  // ---- Close, KillAgentProcess and CloseAll ----

  // The sessions an operation is about.
  predicate Targets(cfg: Config, job: Job, key: SessionKey) {
    match job
    case CloseJob(k) => key == k
    case KillJob(agent) => key.agent == agent && agent in cfg && cfg[agent] in {CLAUDE_SDK, CODEX_SDK, ACP}
    case ShutdownJob => true
    case _ => false
  }

  /** Close takes its session out of the table, KillAgentProcess all sessions of its agent, CloseAll all there are, and
      nothing else changes. */
  lemma TakingIsExact(cfg: Config, run: seq<System>, steps: seq<Step>, i: nat, t: nat, choice: Choice)
    requires IsRun(cfg, run, steps) && i < |steps| && steps[i] == Run(t, choice)
    requires t < |run[i].threads| && run[i].threads[t].pc.Taking?
    ensures var before, after := run[i].pool.sessions, run[i + 1].pool.sessions;
      && (forall key :: key in after <==> key in before && !Targets(cfg, run[i].threads[t].job, key))
      && (forall key | key in after :: after[key] == before[key])
    ensures run[i + 1].handed == run[i].handed
  {
    RunIsSafe(cfg, run, steps, i);
    assert forall key | key in run[i].pool.sessions :: EntryOk(run[i].pool, cfg, run[i].handles, key);
    hide LockInv, CloseInv, OpenInv, ClosesIdle, Outstanding;
  }

  lemma {:induction false} StaysClosed(cfg: Config, run: seq<System>, steps: seq<Step>, i: nat, k: nat)
    requires IsRun(cfg, run, steps) && i <= k < |run| && run[i].pool.closed
    ensures run[k].pool.closed && run[k].handed == run[i].handed
    ensures run[k].pool.sessions.Keys <= run[i].pool.sessions.Keys
    decreases k
  {
    hide Next, Enabled;
    if k > i {
      StaysClosed(cfg, run, steps, i, k - 1);
      StepOutcome(run[k - 1], cfg, steps[k - 1]);
    }
  }

  /** CloseAll is final: from its first section on GetOrCreate hands out nothing more, not even to callers that were
      opening a session already, and once it has taken the sessions the table stays empty. */
  lemma ShutdownIsFinal(cfg: Config, run: seq<System>, steps: seq<Step>, i: nat, k: nat, t: nat, choice: Choice)
    requires IsRun(cfg, run, steps) && i < |steps| && i < k < |run| && steps[i] == Run(t, choice)
    requires t < |run[i].threads| && run[i].threads[t].job.ShutdownJob?
    ensures run[i].threads[t].pc.Start? ==> run[k].pool.closed && run[k].handed == run[i].handed
    ensures run[i].threads[t].pc.Taking? ==> run[k].pool.sessions == map[] && run[k].handed == run[i].handed
  {
    if run[i].threads[t].pc.Start? {
      StaysClosed(cfg, run, steps, i + 1, k);
    }
    if run[i].threads[t].pc.Taking? {
      ShutdownTakesClosed(cfg, run, steps, i, t);
      TakingIsExact(cfg, run, steps, i, t, choice);
      hide Next, Enabled;
      StepOutcome(run[i], cfg, steps[i]);
      StaysClosed(cfg, run, steps, i + 1, k);
    }
  }

  // A CloseAll past its first section has closed the pool.
  lemma {:induction false} ShutdownTakesClosed(cfg: Config, run: seq<System>, steps: seq<Step>, i: nat, t: nat)
    requires IsRun(cfg, run, steps) && i < |run| && t < |run[i].threads|
    ensures run[i].threads[t].job.ShutdownJob? && !run[i].threads[t].pc.Start? ==> run[i].pool.closed
  {
    if i > 0 {
      var sys, step := run[i - 1], steps[i - 1];
      JobsStay(sys, cfg, step, t);
      StepOutcome(sys, cfg, step);
      hide Next, Enabled;
      if t < |sys.threads| {
        ShutdownTakesClosed(cfg, run, steps, i - 1, t);
      }
    }
  }

  predicate SameJobs(sys: System, sys': System) {
    |sys'.threads| == |sys.threads| && forall u | 0 <= u < |sys.threads| :: sys'.threads[u].job == sys.threads[u].job
  }

  lemma StartKeepsJobs(sys: System, cfg: Config, t: nat, choice: Choice)
    requires t < |sys.threads|
    ensures SameJobs(sys, StepStart(sys, cfg, t, choice))
    ensures sys.threads[t].job.ShutdownJob? ==> StepStart(sys, cfg, t, choice).pool.closed
    ensures forall u | 0 <= u < |sys.threads| && u != t :: StepStart(sys, cfg, t, choice).threads[u] == sys.threads[u]
  {
    hide GroupOf;
  }

  lemma OpenKeepsJobs(sys: System, cfg: Config, t: nat, key: SessionKey, ok: bool)
    requires t < |sys.threads|
    ensures SameJobs(sys, StepOpen(sys, cfg, t, key, ok))
    ensures forall u | 0 <= u < |sys.threads| && u != t :: StepOpen(sys, cfg, t, key, ok).threads[u] == sys.threads[u]
  {
    hide GroupOf;
  }

  lemma ThreadKeepsJobs(sys: System, cfg: Config, t: nat, choice: Choice)
    requires Enabled(sys, cfg, Run(t, choice))
    ensures SameJobs(sys, StepThread(sys, cfg, t, choice))
    ensures forall u | 0 <= u < |sys.threads| && u != t :: StepThread(sys, cfg, t, choice).threads[u] == sys.threads[u]
    ensures sys.threads[t].pc.Start? && sys.threads[t].job.ShutdownJob? ==> StepThread(sys, cfg, t, choice).pool.closed
  {
    hide StepStart, StepOpen, Markable, Marked, MarkClosing, FinishClose, Take, Taken, Wanted, IsPlan;
    match sys.threads[t].pc
    case Start => StartKeepsJobs(sys, cfg, t, choice);
    case Rechecking | Opening | Installing =>
      if sys.threads[t].job.OpenJob? {
        OpenKeepsJobs(sys, cfg, t, sys.threads[t].job.key, choice.ok);
      }
    case _ =>
  }

  // A goroutine keeps its job, and CloseAll's first section closes the pool.
  lemma JobsStay(sys: System, cfg: Config, step: Step, t: nat)
    requires Enabled(sys, cfg, step)
    ensures var sys' := Next(sys, cfg, step);
      && |sys.threads| <= |sys'.threads|
      && (t < |sys.threads| ==> sys'.threads[t].job == sys.threads[t].job)
      && (|sys.threads| <= t < |sys'.threads| ==> sys'.threads[t].pc.Start?)
      && (t < |sys.threads| && sys.threads[t].pc.Start? && sys.threads[t].job.ShutdownJob? ==>
            sys'.threads[t].pc.Start? || sys'.pool.closed)
  {
    hide StepThread, BeginUse, EndUse;
    if step.Run? {
      ThreadKeepsJobs(sys, cfg, step.thread, step.choice);
    }
  }

  // ---- uses ----

  /** BeginSessionUse counts exactly on a session that is there and not being closed, and hands back a handle to that very
      entry. */
  lemma UseIsCounted(sys: System, cfg: Config, key: SessionKey)
    ensures var sys', live := Next(sys, cfg, Use(key)), key in sys.pool.sessions && !sys.pool.sessions[key].closing;
      if !live then sys' == sys
      else
        && sys'.handles == sys.handles + [Handle(key, sys.pool.sessions[key].id, false)]
        && sys'.pool.sessions == sys.pool.sessions[key := sys.pool.sessions[key].(uses := sys.pool.sessions[key].uses + 1)]
  {
  }
}
