/** The pool over whole runs, for any number of goroutines, sessions and groups. */
module PoolRuns {
  import opened LockOrder
  import opened PoolState
  import opened PoolProtocol
  import opened PoolInvariant
  import opened PoolTable
  import opened PoolDeadlock

  // ---- nobody opens a session that exists, nobody is handed one that is being closed ----

  // The runtime lock of its group keeps an opener and the releaser of its key apart.
  lemma OpenerSeesNoClosing(sys: System, cfg: Config, t: nat, key: SessionKey)
    requires LockInv(sys, cfg) && CloseInv(sys, cfg)
    requires t < |sys.threads| && InOpen(sys.threads[t].pc) && sys.threads[t].job == OpenJob(key)
    requires key in sys.pool.sessions
    ensures !sys.pool.sessions[key].closing
  {
    assert ThreadOk(cfg, sys.threads[t]);
    if sys.pool.sessions[key].closing {
      var item := Item(key, Gate(sys.pool.sessions[key].id, sys.pool.sessions[key].round));
      var u :| Closes(sys, u, item);
      assert ItemOk(sys, cfg, u, item);
      SameGroupSameThread(sys, cfg, t, u, GroupOf(cfg, key));
    }
  }

  lemma TwoOpenersDiffer(sys: System, cfg: Config, t: nat, u: nat)
    requires LockInv(sys, cfg) && t < |sys.threads| && u < |sys.threads|
    requires InOpen(sys.threads[t].pc) && InOpen(sys.threads[u].pc)
    requires sys.threads[t].job.OpenJob? && sys.threads[u].job == sys.threads[t].job
    ensures t == u
  {
    assert ThreadOk(cfg, sys.threads[t]) && ThreadOk(cfg, sys.threads[u]);
    SameGroupSameThread(sys, cfg, t, u, GroupOf(cfg, sys.threads[t].job.key));
  }

  predicate HandedLive(handed: seq<Return>) {
    forall r | 0 <= r < |handed| :: !handed[r].closing
  }

  lemma OpenStepKeepsOpenInv(sys: System, cfg: Config, t: nat, choice: Choice)
    requires LockInv(sys, cfg) && CloseInv(sys, cfg) && OpenInv(sys)
    requires Enabled(sys, cfg, Run(t, choice)) && InOpen(sys.threads[t].pc)
    ensures OpenInv(StepThread(sys, cfg, t, choice))
  {
    var sys' := StepThread(sys, cfg, t, choice);
    assert ThreadOk(cfg, sys.threads[t]);
    var key := sys.threads[t].job.key;
    if key in sys.pool.sessions {
      OpenerSeesNoClosing(sys, cfg, t, key);
    }
    hide LockInv, CloseInv, StrictlyIncreasing;
    forall u | 0 <= u < |sys'.threads| && (sys'.threads[u].pc.Opening? || sys'.threads[u].pc.Installing?)
      ensures sys'.threads[u].job.OpenJob? && sys'.threads[u].job.key !in sys'.pool.sessions
    {
      if u != t && sys.threads[u].job == sys.threads[t].job {
        TwoOpenersDiffer(sys, cfg, t, u);
      }
    }
  }

  lemma SameEntriesKeepOpenInv(sys: System, sys': System)
    requires OpenInv(sys) && sys'.pool.sessions.Keys <= sys.pool.sessions.Keys && HandedLive(sys'.handed)
    requires forall u | 0 <= u < |sys'.threads| && (sys'.threads[u].pc.Opening? || sys'.threads[u].pc.Installing?) ::
      u < |sys.threads| && sys'.threads[u] == sys.threads[u]
    ensures OpenInv(sys')
  {
  }

  lemma StartHandsLive(sys: System, cfg: Config, t: nat, choice: Choice)
    requires OpenInv(sys) && t < |sys.threads|
    ensures HandedLive(StepStart(sys, cfg, t, choice).handed)
    ensures StepStart(sys, cfg, t, choice).pool.sessions == sys.pool.sessions
    ensures |StepStart(sys, cfg, t, choice).threads| == |sys.threads|
    ensures forall u | 0 <= u < |sys.threads| && u != t :: StepStart(sys, cfg, t, choice).threads[u] == sys.threads[u]
    ensures !InOpen(StepStart(sys, cfg, t, choice).threads[t].pc)
  {
    hide GroupOf;
  }

  // What a goroutine outside GetOrCreate's locked part does to the keys and to itself.
  ghost predicate OpensNothing(sys: System, sys': System, t: nat) {
    && t < |sys.threads| == |sys'.threads|
    && (forall u | 0 <= u < |sys.threads| && u != t :: sys'.threads[u] == sys.threads[u])
    && !sys'.threads[t].pc.Opening? && !sys'.threads[t].pc.Installing?
    && sys'.pool.sessions.Keys <= sys.pool.sessions.Keys && HandedLive(sys'.handed)
  }

  lemma LocksOpenNothing(sys: System, t: nat)
    requires t < |sys.threads| && HandedLive(sys.handed)
    ensures sys.threads[t].pc.Locking? ==> OpensNothing(sys, StepLocking(sys, t), t)
    ensures sys.threads[t].pc.Unlocking? ==> OpensNothing(sys, StepUnlocking(sys, t), t)
  {
  }

  lemma ReleaseOpensNothing(sys: System, t: nat, choice: Choice)
    requires t < |sys.threads| && HandedLive(sys.handed)
    ensures OpensNothing(sys, StepMarking(sys, t, choice.eligible), t)
    ensures sys.threads[t].pc.Finishing? ==> OpensNothing(sys, StepFinishing(sys, t, choice), t)
  {
    hide Marked, Markable;
  }

  lemma OtherThreadStepOpensNothing(sys: System, cfg: Config, t: nat, choice: Choice)
    requires OpenInv(sys) && Enabled(sys, cfg, Run(t, choice)) && !InOpen(sys.threads[t].pc)
    ensures OpensNothing(sys, StepThread(sys, cfg, t, choice), t)
  {
    hide StepStart, StepLocking, StepUnlocking, StepMarking, StepFinishing, Taken, IsPlan, Wanted;
    assert HandedLive(sys.handed);
    match sys.threads[t].pc
    case Start => StartHandsLive(sys, cfg, t, choice);
    case Locking(_) => LocksOpenNothing(sys, t);
    case Unlocking => LocksOpenNothing(sys, t);
    case Marking => ReleaseOpensNothing(sys, t, choice);
    case Finishing(_) => ReleaseOpensNothing(sys, t, choice);
    case _ =>
  }

  lemma OtherThreadStepKeepsOpenInv(sys: System, cfg: Config, t: nat, choice: Choice)
    requires OpenInv(sys) && Enabled(sys, cfg, Run(t, choice)) && !InOpen(sys.threads[t].pc)
    ensures OpenInv(StepThread(sys, cfg, t, choice))
  {
    OtherThreadStepOpensNothing(sys, cfg, t, choice);
    hide StepThread;
    SameEntriesKeepOpenInv(sys, StepThread(sys, cfg, t, choice));
  }

  lemma StepKeepsOpenInv(sys: System, cfg: Config, step: Step)
    requires LockInv(sys, cfg) && CloseInv(sys, cfg) && OpenInv(sys) && Enabled(sys, cfg, step)
    ensures OpenInv(Next(sys, cfg, step))
  {
    if step.Run? {
      if InOpen(sys.threads[step.thread].pc) {
        OpenStepKeepsOpenInv(sys, cfg, step.thread, step.choice);
      } else {
        OtherThreadStepKeepsOpenInv(sys, cfg, step.thread, step.choice);
      }
    } else {
      hide StepThread, LockInv, CloseInv;
      SameEntriesKeepOpenInv(sys, Next(sys, cfg, step));
    }
  }

  // ---- whatever is being closed has no outstanding use ----

  ghost predicate ClosesIdle(sys: System) {
    forall t: nat, item | Closes(sys, t, item) :: Outstanding(sys.handles, item.gate.entry) == 0
  }

  lemma MarkedAreIdle(sys: System, cfg: Config, keys: set<SessionKey>, item: Item)
    requires TableInv(sys, cfg)
    requires forall k | k in keys :: k in sys.pool.sessions && sys.pool.sessions[k].uses == 0
    requires item in Marked(MarkClosing(sys.pool, keys), keys)
    ensures Outstanding(sys.handles, item.gate.entry) == 0
  {
    assert EntryOk(sys.pool, cfg, sys.handles, item.key);
  }

  lemma ThreadStepClosesIdle(sys: System, cfg: Config, t: nat, choice: Choice)
    requires LockInv(sys, cfg) && TableInv(sys, cfg) && ClosesIdle(sys) && Enabled(sys, cfg, Run(t, choice))
    ensures ClosesIdle(StepThread(sys, cfg, t, choice))
  {
    var sys' := StepThread(sys, cfg, t, choice);
    var th := sys.threads[t];
    assert ThreadOk(cfg, th);
    if th.pc.Marking? {
      var keys := Markable(sys.pool, (set g | g in th.held), choice.eligible);
      forall u: nat, item | Closes(sys', u, item) ensures Outstanding(sys'.handles, item.gate.entry) == 0 {
        if u == t {
          MarkedAreIdle(sys, cfg, keys, item);
        } else {
          assert Closes(sys, u, item);
        }
      }
    } else if th.pc.Finishing? && th.pc.items != {} {
      hide LockInv, TableInv, FinishClose;
      assert forall u: nat, item :: Closes(sys', u, item) ==> Closes(sys, u, item);
    } else {
      BystanderStep(sys, cfg, t, choice);
      if th.pc.Installing? {
        hide LockInv, TableInv, GroupOf, Install;
        assert sys'.handles == sys.handles;
      } else {
        ThreadStepShrinksTable(sys, cfg, t, choice);
      }
      hide StepThread, TableInv, LockInv, ClosingShrinks;
      assert forall u: nat, item :: Closes(sys', u, item) ==> Closes(sys, u, item);
    }
  }

  lemma UseClosesIdle(sys: System, cfg: Config, key: SessionKey)
    requires CloseInv(sys, cfg) && ClosesIdle(sys)
    ensures ClosesIdle(Next(sys, cfg, Use(key)))
  {
    var sys' := Next(sys, cfg, Use(key));
    if sys' != sys {
      var id := sys.pool.sessions[key].id;
      forall t: nat, item | Closes(sys', t, item) ensures Outstanding(sys'.handles, item.gate.entry) == 0 {
        assert Closes(sys, t, item) && ItemOk(sys, cfg, t, item);
        HandleIssued(sys.handles, key, id, item.gate.entry);
      }
    }
  }

  lemma ReleaseClosesIdle(sys: System, cfg: Config, h: nat)
    requires ClosesIdle(sys) && h < |sys.handles|
    ensures ClosesIdle(Next(sys, cfg, Release(h)))
  {
    var sys' := Next(sys, cfg, Release(h));
    forall t: nat, item | Closes(sys', t, item) ensures Outstanding(sys'.handles, item.gate.entry) == 0 {
      assert Closes(sys, t, item);
      if !sys.handles[h].released {
        HandleReturned(sys.handles, h, item.gate.entry);
      }
    }
  }

  lemma StepClosesIdle(sys: System, cfg: Config, step: Step)
    requires LockInv(sys, cfg) && TableInv(sys, cfg) && CloseInv(sys, cfg) && ClosesIdle(sys) && Enabled(sys, cfg, step)
    ensures ClosesIdle(Next(sys, cfg, step))
  {
    match step
    case Spawn(_) =>
      assert forall u: nat, item :: Closes(Next(sys, cfg, step), u, item) ==> Closes(sys, u, item);
    case Use(key) => UseClosesIdle(sys, cfg, key);
    case Release(h) => ReleaseClosesIdle(sys, cfg, h);
    case Run(t, choice) => ThreadStepClosesIdle(sys, cfg, t, choice);
  }

  // ---- runs ----

  ghost predicate Safe(sys: System, cfg: Config) {
    Inv(sys, cfg) && ClosesIdle(sys)
  }

  lemma StepKeepsSafe(sys: System, cfg: Config, step: Step)
    requires Safe(sys, cfg) && Enabled(sys, cfg, step)
    ensures Safe(Next(sys, cfg, step), cfg)
  {
    hide LockInv, TableInv, CloseInv, OpenInv, ClosesIdle, Next;
    StepKeepsLockInv(sys, cfg, step);
    StepKeepsTable(sys, cfg, step);
    StepKeepsClose(sys, cfg, step);
    StepKeepsOpenInv(sys, cfg, step);
    StepClosesIdle(sys, cfg, step);
  }

  lemma {:induction false} RunIsSafe(cfg: Config, run: seq<System>, steps: seq<Step>, k: nat)
    requires IsRun(cfg, run, steps) && k < |run|
    ensures Safe(run[k], cfg)
  {
    if k > 0 {
      RunIsSafe(cfg, run, steps, k - 1);
      hide Safe, Next;
      StepKeepsSafe(run[k - 1], cfg, steps[k - 1]);
    }
  }

  /** Deadlock freedom: in every reachable state with an unfinished goroutine, some goroutine can step. */
  lemma NeverStuck(cfg: Config, run: seq<System>, steps: seq<Step>, k: nat, t: nat)
    requires IsRun(cfg, run, steps) && k < |run|
    requires t < |run[k].threads| && !run[k].threads[t].pc.Ended?
    ensures exists u, choice :: Enabled(run[k], cfg, Run(u, choice))
  {
    RunIsSafe(cfg, run, steps, k);
    SomeoneCanStep(run[k], cfg, t);
  }

  /** An entry marked closing is being closed by exactly one goroutine, which holds its group's lock. */
  lemma ClosingIsLocked(cfg: Config, run: seq<System>, steps: seq<Step>, k: nat, key: SessionKey)
    returns (t: nat)
    requires IsRun(cfg, run, steps) && k < |run|
    requires key in run[k].pool.sessions && run[k].pool.sessions[key].closing
    ensures var sys, e := run[k], run[k].pool.sessions[key];
      && Closes(sys, t, Item(key, Gate(e.id, e.round)))
      && e.group in sys.locks && sys.locks[e.group] == t
      && (forall u: nat, item | Closes(sys, u, item) && item.gate.entry == e.id :: u == t)
  {
    RunIsSafe(cfg, run, steps, k);
    var sys, e := run[k], run[k].pool.sessions[key];
    assert EntryOk(sys.pool, cfg, sys.handles, key);
    t :| Closes(sys, t, Item(key, Gate(e.id, e.round)));
    assert ItemOk(sys, cfg, t, Item(key, Gate(e.id, e.round)));
    assert Holds(sys, t, e.group);
    forall u: nat, item | Closes(sys, u, item) && item.gate.entry == e.id ensures u == t {
      assert ItemOk(sys, cfg, u, item);
      SameGroupSameThread(sys, cfg, t, u, e.group);
    }
  }

  /** GetOrCreate never hands out a session that is being closed, at any of its three lookups. */
  lemma HandedSessionsAreLive(cfg: Config, run: seq<System>, steps: seq<Step>, k: nat, r: nat)
    requires IsRun(cfg, run, steps) && k < |run| && r < |run[k].handed|
    ensures !run[k].handed[r].closing
  {
    RunIsSafe(cfg, run, steps, k);
  }

  /** openSession runs only for a key without an entry, and for one goroutine at a time per key. */
  lemma OpensOnlyMissingKeys(cfg: Config, run: seq<System>, steps: seq<Step>, k: nat, t: nat)
    requires IsRun(cfg, run, steps) && k < |run| && t < |run[k].threads| && run[k].threads[t].pc.Opening?
    ensures run[k].threads[t].job.OpenJob? && run[k].threads[t].job.key !in run[k].pool.sessions
    ensures forall u: nat | u < |run[k].threads| && run[k].threads[u].pc.Opening? &&
      run[k].threads[u].job == run[k].threads[t].job :: u == t
  {
    RunIsSafe(cfg, run, steps, k);
    forall u: nat | u < |run[k].threads| && run[k].threads[u].pc.Opening? && run[k].threads[u].job == run[k].threads[t].job
      ensures u == t
    {
      TwoOpenersDiffer(run[k], cfg, t, u);
    }
  }

  /** activeUses counts the unreleased handles issued for that very entry, and a closing entry has none. */
  lemma UsesCountHandles(cfg: Config, run: seq<System>, steps: seq<Step>, k: nat, key: SessionKey)
    requires IsRun(cfg, run, steps) && k < |run| && key in run[k].pool.sessions
    ensures var e := run[k].pool.sessions[key];
      e.uses == Outstanding(run[k].handles, e.id) && (e.closing ==> e.uses == 0)
  {
    RunIsSafe(cfg, run, steps, k);
    assert EntryOk(run[k].pool, cfg, run[k].handles, key);
  }

  /** Idle release never closes a session in use: as long as a release pass still has an entry to close, no
      handle issued for that entry is outstanding, even when another goroutine took the entry meanwhile. */
  lemma ReleaseSparesSessionsInUse(cfg: Config, run: seq<System>, steps: seq<Step>, k: nat, t: nat, item: Item, h: nat)
    requires IsRun(cfg, run, steps) && k < |run| && Closes(run[k], t, item)
    requires h < |run[k].handles| && run[k].handles[h].id == item.gate.entry
    ensures run[k].handles[h].released
  {
    RunIsSafe(cfg, run, steps, k);
    if !run[k].handles[h].released {
      OutstandingCounts(run[k].handles, h);
    }
  }

  lemma {:induction false} OutstandingCounts(handles: seq<Handle>, h: nat)
    requires h < |handles| && !handles[h].released
    ensures Outstanding(handles, handles[h].id) > 0
  {
    if h < |handles| - 1 {
      OutstandingCounts(handles[..|handles| - 1], h);
    }
  }

  /** A handle counts down once, only its own entry, and the counter is never already zero: handles of a
      replaced entry leave its successor alone. */
  lemma ReleaseCountsItsEntryOnce(cfg: Config, run: seq<System>, steps: seq<Step>, k: nat, h: nat, key: SessionKey)
    requires IsRun(cfg, run, steps) && k < |run| && h < |run[k].handles| && key in run[k].pool.sessions
    ensures var sys, e := run[k], run[k].pool.sessions[key];
      var sys' := Next(sys, cfg, Release(h));
      var counted := e.id == sys.handles[h].id && !sys.handles[h].released;
      && key in sys'.pool.sessions
      && sys'.pool.sessions[key].id == e.id && sys'.pool.sessions[key].closing == e.closing
      && sys'.pool.sessions[key].uses as int == e.uses - if counted then 1 else 0
  {
    RunIsSafe(cfg, run, steps, k);
    var sys := run[k];
    assert EntryOk(sys.pool, cfg, sys.handles, key);
    if !sys.handles[h].released {
      OutstandingCounts(sys.handles, h);
    }
  }
}
