/** What every reachable state of the pool keeps. */
module PoolInvariant {
  import opened LockOrder
  import opened PoolState
  import opened PoolProtocol

  function Todo(th: Thread): seq<Group> {
    if th.pc.Locking? then th.pc.todo else []
  }

  predicate InOpen(pc: Pc) {
    pc.Rechecking? || pc.Opening? || pc.Installing?
  }

  // One goroutine: its plan increases strictly, it holds nothing while it waits or after it ended, and a
  // goroutine opening a session has that session's group and nothing else.
  predicate ThreadOk(cfg: Config, th: Thread) {
    && StrictlyIncreasing(th.held + Todo(th))
    && (th.pc.Start? || th.pc.Waiting? || th.pc.Ended? ==> th.held == [])
    && (InOpen(th.pc) ==> th.job.OpenJob? && th.held == [GroupOf(cfg, th.job.key)])
    && (th.pc.Locking? && th.job.OpenJob? ==> th.held + th.pc.todo == [GroupOf(cfg, th.job.key)])
    && (th.job.OpenJob? && (InOpen(th.pc) || th.pc.Locking?) ==> th.job.key.agent in cfg)
    && (th.pc.Marking? || th.pc.Finishing? ==> th.job.ReleaseJob?)
  }

  predicate Holds(sys: System, t: nat, g: Group) {
    t < |sys.threads| && g in sys.threads[t].held
  }

  // The lock table says exactly who holds what.
  ghost predicate LockInv(sys: System, cfg: Config) {
    && (forall g | g in sys.locks :: Holds(sys, sys.locks[g], g))
    && (forall t, g | Holds(sys, t, g) :: g in sys.locks && sys.locks[g] == t)
    && (forall t | 0 <= t < |sys.threads| :: ThreadOk(cfg, sys.threads[t]))
  }

  // Unreleased handles issued for an entry.
  function Outstanding(handles: seq<Handle>, id: nat): nat {
    if handles == [] then 0
    else
      var h := handles[|handles| - 1];
      Outstanding(handles[..|handles| - 1], id) + if h.id == id && !h.released then 1 else 0
  }

  predicate EntryOk(p: Pool, cfg: Config, handles: seq<Handle>, k: SessionKey)
    requires k in p.sessions
  {
    var e := p.sessions[k];
    && k.agent in cfg && e.group == GroupOf(cfg, k) && e.id < p.nextID
    && e.uses == Outstanding(handles, e.id)
    && (e.closing ==> e.uses == 0)
  }

  // Entries have ids of their own, and a handle names an entry by key and id.
  predicate Identities(p: Pool, handles: seq<Handle>) {
    && (forall k, k' | k in p.sessions && k' in p.sessions && k != k' :: p.sessions[k].id != p.sessions[k'].id)
    && (forall h | 0 <= h < |handles| :: handles[h].id < p.nextID)
    && (forall h, k | 0 <= h < |handles| && k in p.sessions && p.sessions[k].id == handles[h].id :: handles[h].key == k)
  }

  predicate TableInv(sys: System, cfg: Config) {
    && (forall k | k in sys.pool.sessions :: EntryOk(sys.pool, cfg, sys.handles, k))
    && Identities(sys.pool, sys.handles)
  }

  predicate Closes(sys: System, t: nat, item: Item) {
    t < |sys.threads| && sys.threads[t].pc.Finishing? && item in sys.threads[t].pc.items
  }

  // A releaser holds the group of everything it closes, and as long as the entry is in the table it is
  // marked closing with the releaser's own gate.
  predicate ItemOk(sys: System, cfg: Config, t: nat, item: Item)
    requires t < |sys.threads|
  {
    && GroupOf(cfg, item.key) in sys.threads[t].held
    && item.gate.entry < sys.pool.nextID
    && (forall k | k in sys.pool.sessions && sys.pool.sessions[k].id == item.gate.entry ::
          k == item.key && sys.pool.sessions[k].closing && sys.pool.sessions[k].round == item.gate.round)
  }

  ghost predicate ClosedBySome(sys: System, gate: Gate) {
    exists t, item :: Closes(sys, t, item) && item.gate == gate
  }

  ghost predicate EntriesHaveClosers(sys: System) {
    forall k | k in sys.pool.sessions && sys.pool.sessions[k].closing ::
      exists t :: Closes(sys, t, Item(k, Gate(sys.pool.sessions[k].id, sys.pool.sessions[k].round)))
  }

  ghost predicate ClosersHold(sys: System, cfg: Config) {
    forall t, item | Closes(sys, t, item) :: ItemOk(sys, cfg, t, item)
  }

  ghost predicate WaitersHaveClosers(sys: System) {
    forall t | 0 <= t < |sys.threads| && sys.threads[t].pc.Waiting? ::
      sys.threads[t].pc.gate in sys.pool.openGates || ClosedBySome(sys, sys.threads[t].pc.gate)
  }

  ghost predicate CloseInv(sys: System, cfg: Config) {
    EntriesHaveClosers(sys) && ClosersHold(sys, cfg) && WaitersHaveClosers(sys)
  }

  predicate OpenInv(sys: System) {
    && (forall t | 0 <= t < |sys.threads| && (sys.threads[t].pc.Opening? || sys.threads[t].pc.Installing?) ::
          sys.threads[t].job.OpenJob? && sys.threads[t].job.key !in sys.pool.sessions)
    && (forall r | 0 <= r < |sys.handed| :: !sys.handed[r].closing)
  }

  ghost predicate Inv(sys: System, cfg: Config) {
    LockInv(sys, cfg) && TableInv(sys, cfg) && CloseInv(sys, cfg) && OpenInv(sys)
  }

  // ---- locks ----

  lemma IncreasingParts(a: seq<Group>, b: seq<Group>)
    requires StrictlyIncreasing(a + b)
    ensures StrictlyIncreasing(a) && StrictlyIncreasing(b)
    ensures forall x, y | x in a && y in b :: GroupLess(x, y)
    ensures forall x | x in a :: x !in b
  {
    assert forall i | 0 <= i < |a| :: (a + b)[i] == a[i];
    assert forall i | 0 <= i < |b| :: (a + b)[|a| + i] == b[i];
    forall x, y | x in a && y in b ensures GroupLess(x, y) {
      var i :| 0 <= i < |a| && a[i] == x;
      var j :| 0 <= j < |b| && b[j] == y;
      assert GroupLess((a + b)[i], (a + b)[|a| + j]);
    }
    forall x | x in a ensures x !in b {
      GroupLessTotal(x, x);
    }
  }

  // A thread that changes neither its locks nor anything the lock invariant looks at beyond its own state.
  lemma GoToKeepsLockInv(sys: System, cfg: Config, sys': System, t: nat, pc: Pc)
    requires LockInv(sys, cfg) && t < |sys.threads|
    requires sys'.threads == sys.threads[t := sys.threads[t].(pc := pc)] && sys'.locks == sys.locks
    requires ThreadOk(cfg, sys.threads[t].(pc := pc))
    ensures LockInv(sys', cfg)
  {
    hide ThreadOk;
    assert forall u, g :: Holds(sys', u, g) == Holds(sys, u, g);
  }

  lemma PlanOfOne(plan: seq<Group>, g: Group)
    requires IsPlan(plan, {g})
    ensures plan == [g]
  {
    var members := set x | x in plan;
    assert members == {g};
    assert g in members;
    assert forall i | 0 <= i < |plan| :: plan[i] in members;
    if |plan| > 1 {
      assert GroupLess(plan[0], plan[1]);
      GroupLessTotal(g, g);
    }
  }

  lemma StartKeepsLockInv(sys: System, cfg: Config, t: nat, choice: Choice)
    requires LockInv(sys, cfg) && Enabled(sys, cfg, Run(t, choice)) && sys.threads[t].pc.Start?
    ensures LockInv(StepThread(sys, cfg, t, choice), cfg)
  {
    if sys.threads[t].job.OpenJob? {
      StartOpenShape(sys, cfg, t, choice);
    } else {
      StartOtherShape(sys, cfg, t, choice);
    }
    hide StepStart, ThreadOk, LockInv;
    var sys' := StepThread(sys, cfg, t, choice);
    GoToKeepsLockInv(sys, cfg, sys', t, sys'.threads[t].pc);
  }

  // The goroutine moves on and touches no lock.
  predicate MovesOn(sys: System, sys': System, cfg: Config, t: nat)
    requires t < |sys.threads|
  {
    && |sys'.threads| == |sys.threads| && sys'.locks == sys.locks
    && sys'.threads == sys.threads[t := sys.threads[t].(pc := sys'.threads[t].pc)]
    && ThreadOk(cfg, sys.threads[t].(pc := sys'.threads[t].pc))
  }

  lemma StartOpenShape(sys: System, cfg: Config, t: nat, choice: Choice)
    requires Enabled(sys, cfg, Run(t, choice)) && ThreadOk(cfg, sys.threads[t])
    requires sys.threads[t].pc.Start? && sys.threads[t].job.OpenJob?
    ensures MovesOn(sys, StepStart(sys, cfg, t, choice), cfg, t)
  {
    hide GroupOf, StrictlyIncreasing;
    var key := sys.threads[t].job.key;
    if Lookup(sys.pool, cfg, key).Missing? {
      assert [] + choice.plan == choice.plan;
      PlanOfOne(choice.plan, GroupOf(cfg, key));
    }
  }

  lemma StartOtherShape(sys: System, cfg: Config, t: nat, choice: Choice)
    requires Enabled(sys, cfg, Run(t, choice)) && ThreadOk(cfg, sys.threads[t])
    requires sys.threads[t].pc.Start? && !sys.threads[t].job.OpenJob?
    ensures MovesOn(sys, StepStart(sys, cfg, t, choice), cfg, t)
  {
    hide GroupOf, StrictlyIncreasing, IdleGroups, AllGroups, Wanted;
    assert [] + choice.plan == choice.plan;
  }

  lemma TakeLock(sys: System, cfg: Config, sys': System, t: nat, g: Group)
    requires LockInv(sys, cfg) && t < |sys.threads| && g !in sys.locks
    requires sys'.locks == sys.locks[g := t] && |sys'.threads| == |sys.threads| && ThreadOk(cfg, sys'.threads[t])
    requires forall u | 0 <= u < |sys.threads| && u != t :: sys'.threads[u] == sys.threads[u]
    requires sys'.threads[t].held == sys.threads[t].held + [g]
    ensures LockInv(sys', cfg)
  {
    hide ThreadOk;
    assert forall u, x :: Holds(sys', u, x) <==> Holds(sys, u, x) || (u == t && x == g);
  }

  lemma DropLock(sys: System, cfg: Config, sys': System, t: nat, g: Group)
    requires LockInv(sys, cfg) && Holds(sys, t, g)
    requires sys'.locks == sys.locks - {g} && |sys'.threads| == |sys.threads| && ThreadOk(cfg, sys'.threads[t])
    requires forall u | 0 <= u < |sys.threads| && u != t :: sys'.threads[u] == sys.threads[u]
    requires forall x :: x in sys'.threads[t].held <==> x in sys.threads[t].held && x != g
    ensures LockInv(sys', cfg)
  {
    hide ThreadOk;
    assert forall u, x :: Holds(sys', u, x) <==> Holds(sys, u, x) && !(u == t && x == g);
  }

  lemma LockingKeepsLockInv(sys: System, cfg: Config, t: nat, choice: Choice)
    requires LockInv(sys, cfg) && Enabled(sys, cfg, Run(t, choice)) && sys.threads[t].pc.Locking?
    ensures LockInv(StepThread(sys, cfg, t, choice), cfg)
  {
    var th, sys' := sys.threads[t], StepThread(sys, cfg, t, choice);
    assert ThreadOk(cfg, th);
    hide LockInv, StrictlyIncreasing, GroupOf;
    if th.pc.todo == [] {
      assert th.held + [] == th.held;
      GoToKeepsLockInv(sys, cfg, sys', t, AfterLocks(th.job));
    } else {
      assert sys'.threads[t].held + sys'.threads[t].pc.todo == th.held + th.pc.todo;
      TakeLock(sys, cfg, sys', t, th.pc.todo[0]);
    }
  }

  lemma UnlockingKeepsLockInv(sys: System, cfg: Config, t: nat, choice: Choice)
    requires LockInv(sys, cfg) && Enabled(sys, cfg, Run(t, choice)) && sys.threads[t].pc.Unlocking?
    ensures LockInv(StepThread(sys, cfg, t, choice), cfg)
  {
    var th, sys' := sys.threads[t], StepThread(sys, cfg, t, choice);
    assert ThreadOk(cfg, th);
    hide LockInv;
    if th.held == [] {
      GoToKeepsLockInv(sys, cfg, sys', t, Ended);
    } else {
      LastIsDropped(cfg, th);
      hide ThreadOk, StrictlyIncreasing;
      DropLock(sys, cfg, sys', t, th.held[|th.held| - 1]);
    }
  }

  lemma LastIsDropped(cfg: Config, th: Thread)
    requires ThreadOk(cfg, th) && th.pc.Unlocking? && th.held != []
    ensures ThreadOk(cfg, th.(held := th.held[..|th.held| - 1]))
    ensures th.held[|th.held| - 1] !in th.held[..|th.held| - 1]
  {
    var front, g := th.held[..|th.held| - 1], th.held[|th.held| - 1];
    assert th.held + [] == th.held == front + [g];
    IncreasingParts(front, [g]);
    assert front + [] == front;
  }

  lemma OpenMovesOn(sys: System, cfg: Config, t: nat, key: SessionKey, ok: bool)
    requires t < |sys.threads| && ThreadOk(cfg, sys.threads[t]) && InOpen(sys.threads[t].pc)
    ensures MovesOn(sys, StepOpen(sys, cfg, t, key, ok), cfg, t)
  {
    hide GroupOf, StrictlyIncreasing;
  }

  lemma OtherMovesOn(sys: System, cfg: Config, t: nat, choice: Choice)
    requires t < |sys.threads| && ThreadOk(cfg, sys.threads[t])
    requires sys.threads[t].pc.Waiting? || sys.threads[t].pc.Taking? || sys.threads[t].pc.Marking? ||
             sys.threads[t].pc.Finishing? || sys.threads[t].pc.Ended?
    ensures MovesOn(sys, StepThread(sys, cfg, t, choice), cfg, t)
  {
    hide StepOpen, StepStart, StepLocking, StepUnlocking, GroupOf, StrictlyIncreasing;
    hide MarkClosing, FinishClose, Take, Taken, Marked, Markable;
  }

  lemma PlainStep(sys: System, cfg: Config, t: nat, choice: Choice)
    requires Enabled(sys, cfg, Run(t, choice)) && ThreadOk(cfg, sys.threads[t])
    requires !sys.threads[t].pc.Start? && !sys.threads[t].pc.Locking? && !sys.threads[t].pc.Unlocking?
    ensures MovesOn(sys, StepThread(sys, cfg, t, choice), cfg, t)
  {
    if InOpen(sys.threads[t].pc) {
      OpenMovesOn(sys, cfg, t, sys.threads[t].job.key, choice.ok);
      hide StepOpen, MovesOn;
    } else {
      OtherMovesOn(sys, cfg, t, choice);
      hide StepThread, MovesOn;
    }
  }

  lemma ThreadStepKeepsLockInv(sys: System, cfg: Config, t: nat, choice: Choice)
    requires LockInv(sys, cfg) && Enabled(sys, cfg, Run(t, choice))
    ensures LockInv(StepThread(sys, cfg, t, choice), cfg)
  {
    var pc := sys.threads[t].pc;
    if pc.Start? {
      StartKeepsLockInv(sys, cfg, t, choice);
    } else if pc.Locking? {
      LockingKeepsLockInv(sys, cfg, t, choice);
    } else if pc.Unlocking? {
      UnlockingKeepsLockInv(sys, cfg, t, choice);
    } else {
      PlainStep(sys, cfg, t, choice);
      hide StepThread, ThreadOk;
      var sys' := StepThread(sys, cfg, t, choice);
      GoToKeepsLockInv(sys, cfg, sys', t, sys'.threads[t].pc);
    }
  }

  lemma SpawnedHoldsNothing(sys: System, sys': System, job: Job, u: nat, g: Group)
    requires sys'.threads == sys.threads + [Thread(job, Start, [])]
    ensures Holds(sys', u, g) <==> Holds(sys, u, g)
  {
  }

  lemma SpawnKeepsLockInv(sys: System, cfg: Config, sys': System, job: Job)
    requires LockInv(sys, cfg)
    requires sys'.threads == sys.threads + [Thread(job, Start, [])] && sys'.locks == sys.locks
    ensures LockInv(sys', cfg)
  {
    forall u: nat, x ensures Holds(sys', u, x) <==> Holds(sys, u, x) {
      SpawnedHoldsNothing(sys, sys', job, u, x);
    }
    forall u: nat | u < |sys'.threads| ensures ThreadOk(cfg, sys'.threads[u]) {
      hide ThreadOk;
      SpawnedIsOk(cfg, job);
      assert u < |sys.threads| ==> ThreadOk(cfg, sys.threads[u]);
    }
    hide Holds, ThreadOk;
    SameHolders(sys, cfg, sys');
  }

  lemma SameHolders(sys: System, cfg: Config, sys': System)
    requires LockInv(sys, cfg) && sys'.locks == sys.locks
    requires forall u: nat, x :: Holds(sys', u, x) <==> Holds(sys, u, x)
    requires forall u: nat | u < |sys'.threads| :: ThreadOk(cfg, sys'.threads[u])
    ensures LockInv(sys', cfg)
  {
    hide Holds, ThreadOk;
  }

  lemma SpawnedIsOk(cfg: Config, job: Job)
    ensures ThreadOk(cfg, Thread(job, Start, []))
  {
  }

  lemma SameThreadsKeepLockInv(sys: System, cfg: Config, sys': System)
    requires LockInv(sys, cfg) && sys'.threads == sys.threads && sys'.locks == sys.locks
    ensures LockInv(sys', cfg)
  {
    hide ThreadOk;
    assert forall u, x :: Holds(sys', u, x) <==> Holds(sys, u, x);
  }

  lemma StepKeepsLockInv(sys: System, cfg: Config, step: Step)
    requires LockInv(sys, cfg) && Enabled(sys, cfg, step)
    ensures LockInv(Next(sys, cfg, step), cfg)
  {
    hide LockInv, StepThread, BeginUse, EndUse;
    match step
    case Spawn(job) => SpawnKeepsLockInv(sys, cfg, Next(sys, cfg, step), job);
    case Run(t, choice) => ThreadStepKeepsLockInv(sys, cfg, t, choice);
    case _ => SameThreadsKeepLockInv(sys, cfg, Next(sys, cfg, step));
  }
}
