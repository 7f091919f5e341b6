/** Any number of goroutines opening, closing, killing, releasing and using pooled sessions.
    A step is one section under the pool's mutex, one Lock or Unlock of a runtime lock, or one call
    outside every lock-free section (openSession, session.Close). */
module PoolProtocol {
  import opened LockOrder
  import opened PoolState

  datatype Job =
    | OpenJob(key: SessionKey)       // GetOrCreate
    | CloseJob(key: SessionKey)      // Close
    | KillJob(agent: string)         // KillAgentProcess
    | ReleaseJob                     // releaseSessionsDetailed
    | ShutdownJob                    // CloseAll

  datatype Pc =
    | Start
    | Waiting(gate: Gate)            // on closeDone, holding nothing
    | Locking(todo: seq<Group>)
    | Rechecking                     // GetOrCreate with its lock
    | Opening                        // inside openSession
    | Installing
    | Taking                         // Close, KillAgentProcess, CloseAll with their locks
    | Marking
    | Finishing(items: set<Item>)
    | Unlocking
    | Ended

  datatype Thread = Thread(job: Job, pc: Pc, held: seq<Group>)

  // One BeginSessionUse that found an entry.
  datatype Handle = Handle(key: SessionKey, id: nat, released: bool)

  // A session GetOrCreate handed out, and whether its entry was marked closing at that moment.
  datatype Return = Return(key: SessionKey, id: nat, closing: bool)

  datatype System = System(
    pool: Pool,
    locks: map<Group, nat>,          // runtime lock -> the thread that holds it
    threads: seq<Thread>,
    handles: seq<Handle>,
    handed: seq<Return>)

  const INITIAL := System(EMPTY_POOL, map[], [], [], [])

  // What is left open by the code a step runs: outcomes of outside calls, which sessions are idle long
  // enough, the order a map is walked in, and the acquisition order of a group set.
  datatype Choice = Choice(ok: bool, eligible: set<SessionKey>, item: Item, plan: seq<Group>)

  datatype Step =
    | Spawn(job: Job)
    | Run(thread: nat, choice: Choice)
    | Use(key: SessionKey)
    | Release(handle: nat)

  // plan is what lockRuntimeGroups makes of these groups.
  predicate IsPlan(plan: seq<Group>, groups: set<Group>) {
    StrictlyIncreasing(plan) && (set g | g in plan) == groups
  }

  function AllGroups(cfg: Config): set<Group> {
    set a | a in cfg :: Group(cfg[a], a)
  }

  // The groups a job locks, as seen in its first section; none for a job that ends there.
  function Wanted(p: Pool, cfg: Config, job: Job, eligible: set<SessionKey>): set<Group> {
    match job
    case OpenJob(key) => (match Lookup(p, cfg, key) case Missing(g) => {g} case _ => {})
    case CloseJob(key) => if key in p.sessions then {p.sessions[key].group} else {}
    case KillJob(agent) => if agent in cfg then {Group(cfg[agent], agent)} else {}
    case ReleaseJob => IdleGroups(p, eligible)
    case ShutdownJob => AllGroups(cfg)
  }

  // A goroutine that can take its next step now; only locks and gates make one wait.
  predicate CanRun(sys: System, t: nat) {
    t < |sys.threads| &&
    match sys.threads[t].pc
    case Waiting(gate) => gate in sys.pool.openGates
    case Locking(todo) => todo == [] || todo[0] !in sys.locks
    case Ended => false
    case _ => true
  }

  predicate Enabled(sys: System, cfg: Config, step: Step) {
    match step
    case Spawn(_) => true
    case Use(_) => true
    case Release(h) => h < |sys.handles|
    case Run(t, choice) =>
      CanRun(sys, t) &&
      match sys.threads[t].pc
      case Start => IsPlan(choice.plan, Wanted(sys.pool, cfg, sys.threads[t].job, choice.eligible))
      case Finishing(items) => items == {} || choice.item in items
      case _ => true
  }

  function SetThread(sys: System, t: nat, th: Thread): System
    requires t < |sys.threads|
  {
    sys.(threads := sys.threads[t := th])
  }

  function GoTo(sys: System, t: nat, pc: Pc): System
    requires t < |sys.threads|
  {
    SetThread(sys, t, sys.threads[t].(pc := pc))
  }

  function Hand(sys: System, key: SessionKey): System
    requires key in sys.pool.sessions
  {
    var e := sys.pool.sessions[key];
    sys.(handed := sys.handed + [Return(key, e.id, e.closing)])
  }

  function StepStart(sys: System, cfg: Config, t: nat, choice: Choice): System
    requires t < |sys.threads|
  {
    match sys.threads[t].job
    case OpenJob(key) => (
      match Lookup(sys.pool, cfg, key)
      case Closing(gate) => GoTo(sys, t, Waiting(gate))
      case Found(_) => GoTo(Hand(sys, key), t, Ended)
      case Missing(_) => GoTo(sys, t, Locking(choice.plan))
      case _ => GoTo(sys, t, Ended))
    case CloseJob(_) => GoTo(sys, t, Locking(choice.plan))
    case KillJob(agent) => GoTo(sys, t, if agent in cfg then Locking(choice.plan) else Ended)
    case ReleaseJob => GoTo(sys, t, if choice.plan == [] then Ended else Locking(choice.plan))
    case ShutdownJob => GoTo(sys.(pool := Shutdown(sys.pool)), t, Locking(choice.plan))
  }

  function AfterLocks(job: Job): Pc {
    match job
    case OpenJob(_) => Rechecking
    case ReleaseJob => Marking
    case _ => Taking
  }

  function StepLocking(sys: System, t: nat): System
    requires t < |sys.threads| && sys.threads[t].pc.Locking?
  {
    var th := sys.threads[t];
    if th.pc.todo == [] then GoTo(sys, t, AfterLocks(th.job))
    else SetThread(sys.(locks := sys.locks[th.pc.todo[0] := t]), t,
                   th.(pc := Locking(th.pc.todo[1..]), held := th.held + [th.pc.todo[0]]))
  }

  function StepOpen(sys: System, cfg: Config, t: nat, key: SessionKey, ok: bool): System
    requires t < |sys.threads|
  {
    match sys.threads[t].pc
    case Rechecking => (
      match Recheck(sys.pool, key)
      case RecheckClosed => GoTo(sys, t, Unlocking)
      case Present(_) => GoTo(Hand(sys, key), t, Unlocking)
      case Absent => GoTo(sys, t, Opening))
    case Opening => GoTo(sys, t, if ok then Installing else Unlocking)
    case Installing =>
      var (pool, result) := Install(sys.pool, key, GroupOf(cfg, key));
      var sys' := sys.(pool := pool);
      GoTo(if result.Present? then Hand(sys', key) else sys', t, Unlocking)
    case _ => sys
  }

  function Taken(p: Pool, cfg: Config, job: Job): set<SessionKey> {
    match job
    case CloseJob(key) => {key}
    case KillJob(agent) =>
      if agent in cfg && cfg[agent] in {CLAUDE_SDK, CODEX_SDK, ACP} then KeysOfGroup(p, Group(cfg[agent], agent)) else {}
    case ShutdownJob => p.sessions.Keys
    case _ => {}
  }

  function StepMarking(sys: System, t: nat, eligible: set<SessionKey>): System
    requires t < |sys.threads|
  {
    var keys := Markable(sys.pool, (set g | g in sys.threads[t].held), eligible);
    var pool := MarkClosing(sys.pool, keys);
    GoTo(sys.(pool := pool), t, Finishing(Marked(pool, keys)))
  }

  function StepFinishing(sys: System, t: nat, choice: Choice): System
    requires t < |sys.threads| && sys.threads[t].pc.Finishing?
  {
    var items := sys.threads[t].pc.items;
    if items == {} then GoTo(sys, t, Unlocking)
    else GoTo(sys.(pool := FinishClose(sys.pool, choice.item, choice.ok)), t, Finishing(items - {choice.item}))
  }

  function StepUnlocking(sys: System, t: nat): System
    requires t < |sys.threads|
  {
    var th := sys.threads[t];
    if th.held == [] then GoTo(sys, t, Ended)
    else SetThread(sys.(locks := sys.locks - {th.held[|th.held| - 1]}), t, th.(held := th.held[..|th.held| - 1]))
  }

  function StepThread(sys: System, cfg: Config, t: nat, choice: Choice): System
    requires t < |sys.threads|
  {
    var th := sys.threads[t];
    match th.pc
    case Start => StepStart(sys, cfg, t, choice)
    case Waiting(_) => GoTo(sys, t, Start)
    case Locking(_) => StepLocking(sys, t)
    case Taking => GoTo(sys.(pool := Take(sys.pool, Taken(sys.pool, cfg, th.job))), t, Unlocking)
    case Marking => StepMarking(sys, t, choice.eligible)
    case Finishing(_) => StepFinishing(sys, t, choice)
    case Unlocking => StepUnlocking(sys, t)
    case Ended => sys
    case _ => if th.job.OpenJob? then StepOpen(sys, cfg, t, th.job.key, choice.ok) else sys
  }

  function Next(sys: System, cfg: Config, step: Step): System
    requires Enabled(sys, cfg, step)
  {
    match step
    case Spawn(job) => sys.(threads := sys.threads + [Thread(job, Start, [])])
    case Use(key) =>
      var (pool, id) := BeginUse(sys.pool, key);
      if id.None? then sys
      else sys.(pool := pool, handles := sys.handles + [Handle(key, id.value, false)])
    case Release(h) =>
      var handle := sys.handles[h];
      if handle.released then sys
      else sys.(pool := EndUse(sys.pool, handle.key, handle.id),
                handles := sys.handles[h := handle.(released := true)])
    case Run(t, choice) => StepThread(sys, cfg, t, choice)
  }

  ghost predicate IsRun(cfg: Config, run: seq<System>, steps: seq<Step>) {
    && |run| == |steps| + 1
    && run[0] == INITIAL
    && forall k | 0 <= k < |steps| :: Enabled(run[k], cfg, steps[k]) && run[k + 1] == Next(run[k], cfg, steps[k])
  }
}
