/** What each operation of the pool delivers when its goroutine is the only one to move: the locks come one by one, the
    work is done once, and every lock is given back. */
module PoolAlone {
  import opened LockOrder
  import opened PoolState
  import opened PoolProtocol
  import opened PoolInvariant
  import opened PoolOutcomes

  // Goroutine t takes |run| - 1 steps with these choices, and nobody else moves.
  predicate Alone(cfg: Config, run: seq<System>, t: nat, choices: seq<Choice>) {
    && |run| == |choices| + 1
    && forall i | 0 <= i < |choices| ::
         Enabled(run[i], cfg, Run(t, choices[i])) && run[i + 1] == Next(run[i], cfg, Run(t, choices[i]))
  }

  lemma AloneThen(cfg: Config, a: seq<System>, t: nat, x: seq<Choice>, b: seq<System>, y: seq<Choice>)
    requires Alone(cfg, a, t, x) && Alone(cfg, b, t, y) && a[|x|] == b[0]
    ensures Alone(cfg, a + b[1..], t, x + y) && (a + b[1..])[|x + y|] == b[|y|]
  {
    hide Next, Enabled;
    var run, all := a + b[1..], x + y;
    forall i | 0 <= i < |all|
      ensures Enabled(run[i], cfg, Run(t, all[i])) && run[i + 1] == Next(run[i], cfg, Run(t, all[i]))
    {
      if i >= |x| {
        assert run[i] == b[i - |x|] && run[i + 1] == b[i - |x| + 1] && all[i] == y[i - |x|];
      }
    }
  }

  lemma OneStep(cfg: Config, sys: System, t: nat, choice: Choice)
    requires Enabled(sys, cfg, Run(t, choice))
    ensures Alone(cfg, [sys, Next(sys, cfg, Run(t, choice))], t, [choice])
  {
    hide Next;
  }

  // Everything but the locks and goroutine t is as it was.
  predicate SameBut(sys: System, sys': System, t: nat) {
    && sys'.pool == sys.pool && sys'.handles == sys.handles && sys'.handed == sys.handed
    && t < |sys.threads| == |sys'.threads| && sys'.threads[t].job == sys.threads[t].job
    && forall u | 0 <= u < |sys.threads| && u != t :: sys'.threads[u] == sys.threads[u]
  }

  lemma {:induction false} LocksAlone(sys: System, cfg: Config, t: nat, choice: Choice)
    returns (run: seq<System>, choices: seq<Choice>)
    requires t < |sys.threads| && sys.threads[t].pc.Locking? && StrictlyIncreasing(sys.threads[t].pc.todo)
    requires forall g | g in sys.threads[t].pc.todo :: g !in sys.locks
    ensures Alone(cfg, run, t, choices) && run[0] == sys
    ensures var th, end := sys.threads[t], run[|choices|];
      && SameBut(sys, end, t) && end.threads[t].pc == AfterLocks(th.job) && end.threads[t].held == th.held + th.pc.todo
      && forall g :: g in end.locks <==> g in sys.locks || g in th.pc.todo
    decreases |sys.threads[t].pc.todo|
  {
    var todo := sys.threads[t].pc.todo;
    var next := Next(sys, cfg, Run(t, choice));
    OneStep(cfg, sys, t, choice);
    run, choices := [sys, next], [choice];
    if todo == [] {
      assert sys.threads[t].held + [] == sys.threads[t].held;
    } else {
      RestIsIncreasing(todo);
      var more, moreChoices := LocksAlone(next, cfg, t, choice);
      AloneThen(cfg, run, t, choices, more, moreChoices);
      assert (sys.threads[t].held + [todo[0]]) + todo[1..] == sys.threads[t].held + todo;
      run, choices := run + more[1..], choices + moreChoices;
    }
  }

  lemma RestIsIncreasing(todo: seq<Group>)
    requires StrictlyIncreasing(todo) && todo != []
    ensures StrictlyIncreasing(todo[1..]) && todo[0] !in todo[1..]
  {
    assert todo == [todo[0]] + todo[1..];
    IncreasingParts([todo[0]], todo[1..]);
  }

  lemma {:induction false} UnlocksAlone(sys: System, cfg: Config, t: nat, choice: Choice)
    returns (run: seq<System>, choices: seq<Choice>)
    requires t < |sys.threads| && sys.threads[t].pc.Unlocking?
    ensures Alone(cfg, run, t, choices) && run[0] == sys
    ensures var end := run[|choices|];
      && SameBut(sys, end, t) && end.threads[t].pc == Ended && end.threads[t].held == []
      && forall g :: g in end.locks <==> g in sys.locks && g !in sys.threads[t].held
    decreases |sys.threads[t].held|
  {
    var held := sys.threads[t].held;
    var next := Next(sys, cfg, Run(t, choice));
    OneStep(cfg, sys, t, choice);
    run, choices := [sys, next], [choice];
    if held != [] {
      var more, moreChoices := UnlocksAlone(next, cfg, t, choice);
      AloneThen(cfg, run, t, choices, more, moreChoices);
      assert held == held[..|held| - 1] + [held[|held| - 1]];
      run, choices := run + more[1..], choices + moreChoices;
    }
  }

  // ---- GetOrCreate ----

  /** The first look settles a call whose session is there, being closed or refused. */
  lemma FirstLookSettles(sys: System, cfg: Config, t: nat, key: SessionKey, choice: Choice)
    requires t < |sys.threads| && sys.threads[t] == Thread(OpenJob(key), Start, []) && Enabled(sys, cfg, Run(t, choice))
    ensures var sys' := Next(sys, cfg, Run(t, choice));
      && sys'.pool == sys.pool && sys'.locks == sys.locks
      && var pc, there := sys'.threads[t].pc, !sys.pool.closed && key in sys.pool.sessions;
         && (there && !sys.pool.sessions[key].closing ==>
               pc == Ended && sys'.handed == sys.handed + [Return(key, sys.pool.sessions[key].id, false)])
         && (there && sys.pool.sessions[key].closing ==>
               pc == Waiting(Gate(sys.pool.sessions[key].id, sys.pool.sessions[key].round)) && sys'.handed == sys.handed)
         && (!there ==> sys'.handed == sys.handed)
         && (!there && (sys.pool.closed || key.agent !in cfg) ==> pc == Ended)
         && (!there && !sys.pool.closed && key.agent in cfg ==> pc == Locking([Group(cfg[key.agent], key.agent)]))
  {
    if !sys.pool.closed && key !in sys.pool.sessions && key.agent in cfg {
      PlanOfOne(choice.plan, GroupOf(cfg, key));
    }
  }

  // From Rechecking to Unlocking: the second look, openSession and the installation.
  lemma OpensLocked(sys: System, cfg: Config, t: nat, key: SessionKey, choice: Choice)
    returns (run: seq<System>, choices: seq<Choice>)
    requires t < |sys.threads| && sys.threads[t].job == OpenJob(key) && sys.threads[t].pc == Rechecking
    requires !sys.pool.closed && key !in sys.pool.sessions
    ensures Alone(cfg, run, t, choices) && run[0] == sys
    ensures var end := run[|choices|];
      && end.locks == sys.locks && end.threads == sys.threads[t := sys.threads[t].(pc := Unlocking)]
      && if choice.ok
         then
           && end.pool.sessions == sys.pool.sessions[key := Entry(sys.pool.nextID, GroupOf(cfg, key), 0, false, 0)]
           && end.handed == sys.handed + [Return(key, sys.pool.nextID, false)]
         else end.pool == sys.pool && end.handed == sys.handed
  {
    hide GroupOf;
    var opening := Next(sys, cfg, Run(t, choice));
    OneStep(cfg, sys, t, choice);
    var mid := Next(opening, cfg, Run(t, choice));
    OneStep(cfg, opening, t, choice);
    AloneThen(cfg, [sys, opening], t, [choice], [opening, mid], [choice]);
    run, choices := [sys, opening] + [opening, mid][1..], [choice] + [choice];
    if choice.ok {
      var done := Next(mid, cfg, Run(t, choice));
      OneStep(cfg, mid, t, choice);
      AloneThen(cfg, run, t, choices, [mid, done], [choice]);
      run, choices := run + [mid, done][1..], choices + [choice];
    }
  }

  /** GetOrCreate for a configured agent without a session takes its group's lock, opens the session once, puts it in the
      table under a new identity and hands it out; if opening fails nothing is left behind. Either way it gives its
      lock back. */
  lemma OpensAlone(sys: System, cfg: Config, t: nat, key: SessionKey, ok: bool)
    returns (run: seq<System>, choices: seq<Choice>)
    requires t < |sys.threads| && sys.threads[t] == Thread(OpenJob(key), Start, [])
    requires !sys.pool.closed && key !in sys.pool.sessions && key.agent in cfg
    requires Group(cfg[key.agent], key.agent) !in sys.locks
    ensures Alone(cfg, run, t, choices) && run[0] == sys
    ensures var end := run[|choices|];
      && t < |end.threads| && end.threads[t].pc == Ended && end.threads[t].held == [] && end.locks.Keys == sys.locks.Keys
      && if ok
         then
           && end.pool.sessions ==
                sys.pool.sessions[key := Entry(sys.pool.nextID, Group(cfg[key.agent], key.agent), 0, false, 0)]
           && end.handed == sys.handed + [Return(key, sys.pool.nextID, false)]
         else end.pool == sys.pool && end.handed == sys.handed
  {
    var g := Group(cfg[key.agent], key.agent);
    var choice := Choice(ok, {}, Item(key, Gate(0, 0)), [g]);
    assert IsPlan(choice.plan, {g});
    FirstLookSettles(sys, cfg, t, key, choice);
    var locking := Next(sys, cfg, Run(t, choice));
    OneStep(cfg, sys, t, choice);
    hide Next, Enabled;
    var a, x := LocksAlone(locking, cfg, t, choice);
    AloneThen(cfg, [sys, locking], t, [choice], a, x);
    var b, y := OpensLocked(a[|x|], cfg, t, key, choice);
    AloneThen(cfg, [sys, locking] + a[1..], t, [choice] + x, b, y);
    var c, z := UnlocksAlone(b[|y|], cfg, t, choice);
    AloneThen(cfg, [sys, locking] + a[1..] + b[1..], t, [choice] + x + y, c, z);
    run, choices := [sys, locking] + a[1..] + b[1..] + c[1..], [choice] + x + y + z;
    assert [] + [g] == [g];
  }

  // ---- Close, KillAgentProcess, CloseAll ----

  // From its locks to its end.
  lemma TakesLocked(sys: System, cfg: Config, t: nat, choice: Choice)
    returns (run: seq<System>, choices: seq<Choice>)
    requires TableInv(sys, cfg) && t < |sys.threads| && sys.threads[t].pc.Taking?
    ensures Alone(cfg, run, t, choices) && run[0] == sys
    ensures var end := run[|choices|];
      && t < |end.threads| && end.threads[t].pc == Ended && end.threads[t].held == [] && end.handed == sys.handed
      && end.pool.closed == sys.pool.closed
      && (forall g :: g in end.locks <==> g in sys.locks && g !in sys.threads[t].held)
      && Remaining(cfg, sys.threads[t].job, sys.pool.sessions, end.pool.sessions)
  {
    var taken := Next(sys, cfg, Run(t, choice));
    TakesTargets(sys, cfg, sys.threads[t].job);
    OneStep(cfg, sys, t, choice);
    assert taken.pool == Take(sys.pool, Taken(sys.pool, cfg, sys.threads[t].job));
    hide Next, Take, Taken, TableInv, Remaining;
    var a, x := UnlocksAlone(taken, cfg, t, choice);
    AloneThen(cfg, [sys, taken], t, [choice], a, x);
    run, choices := [sys, taken] + a[1..], [choice] + x;
  }

  // The table without the sessions a job is about.
  ghost predicate Remaining(cfg: Config, job: Job, before: map<SessionKey, Entry>, after: map<SessionKey, Entry>) {
    && (forall key :: key in after <==> key in before && !Targets(cfg, job, key))
    && (forall key | key in after :: after[key] == before[key])
  }

  lemma TakesTargets(sys: System, cfg: Config, job: Job)
    requires TableInv(sys, cfg)
    ensures Remaining(cfg, job, sys.pool.sessions, Take(sys.pool, Taken(sys.pool, cfg, job)).sessions)
  {
    assert forall key | key in sys.pool.sessions :: EntryOk(sys.pool, cfg, sys.handles, key);
    hide Outstanding;
  }

  /** Close takes its session, KillAgentProcess the sessions of its agent and CloseAll every session, under the locks of
      their groups, and gives the locks back; CloseAll also closes the pool. */
  lemma TakesAlone(sys: System, cfg: Config, t: nat, plan: seq<Group>)
    returns (run: seq<System>, choices: seq<Choice>)
    requires TableInv(sys, cfg) && t < |sys.threads| && sys.threads[t].pc.Start? && sys.threads[t].held == []
    requires sys.threads[t].job.CloseJob? || sys.threads[t].job.KillJob? || sys.threads[t].job.ShutdownJob?
    requires IsPlan(plan, Wanted(sys.pool, cfg, sys.threads[t].job, {})) && forall g | g in plan :: g !in sys.locks
    ensures Alone(cfg, run, t, choices) && run[0] == sys
    ensures var end, job := run[|choices|], sys.threads[t].job;
      && t < |end.threads| && end.threads[t].pc == Ended && end.threads[t].held == [] && end.handed == sys.handed
      && end.locks.Keys == sys.locks.Keys && end.pool.closed == (sys.pool.closed || job.ShutdownJob?)
      && Remaining(cfg, job, sys.pool.sessions, end.pool.sessions)
  {
    var job := sys.threads[t].job;
    var choice := Choice(true, {}, Item(SessionKey("", ""), Gate(0, 0)), plan);
    var first := Next(sys, cfg, Run(t, choice));
    OneStep(cfg, sys, t, choice);
    run, choices := [sys, first], [choice];
    if first.threads[t].pc.Locking? {
      assert first.threads[t] == Thread(job, Locking(plan), []) && first.locks == sys.locks;
      assert TableInv(first, cfg);
      hide Next, TableInv, Enabled, Remaining, Wanted;
      var a, x := LocksAlone(first, cfg, t, choice);
      AloneThen(cfg, run, t, choices, a, x);
      SameTable(first, a[|x|], cfg);
      var b, y := TakesLocked(a[|x|], cfg, t, choice);
      AloneThen(cfg, run + a[1..], t, choices + x, b, y);
      run, choices := run + a[1..] + b[1..], choices + x + y;
      assert [] + plan == plan;
    }
  }

  lemma SameTable(sys: System, sys': System, cfg: Config)
    requires TableInv(sys, cfg) && sys'.pool == sys.pool && sys'.handles == sys.handles
    ensures TableInv(sys', cfg)
  {
  }

  // ---- idle release ----

  ghost predicate KeyHit(items: set<Item>, key: SessionKey) {
    exists item :: item in items && item.key == key
  }

  // The table after the sessions of these entries were closed, or could not be.
  ghost predicate Released(before: map<SessionKey, Entry>, after: map<SessionKey, Entry>, items: set<Item>, ok: bool) {
    && (forall key :: key in after <==> key in before && !(ok && KeyHit(items, key)))
    && (forall key | key in after ::
          after[key] == if KeyHit(items, key) then before[key].(closing := false) else before[key])
  }

  lemma ReleasedThen(before: map<SessionKey, Entry>, mid: map<SessionKey, Entry>, after: map<SessionKey, Entry>,
                     item: Item, items: set<Item>, ok: bool)
    requires item in items && item.key in before
    requires mid == if ok then before - {item.key} else before[item.key := before[item.key].(closing := false)]
    requires Released(mid, after, items - {item}, ok)
    ensures Released(before, after, items, ok)
  {
    forall key ensures KeyHit(items, key) <==> key == item.key || KeyHit(items - {item}, key) {
      if x :| x in items && x.key == key && x != item {
        assert x in items - {item};
      }
    }
    hide KeyHit;
  }

  predicate OwnKeys(p: Pool, items: set<Item>) {
    && (forall item | item in items :: Current(p, item.key, item.gate.entry))
    && (forall x, y | x in items && y in items && x.key == y.key :: x == y)
  }

  lemma {:induction false} FinishesAlone(sys: System, cfg: Config, t: nat, ok: bool)
    returns (run: seq<System>, choices: seq<Choice>)
    requires t < |sys.threads| && sys.threads[t].pc.Finishing? && OwnKeys(sys.pool, sys.threads[t].pc.items)
    ensures Alone(cfg, run, t, choices) && run[0] == sys
    ensures var items, end := sys.threads[t].pc.items, run[|choices|];
      && end.locks == sys.locks && end.threads == sys.threads[t := sys.threads[t].(pc := Unlocking)]
      && end.handed == sys.handed && end.pool.closed == sys.pool.closed
      && Released(sys.pool.sessions, end.pool.sessions, items, ok)
    decreases |sys.threads[t].pc.items|
  {
    hide Next, Enabled, OwnKeys, Released, Current;
    var items := sys.threads[t].pc.items;
    var choice := Choice(ok, {}, if items == {} then Item(SessionKey("", ""), Gate(0, 0)) else AnyItem(items), []);
    if items == {} {
      FinishesNone(sys, cfg, t, choice);
      OneStep(cfg, sys, t, choice);
      run, choices := [sys, Next(sys, cfg, Run(t, choice))], [choice];
    } else {
      FinishesOne(sys, cfg, t, choice);
      OneStep(cfg, sys, t, choice);
      var next := Next(sys, cfg, Run(t, choice));
      OthersKeepKeys(sys.pool, next.pool, choice.item, items, ok);
      var more, moreChoices := FinishesAlone(next, cfg, t, ok);
      AloneThen(cfg, [sys, next], t, [choice], more, moreChoices);
      ReleasedThen(sys.pool.sessions, next.pool.sessions, more[|moreChoices|].pool.sessions, choice.item, items, ok);
      run, choices := [sys, next] + more[1..], [choice] + moreChoices;
    }
  }

  ghost function AnyItem(items: set<Item>): (item: Item)
    requires items != {}
    ensures item in items
  {
    var x :| x in items;
    x
  }

  lemma FinishesNone(sys: System, cfg: Config, t: nat, choice: Choice)
    requires t < |sys.threads| && sys.threads[t].pc == Finishing({})
    ensures Enabled(sys, cfg, Run(t, choice))
    ensures Next(sys, cfg, Run(t, choice)) == sys.(threads := sys.threads[t := sys.threads[t].(pc := Unlocking)])
    ensures Released(sys.pool.sessions, sys.pool.sessions, {}, choice.ok)
  {
  }

  lemma OthersKeepKeys(p: Pool, p': Pool, item: Item, items: set<Item>, ok: bool)
    requires OwnKeys(p, items) && item in items
    requires p'.sessions == if ok then p.sessions - {item.key}
                            else p.sessions[item.key := p.sessions[item.key].(closing := false)]
    ensures OwnKeys(p', items - {item}) && item.key in p.sessions
  {
  }

  lemma FinishesOne(sys: System, cfg: Config, t: nat, choice: Choice)
    requires t < |sys.threads| && sys.threads[t].pc.Finishing? && choice.item in sys.threads[t].pc.items
    requires OwnKeys(sys.pool, sys.threads[t].pc.items)
    ensures Enabled(sys, cfg, Run(t, choice))
    ensures var item, sys' := choice.item, Next(sys, cfg, Run(t, choice));
      && sys'.locks == sys.locks && sys'.handed == sys.handed && sys'.handles == sys.handles
      && sys'.pool.closed == sys.pool.closed
      && sys'.threads == sys.threads[t := sys.threads[t].(pc := Finishing(sys.threads[t].pc.items - {item}))]
      && sys'.pool.sessions == if choice.ok then sys.pool.sessions - {item.key}
                               else sys.pool.sessions[item.key := sys.pool.sessions[item.key].(closing := false)]
  {
  }

  // The table after a release pass: the eligible sessions without uses that nobody was closing are gone, if they could
  // be closed.
  ghost predicate IdleReleased(before: map<SessionKey, Entry>, after: map<SessionKey, Entry>, eligible: set<SessionKey>,
                               ok: bool) {
    && (forall key :: key in after <==>
          key in before && (ok ==> key !in eligible || before[key].uses > 0 || before[key].closing))
    && (forall key | key in after ::
          && after[key].id == before[key].id && after[key].group == before[key].group
          && after[key].uses == before[key].uses && after[key].closing == before[key].closing)
  }

  lemma MarkedAreOwn(p: Pool, keys: set<SessionKey>)
    requires keys <= p.sessions.Keys
    ensures OwnKeys(MarkClosing(p, keys), Marked(MarkClosing(p, keys), keys))
    ensures forall key :: KeyHit(Marked(MarkClosing(p, keys), keys), key) <==> key in keys
  {
    var p' := MarkClosing(p, keys);
    forall key | key in keys ensures KeyHit(Marked(p', keys), key) {
      assert Item(key, Gate(p'.sessions[key].id, p'.sessions[key].round)) in Marked(p', keys);
    }
  }

  lemma MarkThenRelease(p: Pool, after: map<SessionKey, Entry>, groups: set<Group>, eligible: set<SessionKey>, ok: bool)
    requires groups == IdleGroups(p, eligible)
    requires var keys := Markable(p, groups, eligible);
      Released(MarkClosing(p, keys).sessions, after, Marked(MarkClosing(p, keys), keys), ok)
    ensures IdleReleased(p.sessions, after, eligible, ok)
  {
    var keys := Markable(p, groups, eligible);
    MarkedAreOwn(p, keys);
    forall key | key in p.sessions ensures key in keys <==> key in eligible && IdleEntry(p.sessions[key]) {
      if key in eligible && IdleEntry(p.sessions[key]) {
        assert p.sessions[key].group in groups;
      }
    }
    hide KeyHit, Marked, Markable, IdleGroups;
  }

  lemma ReleasesLocked(sys: System, cfg: Config, t: nat, eligible: set<SessionKey>, ok: bool)
    returns (run: seq<System>, choices: seq<Choice>)
    requires t < |sys.threads| && sys.threads[t].pc.Marking?
    requires (set g | g in sys.threads[t].held) == IdleGroups(sys.pool, eligible)
    ensures Alone(cfg, run, t, choices) && run[0] == sys
    ensures var end := run[|choices|];
      && t < |end.threads| && end.threads[t].pc == Ended && end.threads[t].held == [] && end.handed == sys.handed
      && (forall g :: g in end.locks <==> g in sys.locks && g !in sys.threads[t].held)
      && IdleReleased(sys.pool.sessions, end.pool.sessions, eligible, ok)
  {
    var groups := set g | g in sys.threads[t].held;
    var keys := Markable(sys.pool, groups, eligible);
    var choice := Choice(ok, eligible, Item(SessionKey("", ""), Gate(0, 0)), []);
    var marked := Next(sys, cfg, Run(t, choice));
    OneStep(cfg, sys, t, choice);
    MarkedAreOwn(sys.pool, keys);
    assert marked.threads[t].pc == Finishing(Marked(MarkClosing(sys.pool, keys), keys));
    hide Next, Enabled, OwnKeys, Released, Marked, Markable, MarkClosing, KeyHit, IdleGroups, IdleReleased;
    var a, x := FinishesAlone(marked, cfg, t, ok);
    MarkThenRelease(sys.pool, a[|x|].pool.sessions, groups, eligible, ok);
    AloneThen(cfg, [sys, marked], t, [choice], a, x);
    var b, y := UnlocksAlone(a[|x|], cfg, t, choice);
    AloneThen(cfg, [sys, marked] + a[1..], t, [choice] + x, b, y);
    run, choices := [sys, marked] + a[1..] + b[1..], [choice] + x + y;
  }

  /** A release pass closes exactly the eligible sessions that are idle, under the locks of their groups: they leave the
      table, or stay usable when closing failed. Sessions in use, being closed or not eligible stay as they are, and the
      locks are given back. */
  lemma ReleasesAlone(sys: System, cfg: Config, t: nat, plan: seq<Group>, eligible: set<SessionKey>, ok: bool)
    returns (run: seq<System>, choices: seq<Choice>)
    requires t < |sys.threads| && sys.threads[t] == Thread(ReleaseJob, Start, [])
    requires IsPlan(plan, Wanted(sys.pool, cfg, ReleaseJob, eligible)) && forall g | g in plan :: g !in sys.locks
    ensures Alone(cfg, run, t, choices) && run[0] == sys
    ensures var end := run[|choices|];
      && t < |end.threads| && end.threads[t].pc == Ended && end.threads[t].held == [] && end.handed == sys.handed
      && end.locks.Keys == sys.locks.Keys
      && IdleReleased(sys.pool.sessions, end.pool.sessions, eligible, ok)
  {
    var choice := Choice(ok, eligible, Item(SessionKey("", ""), Gate(0, 0)), plan);
    var first := Next(sys, cfg, Run(t, choice));
    OneStep(cfg, sys, t, choice);
    run, choices := [sys, first], [choice];
    if plan == [] {
      NothingIdle(sys.pool, eligible, ok);
    } else {
      assert first.threads[t] == Thread(ReleaseJob, Locking(plan), []);
      assert first.locks == sys.locks && first.pool == sys.pool;
      hide Next, Enabled, IdleReleased, IdleGroups;
      var a, x := LocksAlone(first, cfg, t, choice);
      AloneThen(cfg, run, t, choices, a, x);
      assert [] + plan == plan;
      var b, y := ReleasesLocked(a[|x|], cfg, t, eligible, ok);
      AloneThen(cfg, run + a[1..], t, choices + x, b, y);
      run, choices := run + a[1..] + b[1..], choices + x + y;
    }
  }

  lemma NothingIdle(p: Pool, eligible: set<SessionKey>, ok: bool)
    requires IdleGroups(p, eligible) == {}
    ensures IdleReleased(p.sessions, p.sessions, eligible, ok)
  {
    forall key | key in p.sessions && key in eligible ensures !IdleEntry(p.sessions[key]) {
      if IdleEntry(p.sessions[key]) {
        IdleHasGroup(p, eligible, key);
      }
    }
  }

  lemma IdleHasGroup(p: Pool, eligible: set<SessionKey>, key: SessionKey)
    requires key in p.sessions && key in eligible && IdleEntry(p.sessions[key])
    ensures p.sessions[key].group in IdleGroups(p, eligible)
  {
  }
}
