/** The pool's runtime locks and close gates never deadlock. */
module PoolDeadlock {
  import opened SeqTools
  import opened LockOrder
  import opened PoolState
  import opened PoolProtocol
  import opened PoolInvariant

  // Waiting for a runtime lock that someone holds.
  predicate Blocked(sys: System, t: nat) {
    t < |sys.threads| && sys.threads[t].pc.Locking? && sys.threads[t].pc.todo != [] &&
    sys.threads[t].pc.todo[0] in sys.locks
  }

  // Among the first n goroutines, a blocked one that waits for the greatest lock.
  lemma {:induction false} GreatestWait(sys: System, n: nat) returns (top: nat)
    requires 0 < n <= |sys.threads|
    requires exists t :: 0 <= t < n && Blocked(sys, t)
    ensures top < n && Blocked(sys, top)
    ensures forall t | 0 <= t < n && Blocked(sys, t) ::
      !GroupLess(sys.threads[top].pc.todo[0], sys.threads[t].pc.todo[0])
  {
    var last := n - 1;
    if exists t :: 0 <= t < last && Blocked(sys, t) {
      top := GreatestWait(sys, last);
      if Blocked(sys, last) {
        var mine, best := sys.threads[last].pc.todo[0], sys.threads[top].pc.todo[0];
        GroupLessTotal(mine, mine);
        if GroupLess(best, mine) {
          forall t | 0 <= t < last && Blocked(sys, t) ensures !GroupLess(mine, sys.threads[t].pc.todo[0]) {
            var its := sys.threads[t].pc.todo[0];
            if GroupLess(mine, its) {
              GroupLessTransitive(best, mine, its);
            }
          }
          top := last;
        }
      }
    } else {
      top := last;
      GroupLessTotal(sys.threads[top].pc.todo[0], sys.threads[top].pc.todo[0]);
    }
  }

  // A blocked goroutine waits for a lock above everything it holds.
  lemma WaitsAbove(sys: System, cfg: Config, t: nat, g: Group)
    requires LockInv(sys, cfg) && Blocked(sys, t) && Holds(sys, t, g)
    ensures GroupLess(g, sys.threads[t].pc.todo[0])
  {
    var th := sys.threads[t];
    assert ThreadOk(cfg, th);
    IncreasingParts(th.held, th.pc.todo);
    assert th.pc.todo[0] in th.pc.todo;
  }

  lemma SomeLockWaiterMoves(sys: System, cfg: Config)
    requires LockInv(sys, cfg) && exists t :: Blocked(sys, t)
    ensures exists t :: CanRun(sys, t)
  {
    var n := |sys.threads|;
    var top := GreatestWait(sys, n);
    var g := sys.threads[top].pc.todo[0];
    var owner := sys.locks[g];
    assert Holds(sys, owner, g);
    assert ThreadOk(cfg, sys.threads[owner]);
    if !CanRun(sys, owner) {
      assert Blocked(sys, owner);
      WaitsAbove(sys, cfg, owner, g);
    }
  }

  // Every set of groups has an acquisition order.
  lemma {:induction false} PlanExists(groups: set<Group>) returns (plan: seq<Group>)
    ensures IsPlan(plan, groups)
    decreases |groups|
  {
    var list := ListOf(groups);
    plan := StableSort(list, GroupLeq);
    SortedDistinctIncreases(list, plan);
    assert forall g | g in groups :: g in plan;
  }

  lemma {:induction false} ListOf(groups: set<Group>) returns (list: seq<Group>)
    ensures NoRepeats(list) && (forall g :: g in list <==> g in groups)
    decreases |groups|
  {
    if groups == {} {
      list := [];
    } else {
      var g :| g in groups;
      var rest := ListOf(groups - {g});
      list := rest + [g];
    }
  }

  lemma CanRunIsEnabled(sys: System, cfg: Config, t: nat) returns (choice: Choice)
    requires CanRun(sys, t)
    ensures Enabled(sys, cfg, Run(t, choice))
  {
    var th := sys.threads[t];
    var plan := PlanExists(Wanted(sys.pool, cfg, th.job, {}));
    choice := Choice(true, {}, Item(SessionKey("", ""), Gate(0, 0)), plan);
    if th.pc.Finishing? && th.pc.items != {} {
      var item :| item in th.pc.items;
      choice := choice.(item := item);
    }
  }

  /** For any number of goroutines and groups: in a state where the invariant holds and some goroutine has
      not ended, some goroutine can take a step. Lock waiters follow one global order, and a goroutine
      waiting for a closing session holds no lock while its closer is never blocked. */
  lemma SomeoneCanStep(sys: System, cfg: Config, t: nat)
    requires LockInv(sys, cfg) && CloseInv(sys, cfg)
    requires t < |sys.threads| && !sys.threads[t].pc.Ended?
    ensures exists u, choice :: Enabled(sys, cfg, Run(u, choice))
  {
    SomeoneCanRun(sys, cfg, t);
    var u :| CanRun(sys, u);
    var choice := CanRunIsEnabled(sys, cfg, u);
  }

  lemma SomeoneCanRun(sys: System, cfg: Config, t: nat)
    requires LockInv(sys, cfg) && CloseInv(sys, cfg)
    requires t < |sys.threads| && !sys.threads[t].pc.Ended?
    ensures exists u :: CanRun(sys, u)
  {
    if !CanRun(sys, t) {
      if sys.threads[t].pc.Waiting? {
        assert ClosedBySome(sys, sys.threads[t].pc.gate);
        var u, item :| Closes(sys, u, item) && item.gate == sys.threads[t].pc.gate;
        assert CanRun(sys, u);
      } else {
        assert Blocked(sys, t);
        SomeLockWaiterMoves(sys, cfg);
      }
    }
  }
}
