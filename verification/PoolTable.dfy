/** The session table: use counts, identities, and who may be closing what. */
module PoolTable {
  import opened LockOrder
  import opened PoolState
  import opened PoolProtocol
  import opened PoolInvariant

  // ---- use counts ----

  lemma {:induction false} NoHandlesYet(handles: seq<Handle>, id: nat)
    requires forall h | 0 <= h < |handles| :: handles[h].id != id
    ensures Outstanding(handles, id) == 0
  {
    if handles != [] {
      NoHandlesYet(handles[..|handles| - 1], id);
    }
  }

  lemma HandleIssued(handles: seq<Handle>, key: SessionKey, id: nat, other: nat)
    ensures Outstanding(handles + [Handle(key, id, false)], other) ==
            Outstanding(handles, other) + if other == id then 1 else 0
  {
    var h := Handle(key, id, false);
    assert (handles + [h])[..|handles|] == handles;
  }

  lemma {:induction false} HandleReturned(handles: seq<Handle>, h: nat, other: nat)
    requires h < |handles| && !handles[h].released
    ensures var handles' := handles[h := handles[h].(released := true)];
      Outstanding(handles, other) == Outstanding(handles', other) + if other == handles[h].id then 1 else 0
  {
    var handles' := handles[h := handles[h].(released := true)];
    var last := |handles| - 1;
    if h == last {
      assert handles'[..last] == handles[..last];
    } else {
      assert handles'[..last] == handles[..last][h := handles[h].(released := true)];
      HandleReturned(handles[..last], h, other);
    }
  }

  lemma UseKeepsEntry(sys: System, cfg: Config, key: SessionKey, k: SessionKey)
    requires k in sys.pool.sessions && EntryOk(sys.pool, cfg, sys.handles, k)
    requires key in sys.pool.sessions && (k != key ==> sys.pool.sessions[k].id != sys.pool.sessions[key].id)
    ensures var sys' := Next(sys, cfg, Use(key));
      k in sys'.pool.sessions && EntryOk(sys'.pool, cfg, sys'.handles, k)
  {
    hide Outstanding, GroupOf;
    HandleIssued(sys.handles, key, sys.pool.sessions[key].id, sys.pool.sessions[k].id);
  }

  lemma UseKeepsIdentities(sys: System, cfg: Config, key: SessionKey)
    requires Identities(sys.pool, sys.handles) && (key in sys.pool.sessions ==> EntryOk(sys.pool, cfg, sys.handles, key))
    ensures var sys' := Next(sys, cfg, Use(key)); Identities(sys'.pool, sys'.handles)
  {
    hide Outstanding, GroupOf;
  }

  lemma UseKeepsTable(sys: System, cfg: Config, key: SessionKey)
    requires TableInv(sys, cfg)
    ensures TableInv(Next(sys, cfg, Use(key)), cfg)
  {
    var sys' := Next(sys, cfg, Use(key));
    UseKeepsIdentities(sys, cfg, key);
    if sys' != sys {
      hide EntryOk;
      forall k | k in sys'.pool.sessions ensures EntryOk(sys'.pool, cfg, sys'.handles, k) {
        UseKeepsEntry(sys, cfg, key, k);
      }
    }
  }

  lemma ReleaseKeepsEntry(sys: System, cfg: Config, h: nat, k: SessionKey)
    requires k in sys.pool.sessions && EntryOk(sys.pool, cfg, sys.handles, k) && h < |sys.handles|
    requires sys.pool.sessions[k].id == sys.handles[h].id ==> sys.handles[h].key == k
    ensures var sys' := Next(sys, cfg, Release(h));
      k in sys'.pool.sessions && EntryOk(sys'.pool, cfg, sys'.handles, k)
  {
    hide Outstanding, GroupOf;
    if !sys.handles[h].released {
      HandleReturned(sys.handles, h, sys.pool.sessions[k].id);
    }
  }

  lemma ReleaseKeepsIdentities(sys: System, cfg: Config, h: nat)
    requires Identities(sys.pool, sys.handles) && h < |sys.handles|
    ensures var sys' := Next(sys, cfg, Release(h));
      sys'.pool.sessions.Keys == sys.pool.sessions.Keys && Identities(sys'.pool, sys'.handles)
  {
    var sys' := Next(sys, cfg, Release(h));
    assert forall k | k in sys'.pool.sessions ::
      k in sys.pool.sessions && sys'.pool.sessions[k].id == sys.pool.sessions[k].id;
    assert forall i | 0 <= i < |sys.handles| ::
      sys'.handles[i].id == sys.handles[i].id && sys'.handles[i].key == sys.handles[i].key;
    hide Next, Identities;
    SameIdentities(sys.pool, sys'.pool, sys.handles, sys'.handles);
  }

  lemma SameIdentities(p: Pool, p': Pool, handles: seq<Handle>, handles': seq<Handle>)
    requires Identities(p, handles) && p'.nextID == p.nextID && |handles'| == |handles|
    requires forall k | k in p'.sessions :: k in p.sessions && p'.sessions[k].id == p.sessions[k].id
    requires forall i | 0 <= i < |handles| :: handles'[i].id == handles[i].id && handles'[i].key == handles[i].key
    ensures Identities(p', handles')
  {
  }

  lemma ReleaseKeepsTable(sys: System, cfg: Config, h: nat)
    requires TableInv(sys, cfg) && h < |sys.handles|
    ensures TableInv(Next(sys, cfg, Release(h)), cfg)
  {
    var sys' := Next(sys, cfg, Release(h));
    ReleaseKeepsIdentities(sys, cfg, h);
    hide EntryOk, Identities, Next;
    forall k | k in sys'.pool.sessions ensures EntryOk(sys'.pool, cfg, sys'.handles, k) {
      ReleaseKeepsEntry(sys, cfg, h, k);
    }
  }

  // ---- the pool sections of goroutines ----

  // Every entry that is still there is the same entry with the same uses, and idle if it is closing.
  predicate TableShrinks(p: Pool, p': Pool) {
    && p'.nextID == p.nextID
    && (forall k | k in p'.sessions :: k in p.sessions && p'.sessions[k].id == p.sessions[k].id &&
          p'.sessions[k].group == p.sessions[k].group && p'.sessions[k].uses == p.sessions[k].uses &&
          (p'.sessions[k].closing ==> p.sessions[k].uses == 0))
  }

  lemma ShrinkKeepsTable(sys: System, cfg: Config, sys': System)
    requires TableInv(sys, cfg) && sys'.handles == sys.handles && TableShrinks(sys.pool, sys'.pool)
    ensures TableInv(sys', cfg)
  {
    forall k | k in sys'.pool.sessions ensures EntryOk(sys'.pool, cfg, sys'.handles, k) {
      assert EntryOk(sys.pool, cfg, sys.handles, k);
    }
  }

  lemma InstallKeepsTable(sys: System, cfg: Config, sys': System, key: SessionKey)
    requires TableInv(sys, cfg) && key.agent in cfg && sys'.handles == sys.handles
    requires sys'.pool == Install(sys.pool, key, GroupOf(cfg, key)).0
    ensures TableInv(sys', cfg)
  {
    NoHandlesYet(sys.handles, sys.pool.nextID);
    forall k | k in sys'.pool.sessions ensures EntryOk(sys'.pool, cfg, sys'.handles, k) {
      if k in sys.pool.sessions {
        assert EntryOk(sys.pool, cfg, sys.handles, k);
      }
    }
    forall k | k in sys.pool.sessions ensures sys.pool.sessions[k].id < sys.pool.nextID {
      assert EntryOk(sys.pool, cfg, sys.handles, k);
    }
  }

  predicate ClosingIsIdle(p: Pool) {
    forall k | k in p.sessions && p.sessions[k].closing :: p.sessions[k].uses == 0
  }

  lemma StartKeepsPool(sys: System, cfg: Config, t: nat, choice: Choice)
    requires t < |sys.threads|
    ensures StepStart(sys, cfg, t, choice).pool.(closed := sys.pool.closed) == sys.pool
    ensures StepStart(sys, cfg, t, choice).handles == sys.handles
  {
    hide Lookup;
  }

  lemma OpenKeepsPool(sys: System, cfg: Config, t: nat, key: SessionKey, ok: bool)
    requires t < |sys.threads| && !sys.threads[t].pc.Installing?
    ensures StepOpen(sys, cfg, t, key, ok).pool == sys.pool && StepOpen(sys, cfg, t, key, ok).handles == sys.handles
  {
  }

  lemma TakeShrinks(p: Pool, keys: set<SessionKey>)
    requires ClosingIsIdle(p)
    ensures TableShrinks(p, Take(p, keys))
  {
  }

  lemma MarkShrinks(p: Pool, keys: set<SessionKey>)
    requires ClosingIsIdle(p)
    requires forall k | k in p.sessions && k in keys :: p.sessions[k].uses == 0
    ensures TableShrinks(p, MarkClosing(p, keys))
  {
  }

  lemma FinishShrinks(p: Pool, item: Item, ok: bool)
    requires ClosingIsIdle(p)
    ensures TableShrinks(p, FinishClose(p, item, ok))
  {
  }

  lemma ThreadStepShrinksTable(sys: System, cfg: Config, t: nat, choice: Choice)
    requires TableInv(sys, cfg) && Enabled(sys, cfg, Run(t, choice)) && !sys.threads[t].pc.Installing?
    ensures TableShrinks(sys.pool, StepThread(sys, cfg, t, choice).pool)
    ensures StepThread(sys, cfg, t, choice).handles == sys.handles
  {
    var th := sys.threads[t];
    assert ClosingIsIdle(sys.pool) by {
      assert forall k | k in sys.pool.sessions :: EntryOk(sys.pool, cfg, sys.handles, k);
    }
    hide TableInv, ClosingIsIdle, StepStart, StepOpen, Taken, MarkClosing, FinishClose, Take, Marked, IsPlan, Wanted;
    match th.pc
    case Start => StartKeepsPool(sys, cfg, t, choice);
    case Taking => TakeShrinks(sys.pool, Taken(sys.pool, cfg, th.job));
    case Marking => MarkShrinks(sys.pool, Markable(sys.pool, (set g | g in th.held), choice.eligible));
    case Finishing(items) => FinishShrinks(sys.pool, choice.item, choice.ok);
    case Rechecking | Opening => if th.job.OpenJob? { OpenKeepsPool(sys, cfg, t, th.job.key, choice.ok); }
    case _ =>
  }

  lemma StepKeepsTable(sys: System, cfg: Config, step: Step)
    requires LockInv(sys, cfg) && TableInv(sys, cfg) && Enabled(sys, cfg, step)
    ensures TableInv(Next(sys, cfg, step), cfg)
  {
    match step
    case Spawn(_) => ShrinkKeepsTable(sys, cfg, Next(sys, cfg, step));
    case Use(key) => UseKeepsTable(sys, cfg, key);
    case Release(h) => ReleaseKeepsTable(sys, cfg, h);
    case Run(t, choice) =>
      if sys.threads[t].pc.Installing? {
        assert ThreadOk(cfg, sys.threads[t]);
        InstallKeepsTable(sys, cfg, Next(sys, cfg, step), sys.threads[t].job.key);
      } else {
        ThreadStepShrinksTable(sys, cfg, t, choice);
        ShrinkKeepsTable(sys, cfg, Next(sys, cfg, step));
      }
  }

  // ---- closing entries and waiters ----

  ghost predicate SameClosers(sys: System, sys': System) {
    && (forall u: nat, item :: Closes(sys', u, item) <==> Closes(sys, u, item))
    && (forall u: nat, item | Closes(sys, u, item) && Closes(sys', u, item) ::
          sys'.threads[u].held == sys.threads[u].held)
  }

  // No entry becomes closing, and an entry known so far stays what it is or goes.
  predicate ClosingShrinks(p: Pool, p': Pool) {
    && p.nextID <= p'.nextID && p.openGates <= p'.openGates
    && (forall k | k in p'.sessions && (p'.sessions[k].closing || p'.sessions[k].id < p.nextID) ::
          k in p.sessions && p'.sessions[k].id == p.sessions[k].id && p'.sessions[k].closing == p.sessions[k].closing
          && p'.sessions[k].round == p.sessions[k].round)
  }

  lemma ClosersKept(sys: System, sys': System, gate: Gate)
    requires SameClosers(sys, sys') && ClosedBySome(sys, gate)
    ensures ClosedBySome(sys', gate)
  {
    var u, item :| Closes(sys, u, item) && item.gate == gate;
    assert Closes(sys', u, item);
  }

  // Steps of goroutines that neither mark nor finish: at most they start to wait for a gate that is closed.
  lemma BystanderKeepsClose(sys: System, cfg: Config, sys': System)
    requires CloseInv(sys, cfg) && SameClosers(sys, sys') && ClosingShrinks(sys.pool, sys'.pool)
    requires forall u | 0 <= u < |sys'.threads| && sys'.threads[u].pc.Waiting? ::
      || (u < |sys.threads| && sys.threads[u].pc == sys'.threads[u].pc)
      || ClosedBySome(sys, sys'.threads[u].pc.gate)
    ensures CloseInv(sys', cfg)
  {
    forall k | k in sys'.pool.sessions && sys'.pool.sessions[k].closing
      ensures exists u :: Closes(sys', u, Item(k, Gate(sys'.pool.sessions[k].id, sys'.pool.sessions[k].round)))
    {
      var u :| Closes(sys, u, Item(k, Gate(sys.pool.sessions[k].id, sys.pool.sessions[k].round)));
      assert Closes(sys', u, Item(k, Gate(sys.pool.sessions[k].id, sys.pool.sessions[k].round)));
    }
    forall u, item | Closes(sys', u, item) ensures ItemOk(sys', cfg, u, item) {
      assert Closes(sys, u, item) && ItemOk(sys, cfg, u, item);
    }
    forall u | 0 <= u < |sys'.threads| && sys'.threads[u].pc.Waiting?
      ensures sys'.threads[u].pc.gate in sys'.pool.openGates || ClosedBySome(sys', sys'.threads[u].pc.gate)
    {
      var gate := sys'.threads[u].pc.gate;
      if ClosedBySome(sys, gate) {
        ClosersKept(sys, sys', gate);
      }
    }
  }

  lemma StepSameClosers(sys: System, sys': System, t: nat)
    requires t < |sys.threads| == |sys'.threads|
    requires forall u | 0 <= u < |sys.threads| && u != t :: sys'.threads[u] == sys.threads[u]
    requires !sys.threads[t].pc.Finishing? || sys.threads[t].pc.items == {}
    requires !sys'.threads[t].pc.Finishing?
    ensures SameClosers(sys, sys')
  {
  }

  lemma InstallShrinksClosing(p: Pool, key: SessionKey, group: Group)
    ensures ClosingShrinks(p, Install(p, key, group).0)
  {
  }

  ghost predicate WaitsForClosing(p: Pool, pc: Pc) {
    pc.Waiting? ==>
      exists k :: k in p.sessions && p.sessions[k].closing && pc.gate == Gate(p.sessions[k].id, p.sessions[k].round)
  }

  // The goroutine moves on, all others stay, and the table behaves as a bystander's does.
  ghost predicate Bystands(sys: System, sys': System, t: nat) {
    && t < |sys.threads| == |sys'.threads|
    && (forall u | 0 <= u < |sys.threads| && u != t :: sys'.threads[u] == sys.threads[u])
    && !sys'.threads[t].pc.Finishing?
    && ClosingShrinks(sys.pool, sys'.pool)
    && WaitsForClosing(sys.pool, sys'.threads[t].pc)
  }

  lemma StartBystands(sys: System, cfg: Config, t: nat, choice: Choice)
    requires t < |sys.threads|
    ensures Bystands(sys, StepStart(sys, cfg, t, choice), t)
  {
    hide GroupOf;
  }

  lemma OpenBystands(sys: System, cfg: Config, t: nat, key: SessionKey, ok: bool)
    requires t < |sys.threads| && InOpen(sys.threads[t].pc)
    ensures Bystands(sys, StepOpen(sys, cfg, t, key, ok), t)
  {
    InstallShrinksClosing(sys.pool, key, GroupOf(cfg, key));
    hide GroupOf;
  }

  lemma LockBystands(sys: System, t: nat)
    requires t < |sys.threads|
    ensures sys.threads[t].pc.Locking? ==> Bystands(sys, StepLocking(sys, t), t)
    ensures sys.threads[t].pc.Unlocking? ==> Bystands(sys, StepUnlocking(sys, t), t)
  {
  }

  lemma GoToBystands(sys: System, sys': System, t: nat, pc: Pc)
    requires t < |sys.threads| && !pc.Finishing? && !pc.Waiting?
    requires sys'.pool == sys.pool || exists keys :: sys'.pool == Take(sys.pool, keys)
    requires sys'.threads == sys.threads[t := sys.threads[t].(pc := pc)]
    ensures Bystands(sys, sys', t)
  {
  }

  // What a goroutine outside marking and finishing does to the table and to its own program counter.
  lemma BystanderStep(sys: System, cfg: Config, t: nat, choice: Choice)
    requires Enabled(sys, cfg, Run(t, choice)) && ThreadOk(cfg, sys.threads[t])
    requires !sys.threads[t].pc.Marking? && (sys.threads[t].pc.Finishing? ==> sys.threads[t].pc.items == {})
    ensures Bystands(sys, StepThread(sys, cfg, t, choice), t)
  {
    var th := sys.threads[t];
    hide StepStart, StepOpen, StepLocking, StepUnlocking, Taken, Take;
    hide IsPlan, Wanted, Bystands, Markable, StrictlyIncreasing;
    match th.pc
    case Start => StartBystands(sys, cfg, t, choice);
    case Rechecking | Opening | Installing => OpenBystands(sys, cfg, t, th.job.key, choice.ok);
    case Locking(_) => LockBystands(sys, t);
    case Unlocking => LockBystands(sys, t);
    case Waiting(_) => GoToBystands(sys, StepThread(sys, cfg, t, choice), t, Start);
    case Taking | Finishing(_) => GoToBystands(sys, StepThread(sys, cfg, t, choice), t, Unlocking);
    case _ =>
  }

  lemma BystanderThreadKeepsClose(sys: System, cfg: Config, t: nat, choice: Choice)
    requires LockInv(sys, cfg) && CloseInv(sys, cfg) && Enabled(sys, cfg, Run(t, choice))
    requires !sys.threads[t].pc.Marking? && (sys.threads[t].pc.Finishing? ==> sys.threads[t].pc.items == {})
    ensures CloseInv(StepThread(sys, cfg, t, choice), cfg)
  {
    var sys' := StepThread(sys, cfg, t, choice);
    BystanderStep(sys, cfg, t, choice);
    hide StepThread, ClosingShrinks;
    StepSameClosers(sys, sys', t);
    if sys'.threads[t].pc.Waiting? {
      var k :| k in sys.pool.sessions && sys.pool.sessions[k].closing &&
               sys'.threads[t].pc.gate == Gate(sys.pool.sessions[k].id, sys.pool.sessions[k].round);
      var item := Item(k, sys'.threads[t].pc.gate);
      var u :| Closes(sys, u, item);
      assert ClosedBySome(sys, item.gate);
    }
    BystanderKeepsClose(sys, cfg, sys');
  }

  lemma OtherStepKeepsClose(sys: System, cfg: Config, step: Step)
    requires CloseInv(sys, cfg) && Enabled(sys, cfg, step) && !step.Run?
    ensures CloseInv(Next(sys, cfg, step), cfg)
  {
    var sys' := Next(sys, cfg, step);
    assert ClosingShrinks(sys.pool, sys'.pool);
    assert forall u, item :: Closes(sys', u, item) <==> Closes(sys, u, item);
    assert SameClosers(sys, sys');
    BystanderKeepsClose(sys, cfg, sys');
  }

  // An entry that may be marked is idle, so no one else is closing it.
  lemma MarkKeepsClose(sys: System, cfg: Config, t: nat, choice: Choice)
    requires TableInv(sys, cfg) && CloseInv(sys, cfg) && Enabled(sys, cfg, Run(t, choice)) && sys.threads[t].pc.Marking?
    ensures CloseInv(StepThread(sys, cfg, t, choice), cfg)
  {
    var sys' := StepThread(sys, cfg, t, choice);
    var held := sys.threads[t].held;
    var keys := Markable(sys.pool, (set g | g in held), choice.eligible);
    assert sys'.threads[t].held == held;
    forall u, item ensures Closes(sys', u, item) <==>
      Closes(sys, u, item) || (u == t && item in Marked(sys'.pool, keys)) {
    }
    forall k | k in sys'.pool.sessions && sys'.pool.sessions[k].closing
      ensures exists u :: Closes(sys', u, Item(k, Gate(sys'.pool.sessions[k].id, sys'.pool.sessions[k].round)))
    {
      var item := Item(k, Gate(sys'.pool.sessions[k].id, sys'.pool.sessions[k].round));
      if k in keys {
        assert Closes(sys', t, item);
      } else {
        var u :| Closes(sys, u, item);
        assert Closes(sys', u, item);
      }
    }
    forall u, item | Closes(sys', u, item) ensures ItemOk(sys', cfg, u, item) {
      if Closes(sys, u, item) {
        assert ItemOk(sys, cfg, u, item);
      } else {
        assert EntryOk(sys.pool, cfg, sys.handles, item.key);
      }
    }
    forall u | 0 <= u < |sys'.threads| && sys'.threads[u].pc.Waiting?
      ensures sys'.threads[u].pc.gate in sys'.pool.openGates || ClosedBySome(sys', sys'.threads[u].pc.gate)
    {
      if ClosedBySome(sys, sys.threads[u].pc.gate) {
        var v, item :| Closes(sys, v, item) && item.gate == sys.threads[u].pc.gate;
        assert Closes(sys', v, item);
      }
    }
  }

  lemma SameGroupSameThread(sys: System, cfg: Config, t: nat, u: nat, g: Group)
    requires LockInv(sys, cfg) && Holds(sys, t, g) && Holds(sys, u, g)
    ensures t == u
  {
  }

  // One item is done: every other item is still being closed by the same goroutine, and no entry starts to close.
  predicate Finishes(sys: System, sys': System, cfg: Config, t: nat, done: Item, ok: bool) {
    && Closes(sys, t, done) && |sys'.threads| == |sys.threads|
    && sys'.pool == FinishClose(sys.pool, done, ok)
    && sys'.threads == sys.threads[t := sys.threads[t].(pc := Finishing(sys.threads[t].pc.items - {done}))]
  }

  lemma FinishClosers(sys: System, sys': System, cfg: Config, t: nat, done: Item, ok: bool, u: nat, item: Item)
    requires Finishes(sys, sys', cfg, t, done, ok)
    ensures Closes(sys', u, item) <==> Closes(sys, u, item) && !(u == t && item == done)
  {
  }

  lemma FinishKeepsEntries(sys: System, sys': System, cfg: Config, t: nat, done: Item, ok: bool)
    requires Finishes(sys, sys', cfg, t, done, ok) && EntriesHaveClosers(sys) && ItemOk(sys, cfg, t, done)
    ensures EntriesHaveClosers(sys')
  {
    forall k | k in sys'.pool.sessions && sys'.pool.sessions[k].closing
      ensures exists u :: Closes(sys', u, Item(k, Gate(sys'.pool.sessions[k].id, sys'.pool.sessions[k].round)))
    {
      var item := Item(k, Gate(sys.pool.sessions[k].id, sys.pool.sessions[k].round));
      var u :| Closes(sys, u, item);
      FinishClosers(sys, sys', cfg, t, done, ok, u, item);
    }
  }

  lemma FinishKeepsItem(sys: System, sys': System, cfg: Config, t: nat, done: Item, ok: bool, u: nat, item: Item)
    requires LockInv(sys, cfg) && Finishes(sys, sys', cfg, t, done, ok) && ItemOk(sys, cfg, t, done)
    requires Closes(sys', u, item) && u < |sys.threads| && ItemOk(sys, cfg, u, item)
    ensures ItemOk(sys', cfg, u, item)
  {
    FinishClosers(sys, sys', cfg, t, done, ok, u, item);
    if item.key == done.key {
      SameGroupSameThread(sys, cfg, t, u, GroupOf(cfg, done.key));
    }
    hide LockInv, GroupOf;
  }

  lemma FinishKeepsWaiters(sys: System, sys': System, cfg: Config, t: nat, done: Item, ok: bool)
    requires Finishes(sys, sys', cfg, t, done, ok) && WaitersHaveClosers(sys)
    ensures WaitersHaveClosers(sys')
  {
    forall u | 0 <= u < |sys'.threads| && sys'.threads[u].pc.Waiting?
      ensures sys'.threads[u].pc.gate in sys'.pool.openGates || ClosedBySome(sys', sys'.threads[u].pc.gate)
    {
      var gate := sys.threads[u].pc.gate;
      if ClosedBySome(sys, gate) && gate != done.gate {
        var v, item :| Closes(sys, v, item) && item.gate == gate;
        FinishClosers(sys, sys', cfg, t, done, ok, v, item);
      }
    }
  }

  lemma FinishKeepsClose(sys: System, cfg: Config, t: nat, choice: Choice)
    requires LockInv(sys, cfg) && CloseInv(sys, cfg) && Enabled(sys, cfg, Run(t, choice))
    requires sys.threads[t].pc.Finishing? && sys.threads[t].pc.items != {}
    ensures CloseInv(StepThread(sys, cfg, t, choice), cfg)
  {
    var sys', done := StepThread(sys, cfg, t, choice), choice.item;
    assert Finishes(sys, sys', cfg, t, done, choice.ok);
    assert Closes(sys, t, done) && ItemOk(sys, cfg, t, done);
    hide StepThread, Finishes, LockInv, ItemOk, Closes;
    FinishKeepsEntries(sys, sys', cfg, t, done, choice.ok);
    FinishKeepsWaiters(sys, sys', cfg, t, done, choice.ok);
    forall u, item | Closes(sys', u, item) ensures ItemOk(sys', cfg, u, item) {
      FinishClosers(sys, sys', cfg, t, done, choice.ok, u, item);
      FinishKeepsItem(sys, sys', cfg, t, done, choice.ok, u, item);
    }
  }

  lemma StepKeepsClose(sys: System, cfg: Config, step: Step)
    requires LockInv(sys, cfg) && TableInv(sys, cfg) && CloseInv(sys, cfg) && Enabled(sys, cfg, step)
    ensures CloseInv(Next(sys, cfg, step), cfg)
  {
    if step.Run? {
      var pc := sys.threads[step.thread].pc;
      if pc.Marking? {
        MarkKeepsClose(sys, cfg, step.thread, step.choice);
      } else if pc.Finishing? && pc.items != {} {
        FinishKeepsClose(sys, cfg, step.thread, step.choice);
      } else {
        BystanderThreadKeepsClose(sys, cfg, step.thread, step.choice);
      }
    } else {
      OtherStepKeepsClose(sys, cfg, step);
    }
  }
}
