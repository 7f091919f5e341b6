/** The agent pool's mutable session table. Each method is one section under the pool's mutex. */
module AgentPool {
  import opened Text
  import opened LockOrder
  import opened PoolState

  // id stands for the entry's address and round for the closeDone channel of its latest marking.
  class SessionEntry {
    const key: SessionKey
    const group: Group
    const id: nat
    var activeUses: nat
    var closing: bool
    var round: nat

    constructor (key: SessionKey, group: Group, id: nat)
      ensures this.key == key && Abs() == Entry(id, group, 0, false, 0)
    {
      this.key, this.group, this.id := key, group, id;
      activeUses, closing, round := 0, false, 0;
    }

    function Abs(): Entry
      reads this
    {
      Entry(id, group, activeUses, closing, round)
    }
  }

  // What takeSessions is asked to remove.
  datatype Match = ByKey(key: SessionKey) | ByGroup(group: Group)

  lemma MarkNothing(p: PoolState.Pool)
    ensures MarkClosing(p, {}) == p && Marked(p, {}) == {}
  {
    assert MarkClosing(p, {}).sessions == p.sessions;
  }

  // Marking the keys visited so far does not change whether the next one is idle.
  lemma MarkOneMore(p: PoolState.Pool, groups: set<Group>, eligible: set<SessionKey>, done: set<SessionKey>, k: SessionKey)
    requires k in p.sessions && k !in done
    ensures var keys := Markable(p, groups, eligible);
      var now := MarkClosing(p, keys * done);
      var hit := k in Markable(now, groups, eligible);
      var next := MarkClosing(now, if hit then {k} else {});
      && hit == (k in keys)
      && next == MarkClosing(p, keys * (done + {k}))
      && Marked(next, keys * (done + {k})) ==
         Marked(now, keys * done) + if hit then {Item(k, Gate(next.sessions[k].id, next.sessions[k].round))} else {}
  {
    var keys := Markable(p, groups, eligible);
    var now := MarkClosing(p, keys * done);
    var hit := k in Markable(now, groups, eligible);
    var next := MarkClosing(now, if hit then {k} else {});
    assert next.sessions == MarkClosing(p, keys * (done + {k})).sessions;
  }

  class Pool {
    var sessions: map<SessionKey, SessionEntry>
    var closed: bool
    var nextID: nat
    var openGates: set<Gate>

    ghost predicate Valid()
      reads this, sessions.Values
    {
      forall k | k in sessions :: sessions[k].key == k && sessions[k].id < nextID
    }

    ghost function Abs(): PoolState.Pool
      reads this, sessions.Values
    {
      PoolState.Pool(map k | k in sessions :: sessions[k].Abs(), closed, nextID, openGates)
    }

    constructor ()
      ensures Valid() && fresh(sessions.Values) && Abs() == EMPTY_POOL
    {
      sessions, closed, nextID, openGates := map[], false, 0, {};
    }

    method FirstLook(cfg: Config, key: SessionKey) returns (r: LookupResult)
      ensures r == Lookup(Abs(), cfg, key)
    {
      if closed {
        return PoolClosed;
      }
      if key in sessions {
        var entry := sessions[key];
        return if entry.closing then Closing(Gate(entry.id, entry.round)) else Found(entry.id);
      }
      return if key.agent in cfg then Missing(GroupOf(cfg, key)) else NotConfigured;
    }

    method SecondLook(key: SessionKey) returns (r: RecheckResult)
      ensures r == Recheck(Abs(), key)
    {
      if closed {
        return RecheckClosed;
      }
      return if key in sessions then Present(sessions[key].id) else Absent;
    }

    method InstallSession(key: SessionKey, group: Group) returns (r: RecheckResult)
      requires Valid()
      modifies this
      ensures Valid() && fresh(sessions.Values - old(sessions.Values))
      ensures (Abs(), r) == Install(old(Abs()), key, group)
    {
      if closed {
        return RecheckClosed;
      }
      if key in sessions {
        return Present(sessions[key].id);
      }
      var entry := new SessionEntry(key, group, nextID);
      r := Present(nextID);
      sessions, nextID := sessions[key := entry], nextID + 1;
      assert Abs().sessions == old(Abs().sessions)[key := Entry(old(nextID), group, 0, false, 0)];
    }

    method BeginSessionUse(key: SessionKey) returns (handle: Option<nat>)
      requires Valid()
      modifies sessions.Values
      ensures Valid() && (Abs(), handle) == BeginUse(old(Abs()), key)
    {
      if key !in sessions || sessions[key].closing {
        return None;
      }
      var entry := sessions[key];
      entry.activeUses := entry.activeUses + 1;
      handle := Some(entry.id);
      assert Abs().sessions == old(Abs().sessions)[key := entry.Abs()];
    }

    // The function BeginSessionUse returned for the entry with this id, when it runs for the first time.
    method EndSessionUse(key: SessionKey, id: nat)
      requires Valid()
      modifies sessions.Values
      ensures Valid() && Abs() == EndUse(old(Abs()), key, id)
    {
      if key in sessions && sessions[key].id == id {
        var current := sessions[key];
        if current.activeUses > 0 {
          current.activeUses := current.activeUses - 1;
        }
        assert Abs().sessions == old(Abs().sessions)[key := current.Abs()];
      }
    }

    predicate Matches(want: Match, entry: SessionEntry) {
      match want
      case ByKey(key) => entry.key == key
      case ByGroup(group) => entry.group == group
    }

    method TakeSessions(want: Match) returns (taken: set<SessionKey>)
      requires Valid()
      modifies this`sessions
      ensures Valid() && Abs() == Take(old(Abs()), taken)
      ensures forall k :: k in taken <==> k in old(sessions) && Matches(want, old(sessions[k]))
    {
      taken := {};
      var todo := sessions.Keys;
      while todo != {}
        invariant todo <= sessions.Keys && sessions.Keys == old(sessions.Keys) - taken
        invariant sessions == old(sessions) - taken
        invariant forall k :: k in taken <==> k in old(sessions) && k !in todo && Matches(want, old(sessions[k]))
      {
        var k :| k in todo;
        if Matches(want, sessions[k]) {
          taken := taken + {k};
          sessions := sessions - {k};
        }
        todo := todo - {k};
      }
      assert Abs().sessions == old(Abs().sessions) - taken;
    }

    // The first section of a release pass.
    method CollectIdleGroups(eligible: set<SessionKey>) returns (groups: set<Group>)
      ensures groups == IdleGroups(Abs(), eligible)
    {
      groups := {};
      var todo := sessions.Keys;
      while todo != {}
        invariant todo <= sessions.Keys
        invariant groups == set k | k in sessions && k !in todo && k in eligible &&
          IdleEntry(sessions[k].Abs()) :: sessions[k].group
      {
        var k :| k in todo;
        var entry := sessions[k];
        if !entry.closing && entry.activeUses == 0 && k in eligible {
          groups := groups + {entry.group};
        }
        todo := todo - {k};
      }
    }

    // One entry of MarkIdle's walk.
    method MarkIfIdle(k: SessionKey, groups: set<Group>, eligible: set<SessionKey>) returns (hit: bool)
      requires Valid() && k in sessions
      modifies sessions[k]
      ensures hit == (k in Markable(old(Abs()), groups, eligible))
      ensures Valid() && Abs() == MarkClosing(old(Abs()), if hit then {k} else {})
    {
      var entry := sessions[k];
      hit := entry.group in groups && !entry.closing && entry.activeUses == 0 && k in eligible;
      if hit {
        entry.closing := true;
        entry.round := entry.round + 1;
      }
      assert Abs().sessions == MarkClosing(old(Abs()), if hit then {k} else {}).sessions;
    }

    // The section of a release pass under the runtime locks.
    method MarkIdle(groups: set<Group>, eligible: set<SessionKey>) returns (items: set<Item>)
      requires Valid()
      modifies sessions.Values
      ensures Valid()
      ensures var keys := Markable(old(Abs()), groups, eligible);
        Abs() == MarkClosing(old(Abs()), keys) && items == Marked(Abs(), keys)
    {
      items := {};
      ghost var before := Abs();
      ghost var keys := Markable(before, groups, eligible);
      ghost var done: set<SessionKey> := {};
      var todo := sessions.Keys;
      MarkNothing(before);
      while todo != {}
        invariant Valid() && sessions == old(sessions)
        invariant todo + done == before.sessions.Keys && todo !! done
        invariant Abs() == MarkClosing(before, keys * done) && items == Marked(Abs(), keys * done)
      {
        var k :| k in todo;
        var hit := MarkIfIdle(k, groups, eligible);
        MarkOneMore(before, groups, eligible, done, k);
        if hit {
          items := items + {Item(k, Gate(sessions[k].id, sessions[k].round))};
          assert Abs().sessions[k] == sessions[k].Abs();
        }
        todo, done := todo - {k}, done + {k};
      }
      assert keys * done == keys;
    }

    // After session.Close() of a marked entry; ok when closing it succeeded.
    method FinishRelease(item: Item, ok: bool)
      requires Valid()
      modifies this, sessions.Values
      ensures Valid() && Abs() == FinishClose(old(Abs()), item, ok)
    {
      if item.key in sessions && sessions[item.key].id == item.gate.entry {
        if ok {
          sessions := sessions - {item.key};
          assert Abs().sessions == old(Abs().sessions) - {item.key};
        } else {
          var entry := sessions[item.key];
          entry.closing := false;
          assert Abs().sessions == old(Abs().sessions)[item.key := entry.Abs()];
        }
      }
      openGates := openGates + {item.gate};
    }

    method BeginShutdown()
      requires Valid()
      modifies this`closed
      ensures Valid() && Abs() == Shutdown(old(Abs()))
    {
      closed := true;
    }

    method DropSessions()
      requires Valid()
      modifies this`sessions
      ensures Valid() && Abs() == Take(old(Abs()), old(sessions.Keys))
    {
      sessions := map[];
      assert Abs().sessions == old(Abs().sessions) - old(sessions.Keys);
    }
  }
}
