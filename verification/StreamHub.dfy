/** The stream hub itself: its tables for all sessions, and its locked methods.
    Every method is proved to act on its own session exactly as the function of SessionState says and to
    leave the view of every other session alone. Ids contain no ':'; connections are numbers. */
module StreamHub {
  import opened Text
  import opened EventCursor
  import opened SeqTools
  import opened SessionState
  import opened ReplayKeys

  class StreamHub {
    var clients: map<string, nat>
    var clientNodes: map<string, string>
    var sessionClients: map<string, set<string>>
    var pendingSessions: map<string, Pending>
    var replayStates: map<string, ReplayState>

    // Replay keys are well formed, only registered clients are bound or have a node, and no client id is empty.
    ghost predicate Valid()
      reads this
    {
      && WellKeyed(replayStates) && "" !in clients && clientNodes.Keys <= clients.Keys
      && forall s | s in sessionClients :: sessionClients[s] <= clients.Keys
    }

    // Everything the hub holds about one session.
    function View(key: string): Session
      reads this
    {
      Session(if key in pendingSessions then Some(pendingSessions[key]) else None,
              ReplayOf(replayStates, key),
              BoundTo(sessionClients, key))
    }

    static function BoundTo(table: map<string, set<string>>, key: string): set<string> {
      if key in table then table[key] else {}
    }

    constructor ()
      ensures Valid()
      ensures forall key :: View(key) == EMPTY_SESSION
    {
      clients, clientNodes, sessionClients, pendingSessions, replayStates := map[], map[], map[], map[], map[];
    }

    // getReplayKeyListLocked
    method ReplayKeyList(sessionKey: string, clientID: string) returns (keys: set<string>)
      ensures forall k :: k in keys <==> k in replayStates && Scanned(k, sessionKey, clientID)
    {
      keys := {};
      var rest := replayStates.Keys;
      while rest != {}
        invariant rest <= replayStates.Keys
        invariant forall k :: k in keys <==> k in replayStates.Keys - rest && Scanned(k, sessionKey, clientID)
        decreases |rest|
      {
        var k :| k in rest;
        if (sessionKey == "" || HasSuffix(k, "::" + sessionKey)) && (clientID == "" || HasPrefix(k, clientID + "::")) {
          keys := keys + {k};
        }
        rest := rest - {k};
      }
    }

    // clearReplayStatesForSessionLocked
    method ClearReplayStates(sessionKey: string)
      requires Valid() && ColonFree(sessionKey) && sessionKey != ""
      modifies this`replayStates
      ensures Valid()
      ensures View(sessionKey) == old(View(sessionKey)).(replay := map[])
      ensures forall other | ColonFree(other) && other != sessionKey :: View(other) == old(View(other))
    {
      var keys := ReplayKeyList(sessionKey, "");
      ClearedTable(replayStates, map k | k in replayStates && !Scanned(k, sessionKey, "") :: replayStates[k], sessionKey);
      replayStates := replayStates - keys;
      assert replayStates == map k | k in old(replayStates) && !Scanned(k, sessionKey, "") :: old(replayStates)[k];
    }

    // ---- clients ----

    // RegisterClientWithNode; a client that names no node keeps the one it had.
    method RegisterClient(clientID: string, conn: nat, nodeID: string) returns (previous: Option<nat>)
      requires Valid()
      modifies this`clients, this`clientNodes
      ensures Valid()
      ensures Blank(clientID) ==> clients == old(clients) && clientNodes == old(clientNodes) && previous == None
      ensures !Blank(clientID) ==> clients == old(clients)[clientID := conn]
      ensures !Blank(clientID) ==>
        clientNodes == if Blank(nodeID) then old(clientNodes) else old(clientNodes)[clientID := TrimSpace(nodeID)]
      ensures previous.Some? <==> !Blank(clientID) && clientID in old(clients) && old(clients)[clientID] != conn
      ensures previous.Some? ==> previous.value == old(clients)[clientID]
      ensures forall key :: View(key) == old(View(key))
    {
      previous := None;
      if Blank(clientID) { return; }
      if clientID in clients && clients[clientID] != conn {
        previous := Some(clients[clientID]);
      }
      clients := clients[clientID := conn];
      var node := TrimSpace(nodeID);
      if node != "" {
        clientNodes := clientNodes[clientID := node];
      }
    }

    method BindSessionClient(sessionKey: string, clientID: string)
      requires Valid()
      modifies this`sessionClients
      ensures Valid()
      ensures View(sessionKey) == if Blank(sessionKey) || Blank(clientID) || clientID !in clients
                                  then old(View(sessionKey)) else Bind(old(View(sessionKey)), clientID)
      ensures forall other | other != sessionKey :: View(other) == old(View(other))
    {
      if Blank(sessionKey) || Blank(clientID) { return; }
      if clientID !in clients { return; }
      var clientSet := if sessionKey in sessionClients then sessionClients[sessionKey] else {};
      sessionClients := sessionClients[sessionKey := clientSet + {clientID}];
    }

    // A connection that has already been superseded takes nothing with it.
    method UnregisterClient(clientID: string, conn: nat)
      requires Valid() && ColonFree(clientID)
      modifies this
      ensures Valid()
      ensures var gone := !Blank(clientID) && clientID in old(clients) && old(clients)[clientID] == conn;
        && clients == (if gone then old(clients) - {clientID} else old(clients))
        && clientNodes == (if gone then old(clientNodes) - {clientID} else old(clientNodes))
        && forall key | ColonFree(key) ::
             View(key) == if gone then Unregister(old(View(key)), clientID) else old(View(key))
    {
      if Blank(clientID) { return; }
      if clientID !in clients || clients[clientID] != conn { return; }
      hide ReplayOf, WellKeyed, TrimSpace, ColonFree;
      clients := clients - {clientID};
      clientNodes := clientNodes - {clientID};
      RemoveFromSessions(clientID);
      RemoveReplayStates(clientID);
      forall s | s in sessionClients ensures sessionClients[s] <= clients.Keys {
        assert BoundTo(sessionClients, s) == BoundTo(old(sessionClients), s) - {clientID};
      }
      forall key | ColonFree(key) ensures View(key) == Unregister(old(View(key)), clientID) {
        assert ReplayOf(replayStates, key) == ReplayOf(old(replayStates), key) - {clientID};
      }
    }

    method RemoveReplayStates(clientID: string)
      requires WellKeyed(replayStates) && ColonFree(clientID) && clientID != ""
      modifies this`replayStates
      ensures WellKeyed(replayStates)
      ensures forall s | ColonFree(s) :: ReplayOf(replayStates, s) == ReplayOf(old(replayStates), s) - {clientID}
    {
      var keys := ReplayKeyList("", clientID);
      replayStates := replayStates - keys;
      hide ReplayOf, WellKeyed;
      ClientGone(old(replayStates), replayStates, clientID);
    }

    method RemoveFromSessions(clientID: string)
      modifies this`sessionClients
      ensures forall s :: BoundTo(sessionClients, s) == BoundTo(old(sessionClients), s) - {clientID}
    {
      var rest := sessionClients.Keys;
      while rest != {}
        invariant rest <= sessionClients.Keys
        invariant forall s | s in rest :: s in old(sessionClients) && sessionClients[s] == old(sessionClients)[s]
        invariant forall s | s !in rest :: BoundTo(sessionClients, s) == BoundTo(old(sessionClients), s) - {clientID}
        decreases |rest|
      {
        var s :| s in rest;
        var left := sessionClients[s] - {clientID};
        if left == {} {
          sessionClients := sessionClients - {s};
        } else {
          sessionClients := sessionClients[s := left];
        }
        rest := rest - {s};
      }
    }

    // isReplayClientLocked
    method IsReplayClient(clientID: string, sessionKey: string) returns (replaying: bool)
      requires Valid() && ColonFree(clientID) && ColonFree(sessionKey) && clientID != "" && sessionKey != ""
      ensures replaying == Replaying(View(sessionKey), clientID)
    {
      var keys := ReplayKeyList(sessionKey, clientID);
      ReplayOfMembers(replayStates, sessionKey);
      OnlyOneKey(keys, clientID, sessionKey);
      if keys == {} { return false; }
      var k :| k in keys;
      return !replayStates[k].live;
    }

    ghost predicate Matches(keys: set<string>, clientID: string, sessionKey: string)
      reads this
    {
      forall k :: k in keys <==> k in replayStates && Scanned(k, sessionKey, clientID)
    }

    lemma OnlyOneKey(keys: set<string>, clientID: string, sessionKey: string)
      requires Valid() && ColonFree(clientID) && ColonFree(sessionKey) && clientID != "" && sessionKey != ""
      requires Matches(keys, clientID, sessionKey)
      ensures keys == if ClientKey(clientID, sessionKey) in replayStates then {ClientKey(clientID, sessionKey)} else {}
    {
      ScanIsExact(clientID, sessionKey, sessionKey, clientID);
      forall k | k in keys ensures k == ClientKey(clientID, sessionKey) {
        var c, s :| ColonFree(c) && ColonFree(s) && k == ClientKey(c, s);
        ScanIsExact(c, s, sessionKey, clientID);
      }
    }

    method GetSessionClientIDs(sessionKey: string, liveOnly: bool) returns (ids: set<string>)
      requires Valid() && ColonFree(sessionKey)
      requires forall c | c in clients :: ColonFree(c)
      ensures ids == if Blank(sessionKey) then {}
                     else if liveOnly then LiveTargets(View(sessionKey)) else View(sessionKey).bound
    {
      hide Replaying, ReplayOf, WellKeyed, ColonFree;
      ids := {};
      if Blank(sessionKey) { return; }
      if sessionKey !in sessionClients { return; }
      var rest := sessionClients[sessionKey];
      while rest != {}
        invariant rest <= sessionClients[sessionKey]
        invariant ids == set c | c in sessionClients[sessionKey] - rest && !(liveOnly && Replaying(View(sessionKey), c))
        decreases |rest|
      {
        var c :| c in rest;
        rest := rest - {c};
        var skip := false;
        if liveOnly {
          skip := IsReplayClient(c, sessionKey);
        }
        if !skip {
          ids := ids + {c};
        }
      }
    }

    // ---- queue ----

    // ensurePendingSessionLocked
    method EnsurePending(key: string) returns (state: Pending)
      modifies this`pendingSessions
      ensures pendingSessions == old(pendingSessions)[key := state]
      ensures state == Ensured(old(View(key)).pending)
    {
      if key !in pendingSessions {
        pendingSessions := pendingSessions[key := NEW_PENDING];
      }
      state := pendingSessions[key];
    }

    method EnqueueSessionMessage(key: string, item: Message, clock: string) returns (queue: seq<Message>)
      requires Valid() && ColonFree(key) && key != ""
      modifies this`pendingSessions, this`replayStates
      ensures Valid()
      ensures View(key) == Enqueue(old(View(key)), Stamped(item, clock))
      ensures queue == Queue(View(key))
      ensures forall other | ColonFree(other) && other != key :: View(other) == old(View(other))
    {
      var stamped := if item.id == "" then item.(id := clock) else item;
      var state := EnsurePending(key);
      pendingSessions := pendingSessions[key := state.(queue := state.queue + [stamped])];
      ClearReplayStates(key);
      queue := pendingSessions[key].queue;
    }

    method ReserveOrQueueSessionMessage(key: string, item: Message, clock: string)
      returns (queue: seq<Message>, queued: bool)
      requires Valid() && ColonFree(key) && key != ""
      modifies this`pendingSessions, this`replayStates
      ensures Valid()
      ensures (View(key), queued) == ReserveOrQueue(old(View(key)), item, clock)
      ensures queue == if queued then Queue(View(key)) else []
      ensures forall other | ColonFree(other) && other != key :: View(other) == old(View(other))
    {
      var state := EnsurePending(key);
      if state.active {
        queue := EnqueueSessionMessage(key, item, clock);
        return queue, true;
      }
      pendingSessions := pendingSessions[key := state.(active := true)];
      return [], false;
    }

    method RemoveQueuedSessionMessage(key: string, queueID: string) returns (queue: seq<Message>)
      requires Valid() && ColonFree(key) && key != ""
      modifies this`pendingSessions, this`replayStates
      ensures Valid()
      ensures View(key) == RemoveQueued(old(View(key)), queueID)
      ensures queue == if queueID == "" then [] else Queue(View(key))
      ensures forall other | ColonFree(other) && other != key :: View(other) == old(View(other))
    {
      if key !in pendingSessions || queueID == "" { return []; }
      var state := pendingSessions[key];
      ghost var keep := (m: Message) => m.id != queueID;
      var next := [];
      for i := 0 to |state.queue|
        invariant next == Filter(state.queue[..i], keep)
      {
        assert state.queue[..i + 1][..i] == state.queue[..i];
        if state.queue[i].id != queueID {
          next := next + [state.queue[i]];
        }
      }
      assert state.queue[..|state.queue|] == state.queue;
      pendingSessions := pendingSessions[key := state.(queue := next)];
      ClearReplayStates(key);
      queue := next;
    }

    // The search loop of update, pop and promote.
    static method FindQueued(queue: seq<Message>, id: string) returns (index: int)
      ensures index == Position(queue, id)
    {
      for i := 0 to |queue|
        invariant forall j | 0 <= j < i :: queue[j].id != id
      {
        if queue[i].id == id { return i; }
      }
      return -1;
    }

    method UpdateQueuedSessionMessage(key: string, queueID: string, content: string) returns (queue: seq<Message>)
      requires Valid() && ColonFree(key) && key != ""
      modifies this`pendingSessions, this`replayStates
      ensures Valid()
      ensures View(key) == UpdateQueued(old(View(key)), queueID, content)
      ensures queue == if queueID == "" then [] else Queue(View(key))
      ensures forall other | ColonFree(other) && other != key :: View(other) == old(View(other))
    {
      if key !in pendingSessions || queueID == "" { return []; }
      var state := pendingSessions[key];
      var i := FindQueued(state.queue, queueID);
      if i >= 0 {
        state := state.(queue := state.queue[i := state.queue[i].(content := content)]);
      }
      pendingSessions := pendingSessions[key := state];
      ClearReplayStates(key);
      queue := state.queue;
    }

    method FreezeQueuedSessionMessages(key: string) returns (queue: seq<Message>, frozen: bool)
      requires Valid()
      modifies this`pendingSessions
      ensures Valid()
      ensures (View(key), frozen) == if Blank(key) then (old(View(key)), false) else Freeze(old(View(key)))
      ensures queue == if frozen then Queue(View(key)) else []
      ensures forall other | other != key :: View(other) == old(View(other))
    {
      if Blank(key) { return [], false; }
      if key !in pendingSessions || pendingSessions[key].queue == [] { return [], false; }
      pendingSessions := pendingSessions[key := pendingSessions[key].(frozen := true)];
      return pendingSessions[key].queue, true;
    }

    method UnfreezeQueuedSessionMessages(key: string) returns (queue: seq<Message>, changed: bool)
      requires Valid()
      modifies this`pendingSessions
      ensures Valid()
      ensures (View(key), changed) == if Blank(key) then (old(View(key)), false) else Unfreeze(old(View(key)))
      ensures queue == if Blank(key) then [] else Queue(View(key))
      ensures forall other | other != key :: View(other) == old(View(other))
    {
      if Blank(key) { return [], false; }
      if key !in pendingSessions { return [], false; }
      if !pendingSessions[key].frozen { return pendingSessions[key].queue, false; }
      pendingSessions := pendingSessions[key := pendingSessions[key].(frozen := false)];
      return pendingSessions[key].queue, true;
    }

    method PopQueuedSessionMessage(key: string, queueID: string)
      returns (item: Option<Message>, queue: seq<Message>)
      requires Valid() && ColonFree(key) && key != ""
      modifies this`pendingSessions, this`replayStates
      ensures Valid()
      ensures (View(key), item) == Pop(old(View(key)), queueID)
      ensures queue == Queue(View(key))
      ensures forall other | ColonFree(other) && other != key :: View(other) == old(View(other))
    {
      if key !in pendingSessions || pendingSessions[key].queue == [] { return None, []; }
      var state := pendingSessions[key];
      if state.active { return None, state.queue; }
      var index: int := 0;
      var trimmed := TrimSpace(queueID);
      if trimmed != "" {
        index := FindQueued(state.queue, trimmed);
        if index < 0 { return None, state.queue; }
      } else if state.frozen {
        return None, state.queue;
      }
      var next := state.queue[..index] + state.queue[index + 1..];
      pendingSessions := pendingSessions[key := state.(active := true, queue := next)];
      ClearReplayStates(key);
      return Some(state.queue[index]), next;
    }

    method PromoteQueuedSessionMessage(key: string, queueID: string) returns (queue: seq<Message>, promoted: bool)
      requires Valid() && ColonFree(key) && key != ""
      modifies this`pendingSessions, this`replayStates
      ensures Valid()
      ensures (View(key), promoted) == Promote(old(View(key)), queueID)
      ensures queue == if Blank(queueID) then [] else Queue(View(key))
      ensures forall other | ColonFree(other) && other != key :: View(other) == old(View(other))
    {
      if key !in pendingSessions || pendingSessions[key].queue == [] || TrimSpace(queueID) == "" { return [], false; }
      var state := pendingSessions[key];
      var index := FindQueued(state.queue, queueID);
      if index < 0 { return state.queue, false; }
      var next := state.queue;
      if index > 0 {
        // shift queue[0..index] one place to the right, then put the item in front
        next := next[..1] + state.queue[..index] + next[index + 1..];
        next := next[0 := state.queue[index]];
      }
      assert next == ToFront(state.queue, index);
      pendingSessions := pendingSessions[key := state.(frozen := false, queue := next)];
      ClearReplayStates(key);
      return next, true;
    }

    // ---- turns ----

    // seqID is the identity derived from the exchange number, for callers that pass none.
    method SetPendingUserAt(key: string, content: string, userExchangeSeq: int, userTurnID: string, seqID: string)
      returns (turnID: string)
      requires Valid() && ColonFree(key) && key != ""
      modifies this`pendingSessions, this`replayStates
      ensures Valid()
      ensures turnID == if Blank(userTurnID) then seqID else TrimSpace(userTurnID)
      ensures View(key) == StartTurn(old(View(key)), turnID, userExchangeSeq, content)
      ensures forall other | ColonFree(other) && other != key :: View(other) == old(View(other))
    {
      var state := EnsurePending(key);
      turnID := TrimSpace(userTurnID);
      if turnID == "" {
        turnID := seqID;
      }
      var base := 0;
      if userExchangeSeq > 0 {
        base := userExchangeSeq;
      }
      pendingSessions := pendingSessions[key := state.(turnID := turnID, active := true, awaiting := false,
        user := Some(content), buffer := [], base := base, nextSeq := 0)];
      ClearReplayStates(key);
    }

    method IsSessionReplying(key: string) returns (active: bool)
      ensures active == (!Blank(key) && Active(View(key)))
    {
      if Blank(key) { return false; }
      return key in pendingSessions && pendingSessions[key].active;
    }

    method MarkSessionAwaiting(key: string, awaiting: bool)
      requires Valid() && ColonFree(key)
      modifies this`pendingSessions, this`replayStates
      ensures Valid()
      ensures View(key) == if Blank(key) then old(View(key)) else MarkAwaiting(old(View(key)), awaiting)
      ensures forall other | ColonFree(other) && other != key :: View(other) == old(View(other))
    {
      if Blank(key) { return; }
      if awaiting {
        var state := EnsurePending(key);
        pendingSessions := pendingSessions[key := state.(awaiting := true)];
        return;
      }
      if key !in pendingSessions { return; }
      pendingSessions := pendingSessions[key := pendingSessions[key].(awaiting := false)];
      if !pendingSessions[key].active && pendingSessions[key].queue == [] {
        pendingSessions := pendingSessions - {key};
        ClearReplayStates(key);
      }
    }

    method PendingTurnIDMatches(key: string, turnID: string) returns (ok: bool)
      ensures ok == (Blank(key) || TurnIDMatches(View(key), turnID))
    {
      if Blank(key) { return true; }
      if key !in pendingSessions { return true; }
      if turnID == "" || pendingSessions[key].turnID == "" { return true; }
      return pendingSessions[key].turnID == turnID;
    }

    // The locked part; the bounded wait before it is a delay of any length.
    method ClearSessionPending(key: string, turnID: string)
      requires Valid() && ColonFree(key)
      modifies this`pendingSessions, this`replayStates
      ensures Valid()
      ensures View(key) == if Blank(key) then old(View(key)) else ClearPending(old(View(key)), turnID)
      ensures forall other | ColonFree(other) && other != key :: View(other) == old(View(other))
    {
      if Blank(key) { return; }
      if key !in pendingSessions { return; }
      var state := pendingSessions[key];
      if turnID != "" && state.turnID != "" && state.turnID != turnID { return; }
      if state.awaiting {
        pendingSessions := pendingSessions[key := state.(active := false, user := None, buffer := [])];
        ClearReplayStates(key);
        return;
      }
      if |state.queue| > 0 {
        pendingSessions := pendingSessions[key := state.(active := false, user := None, buffer := [])];
      } else {
        pendingSessions := pendingSessions - {key};
      }
      ClearReplayStates(key);
    }

    // ---- events and replay ----

    // slot is the buffered event that coalesceUserShellStreamEvent merges this one into, if any.
    method AppendReplyEvent(key: string, event: StreamEvent, slot: Option<nat>) returns (stored: StreamEvent)
      requires Valid() && key != ""
      modifies this`pendingSessions
      ensures Valid()
      ensures (View(key), stored) == AppendEvent(old(View(key)), event, slot)
      ensures forall other | other != key :: View(other) == old(View(other))
    {
      hide ReplayOf, WellKeyed, TrimSpace, FormatCursor;
      var state := EnsurePending(key);
      stored := event;
      if TrimSpace(event.turnID) == "" {
        stored := stored.(turnID := state.turnID);
      }
      state := state.(nextSeq := if state.nextSeq == MAX_UINT then 0 else state.nextSeq + 1);
      stored := stored.(cursor := FormatCursor(state.base, state.nextSeq));
      if slot.Some? && slot.value < |state.buffer| && state.buffer[slot.value].kind == stored.kind {
        var merged := stored.(parts := state.buffer[slot.value].parts + stored.parts);
        state := state.(buffer := state.buffer[slot.value := merged]);
      } else {
        state := state.(buffer := state.buffer + [stored]);
      }
      pendingSessions := pendingSessions[key := state];
    }

    method PutReplayState(clientID: string, key: string, r: ReplayState)
      requires Valid() && ColonFree(key) && ColonFree(clientID)
      modifies this`replayStates
      ensures Valid()
      ensures View(key) == old(View(key)).(replay := old(View(key)).replay[clientID := r])
      ensures forall other | ColonFree(other) && other != key :: View(other) == old(View(other))
    {
      hide ReplayOf, ClientKey, WellKeyed;
      UpdatedTable(replayStates, clientID, key, r);
      replayStates := replayStates[ClientKey(clientID, key) := r];
    }

    // The first locked section of ReplayPending.
    method BeginReplayPending(clientID: string, key: string)
      requires Valid() && ColonFree(key) && ColonFree(clientID)
      modifies this`replayStates
      ensures Valid()
      ensures View(key) == BeginReplay(old(View(key)), clientID)
      ensures forall other | ColonFree(other) && other != key :: View(other) == old(View(other))
    {
      PutReplayState(clientID, key, ReplayState(false, 0));
    }

    // nextReplayStepLocked
    method CollectReplayStep(clientID: string, key: string) returns (events: seq<StreamEvent>, live: bool)
      requires Valid() && ColonFree(key) && ColonFree(clientID)
      modifies this`replayStates
      ensures Valid()
      ensures DrainResult(View(key), events, live) == DrainStep(old(View(key)), clientID)
      ensures forall other | ColonFree(other) && other != key :: View(other) == old(View(other))
    {
      hide SelectAbove, MaxBy, SortBySeq, ReplayOf;
      ReplayOfMembers(replayStates, key);
      if ClientKey(clientID, key) !in replayStates { return [], true; }
      var replay := replayStates[ClientKey(clientID, key)];
      assert replay == View(key).replay[clientID];
      if key !in pendingSessions {
        PutReplayState(clientID, key, replay.(live := true));
        return [], true;
      }
      var maxEventSeq: nat;
      events, maxEventSeq := SelectFrom(pendingSessions[key], replay.mark);
      if |events| == 0 {
        PutReplayState(clientID, key, replay.(live := true));
        return [], true;
      }
      PutReplayState(clientID, key, replay.(mark := maxEventSeq));
      return SortBySeq(events), false;
    }

    // The loop over the buffer in nextReplayStepLocked.
    static method SelectFrom(state: Pending, mark: nat) returns (events: seq<StreamEvent>, maxEventSeq: nat)
      ensures events == SelectAbove(state.buffer, state.base, mark)
      ensures maxEventSeq == MaxBy(events, EventSeq, mark)
    {
      hide ParseCursor;
      ghost var above := (e: StreamEvent) => AboveMark(e, state.base, mark);
      events, maxEventSeq := [], mark;
      for i := 0 to |state.buffer|
        invariant events == Filter(state.buffer[..i], above)
        invariant maxEventSeq == MaxBy(events, EventSeq, mark)
      {
        assert state.buffer[..i + 1][..i] == state.buffer[..i];
        var event := state.buffer[i];
        var cursor := ParseCursor(event.cursor);
        if cursor.None? || cursor.value.base != state.base || cursor.value.seqNo <= mark { continue; }
        assert (events + [event])[..|events|] == events;
        events := events + [event];
        if cursor.value.seqNo > maxEventSeq {
          maxEventSeq := cursor.value.seqNo;
        }
      }
      assert state.buffer[..|state.buffer|] == state.buffer;
    }

    // HasReplayClients, which the wait before a clear polls.
    method HasReplayClients(key: string) returns (some: bool)
      requires Valid() && ColonFree(key) && key != ""
      ensures some <==> exists c :: Replaying(View(key), c)
    {
      ReplayOfMembers(replayStates, key);
      var rest := ReplayKeyList(key, "");
      ghost var keys := rest;
      while rest != {}
        invariant rest <= keys
        invariant forall k | k in keys - rest :: replayStates[k].live
        decreases |rest|
      {
        var k :| k in rest;
        if !replayStates[k].live {
          ghost var c, s :| ColonFree(c) && ColonFree(s) && k == ClientKey(c, s);
          ScanIsExact(c, s, key, "");
          assert Replaying(View(key), c);
          return true;
        }
        rest := rest - {k};
      }
      forall c | c in View(key).replay ensures View(key).replay[c].live {
        var k := ClientKey(c, key);
        OwnerOfKey(replayStates, c, key);
        ScanIsExact(c, key, key, "");
        assert k in keys;
      }
      return false;
    }
  }
}
