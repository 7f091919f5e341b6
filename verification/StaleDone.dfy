/** Late and repeated done requests against a turn whose id is installed.
    A done request is EndSessionTurn run step by step: identity check, snapshot, done frame, clear. */
module StaleDone {
  import opened SessionState

  datatype Stage = Asked | Passed | Snapshotted | Framed | Over

  datatype Request = Request(turnID: string, stage: Stage)

  // frames lists the requests whose session.done frame went out.
  datatype World = World(session: Session, requests: seq<Request>, frames: seq<nat>)

  // Hub(op) is any other locked section; the rest is the next step of request r.
  datatype Action = Hub(op: Op) | Ask(turnID: string) | Proceed(request: nat)

  predicate Enabled(w: World, a: Action) {
    a.Proceed? ==> a.request < |w.requests| && w.requests[a.request].stage != Over
  }

  function Next(w: World, a: Action): World
    requires Enabled(w, a)
  {
    match a
    case Hub(op) => w.(session := Apply(w.session, op))
    case Ask(turnID) => w.(requests := w.requests + [Request(turnID, Asked)])
    case Proceed(r) =>
      var q := w.requests[r];
      match q.stage
      case Asked =>
        w.(requests := w.requests[r := q.(stage := if TurnIDMatches(w.session, q.turnID) then Passed else Over)])
      case Passed => w.(requests := w.requests[r := q.(stage := Snapshotted)])
      case Snapshotted => w.(requests := w.requests[r := q.(stage := Framed)], frames := w.frames + [r])
      case Framed => w.(requests := w.requests[r := q.(stage := Over)], session := ClearPending(w.session, q.turnID))
      case Over => w
  }

  // Turn b holds the session and has installed its id.
  predicate Installed(s: Session, b: string) {
    b != "" && Active(s) && s.pending.value.turnID == b
  }

  // Not b's own end, not an anonymous end, and not the start of a different turn.
  predicate LeavesTurn(op: Op, b: string) {
    && (op.OpClear? ==> op.turnID != "" && op.turnID != b)
    && (op.OpStartTurn? ==> op.turnID == b)
  }

  predicate Stale(turnID: string, b: string) {
    turnID != "" && turnID != b
  }

  predicate AllStale(requests: seq<Request>, b: string) {
    forall r | 0 <= r < |requests| :: Stale(requests[r].turnID, b)
  }

  ghost predicate IsRun(w: World, actions: seq<Action>, end: World, b: string)
    decreases |actions|
  {
    if actions == [] then end == w
    else
      && Enabled(w, actions[0])
      && (actions[0].Hub? ==> LeavesTurn(actions[0].op, b))
      && (actions[0].Ask? ==> Stale(actions[0].turnID, b))
      && IsRun(Next(w, actions[0]), actions[1..], end, b)
  }

  // The same run with every step of every done request left out.
  function HubOps(actions: seq<Action>): seq<Op> {
    if actions == [] then []
    else (if actions[0].Hub? then [actions[0].op] else []) + HubOps(actions[1..])
  }

  lemma HubOpKeepsInstalled(s: Session, op: Op, b: string)
    requires Installed(s, b) && LeavesTurn(op, b)
    ensures Installed(Apply(s, op), b)
    ensures !op.OpStartTurn? ==> Apply(s, op).pending.value.user == s.pending.value.user
  {
  }

  lemma StepErases(w: World, a: Action, b: string)
    requires Installed(w.session, b) && AllStale(w.requests, b) && Enabled(w, a)
    requires a.Hub? ==> LeavesTurn(a.op, b)
    requires a.Ask? ==> Stale(a.turnID, b)
    ensures Installed(Next(w, a).session, b) && AllStale(Next(w, a).requests, b)
    ensures Next(w, a).session == if a.Hub? then Apply(w.session, a.op) else w.session
  {
    if a.Hub? {
      HubOpKeepsInstalled(w.session, a.op, b);
    }
  }

  lemma ApplyFirst(s: Session, op: Op, rest: seq<Op>)
    ensures ApplyAll(s, [op] + rest) == ApplyAll(Apply(s, op), rest)
  {
    assert ([op] + rest)[1..] == rest;
  }

  /** Once turn b's id is installed, stale done requests are invisible to the hub: however many there are
      and however their steps interleave with everything else, the session ends exactly as it would have
      without them, still held by b. */
  lemma {:induction false} StaleRequestsErase(w: World, actions: seq<Action>, end: World, b: string)
    requires Installed(w.session, b) && AllStale(w.requests, b) && IsRun(w, actions, end, b)
    ensures end.session == ApplyAll(w.session, HubOps(actions))
    ensures Installed(end.session, b)
    decreases |actions|
  {
    if actions != [] {
      StepErases(w, actions[0], b);
      StaleRequestsErase(Next(w, actions[0]), actions[1..], end, b);
      if actions[0].Hub? {
        ApplyFirst(w.session, actions[0].op, HubOps(actions[1..]));
      } else {
        assert HubOps(actions) == HubOps(actions[1..]);
      }
    }
  }

  // The frame a late client would see comes only from a request that had passed its check earlier.
  ghost predicate NewFramesPassedEarlier(w: World, end: World) {
    forall k | |w.frames| <= k < |end.frames| ::
      end.frames[k] < |w.requests| && w.requests[end.frames[k]].stage in {Passed, Snapshotted}
  }

  predicate RejectedSince(w: World, before: World) {
    && |before.requests| <= |w.requests|
    && (forall r | 0 <= r < |w.requests| && w.requests[r].stage in {Passed, Snapshotted} ::
          r < |before.requests| && before.requests[r].stage in {Passed, Snapshotted})
  }

  lemma {:induction false} FramesSince(w: World, actions: seq<Action>, end: World, b: string, before: World)
    requires Installed(w.session, b) && AllStale(w.requests, b) && IsRun(w, actions, end, b)
    requires RejectedSince(w, before) && |before.frames| <= |w.frames| && NewFramesPassedEarlier(before, w)
    ensures NewFramesPassedEarlier(before, end)
    decreases |actions|
  {
    if actions != [] {
      StepErases(w, actions[0], b);
      FramesSince(Next(w, actions[0]), actions[1..], end, b, before);
    }
  }

  /** A stale request that is checked after b's id was installed never sends a done frame. */
  lemma LateRequestsSendNoFrame(w: World, actions: seq<Action>, end: World, b: string)
    requires Installed(w.session, b) && AllStale(w.requests, b) && IsRun(w, actions, end, b)
    ensures NewFramesPassedEarlier(w, end)
  {
    FramesSince(w, actions, end, b, w);
  }

  /** For a running turn the guard is exact: a done request leaves it running if and only if both sides
      have an identity and the two differ. So a request for an older turn still ends a turn that was
      granted but has not installed its id. */
  lemma DoneIsHarmlessIff(s: Session, turnID: string)
    requires Active(s)
    ensures Active(ClearPending(s, turnID)) <==>
            turnID != "" && s.pending.value.turnID != "" && s.pending.value.turnID != turnID
    ensures Active(ClearPending(s, turnID)) ==> ClearPending(s, turnID) == s
  {
  }

  /** The window in question: with a message queued, the end of turn a keeps the entry and its id, so
      after the next message is granted a repeated done for a ends the new turn. */
  lemma RepeatedDoneBeforeInstall(a: string, s: Session, granted: Session)
    requires Installed(s, a) && Queue(s) != [] && !Frozen(s)
    requires granted == Pop(ClearPending(s, a), "").0
    ensures Active(granted) && TurnIDMatches(granted, a)
    ensures !Active(ClearPending(granted, a))
  {
    var idle := ClearPending(s, a);
    assert Queue(idle) == Queue(s) && !Frozen(idle) && !Active(idle);
    PopHead(idle);
    DoneIsHarmlessIff(granted, a);
  }
}
