/** The life of chat turns on one session: submissions, turn goroutines and send-now handlers
    interleave freely between the hub's locked sections. */
module TurnProtocol {
  import opened SessionState
  import opened SeqTools

  // A turn holds the session from its grant until its clear; afterwards it still owes the wake-up pop.
  datatype Phase = Reserved | Running | Checked | Snapshotted | Announced | MustWake | Finished

  datatype Turn = Turn(message: Message, id: string, phase: Phase)

  // A send-now handler after its promotion: it looks whether a turn runs, and if not it pops.
  datatype Handler = MustCheck | MustPop | Settled

  datatype System = System(
    session: Session,
    turns: seq<Turn>,
    handlers: seq<Handler>,
    accepted: nat,              // submissions so far; also the serial of the next one
    removed: seq<Message>,      // messages the user took out of the queue
    popped: seq<Message>)       // messages granted from the queue, in order

  const INITIAL := System(EMPTY_SESSION, [], [], 0, [], [])

  datatype Step =
    | Submit(id: string, content: string, clock: string)
    | Launch(turn: nat)
    | Install(turn: nat, turnID: string, userSeq: int)
    | CheckEnd(turn: nat)
    | SnapshotEnd(turn: nat)
    | AnnounceEnd(turn: nat)
    | ClearEnd(turn: nat)
    | WakeUp(turn: nat)
    | SendNow(queueID: string)
    | HandlerCheck(handler: nat)
    | HandlerPop(handler: nat)
    | RemoveMessage(id: string)
    | Background(op: Op)

  predicate Holding(t: Turn) {
    t.phase in {Reserved, Running, Checked, Snapshotted, Announced}
  }

  // The hub steps that are not a step of the turn discipline itself.
  predicate IsBackground(op: Op) {
    op.OpUpdate? || op.OpFreeze? || op.OpAwaiting? || op.OpAppend? || op.OpBeginReplay? || op.OpDrain? ||
    op.OpBind? || op.OpUnregister?
  }

  predicate TurnIn(sys: System, i: nat, phase: Phase) {
    i < |sys.turns| && sys.turns[i].phase == phase
  }

  predicate HandlerIn(sys: System, j: nat, h: Handler) {
    j < |sys.handlers| && sys.handlers[j] == h
  }

  predicate Enabled(sys: System, step: Step) {
    match step
    case Submit(_, _, _) => true
    case Launch(i) => TurnIn(sys, i, Reserved)
    case Install(i, turnID, _) => TurnIn(sys, i, Running) && turnID != ""
    case CheckEnd(i) => TurnIn(sys, i, Running)
    case SnapshotEnd(i) => TurnIn(sys, i, Checked)
    case AnnounceEnd(i) => TurnIn(sys, i, Snapshotted)
    case ClearEnd(i) => TurnIn(sys, i, Announced)
    case WakeUp(i) => TurnIn(sys, i, MustWake)
    case SendNow(_) => true
    case HandlerCheck(j) => HandlerIn(sys, j, MustCheck)
    case HandlerPop(j) => HandlerIn(sys, j, MustPop)
    case RemoveMessage(_) => true
    case Background(op) => IsBackground(op)
  }

  function SetPhase(sys: System, i: nat, phase: Phase): System
    requires i < |sys.turns|
  {
    sys.(turns := sys.turns[i := sys.turns[i].(phase := phase)])
  }

  // startNextQueuedSessionMessage: a granted message starts running at once.
  function StartNext(sys: System): System {
    var (session, granted) := Pop(sys.session, "");
    match granted
    case None => sys.(session := session)
    case Some(m) => sys.(session := session, turns := sys.turns + [Turn(m, "", Running)], popped := sys.popped + [m])
  }

  function Next(sys: System, step: Step): System
    requires Enabled(sys, step)
  {
    match step
    case Submit(id, content, clock) =>
      var m := Message(id, content, sys.accepted);
      var (session, queued) := ReserveOrQueue(sys.session, m, clock);
      var sys' := sys.(session := session, accepted := sys.accepted + 1);
      if queued then sys' else sys'.(turns := sys.turns + [Turn(m, "", Reserved)])
    case Launch(i) => SetPhase(sys.(session := Unfreeze(sys.session).0), i, Running)
    case Install(i, turnID, userSeq) =>
      sys.(session := StartTurn(sys.session, turnID, userSeq, sys.turns[i].message.content),
           turns := sys.turns[i := sys.turns[i].(id := turnID)])
    case CheckEnd(i) => SetPhase(sys, i, if TurnIDMatches(sys.session, sys.turns[i].id) then Checked else MustWake)
    case SnapshotEnd(i) => SetPhase(sys, i, Snapshotted)
    case AnnounceEnd(i) => SetPhase(sys, i, Announced)
    case ClearEnd(i) => SetPhase(sys.(session := ClearPending(sys.session, sys.turns[i].id)), i, MustWake)
    case WakeUp(i) => StartNext(SetPhase(sys, i, Finished))
    case SendNow(queueID) =>
      var (session, promoted) := Promote(sys.session, queueID);
      if promoted then sys.(session := session, handlers := sys.handlers + [MustCheck]) else sys.(session := session)
    case HandlerCheck(j) =>
      sys.(handlers := sys.handlers[j := if Active(sys.session) then Settled else MustPop])
    case HandlerPop(j) => StartNext(sys.(handlers := sys.handlers[j := Settled]))
    case RemoveMessage(id) =>
      sys.(session := RemoveQueued(sys.session, id),
           removed := if id == "" then sys.removed else sys.removed + Called(Queue(sys.session), id))
    case Background(op) => sys.(session := Apply(sys.session, op))
  }

  // The messages a removal takes out.
  function Called(queue: seq<Message>, id: string): seq<Message> {
    Filter(queue, (m: Message) => m.id == id)
  }

  ghost predicate IsRun(run: seq<System>, steps: seq<Step>) {
    && |run| == |steps| + 1
    && run[0] == INITIAL
    && forall k | 0 <= k < |steps| :: Enabled(run[k], steps[k]) && run[k + 1] == Next(run[k], steps[k])
  }

  // ---- the invariant ----

  ghost predicate SomeHolder(turns: seq<Turn>) {
    exists i :: 0 <= i < |turns| && Holding(turns[i])
  }

  ghost predicate AtMostOneHolder(turns: seq<Turn>) {
    forall i, j | 0 <= i < |turns| && 0 <= j < |turns| && Holding(turns[i]) && Holding(turns[j]) :: i == j
  }

  ghost predicate SomeWaker(sys: System) {
    || (exists i :: TurnIn(sys, i, MustWake))
    || (exists j :: 0 <= j < |sys.handlers| && sys.handlers[j] != Settled)
  }

  predicate QueueWaits(s: Session) {
    Queue(s) != [] && !Frozen(s) && !Active(s)
  }

  ghost predicate Inv(sys: System) {
    && AtMostOneHolder(sys.turns)
    && (Active(sys.session) <==> SomeHolder(sys.turns))
    && (forall i | 0 <= i < |sys.turns| && Holding(sys.turns[i]) && sys.turns[i].id != "" ::
          Ensured(sys.session.pending).turnID == sys.turns[i].id)
    && (QueueWaits(sys.session) ==> SomeWaker(sys))
  }

  // What a background step leaves alone.
  lemma BackgroundKeepsTurn(s: Session, op: Op)
    requires IsBackground(op) || op.OpRemove? || op.OpUnfreeze?
    ensures Active(Apply(s, op)) == Active(s)
    ensures Active(s) ==> Ensured(Apply(s, op).pending).turnID == Ensured(s.pending).turnID
    ensures QueueWaits(Apply(s, op)) && !op.OpUnfreeze? ==> QueueWaits(s)
  {
  }

  lemma OneTurnMoves(sys: System, sys': System, i: nat)
    requires i < |sys.turns| && |sys'.turns| == |sys.turns|
    requires forall k | 0 <= k < |sys.turns| && k != i :: sys'.turns[k] == sys.turns[k]
    requires AtMostOneHolder(sys.turns) && Holding(sys.turns[i])
    ensures AtMostOneHolder(sys'.turns)
    ensures SomeHolder(sys'.turns) <==> Holding(sys'.turns[i])
  {
  }

  lemma StartNextKeepsInv(sys: System)
    requires AtMostOneHolder(sys.turns)
    requires Active(sys.session) <==> SomeHolder(sys.turns)
    requires forall i | 0 <= i < |sys.turns| && Holding(sys.turns[i]) && sys.turns[i].id != "" ::
          Ensured(sys.session.pending).turnID == sys.turns[i].id
    ensures Inv(StartNext(sys))
    ensures !QueueWaits(StartNext(sys).session)
    ensures QueueWaits(sys.session) ==> StartNext(sys).turns == sys.turns + [Turn(Queue(sys.session)[0], "", Running)]
  {
    var sys' := StartNext(sys);
    if QueueWaits(sys.session) {
      assert sys'.turns[|sys.turns|].phase == Running;
    }
  }

  lemma SubmitKeepsInv(sys: System, step: Step)
    requires Inv(sys) && step.Submit?
    ensures Inv(Next(sys, step))
  {
    var sys' := Next(sys, step);
    if Active(sys.session) {
      WakersStay(sys, sys');
    } else {
      assert sys'.turns[|sys.turns|].phase == Reserved;
    }
  }

  lemma RunningTurnKeepsInv(sys: System, step: Step)
    requires Inv(sys) && Enabled(sys, step) && (step.Launch? || step.Install?)
    ensures Inv(Next(sys, step))
  {
    OneTurnMoves(sys, Next(sys, step), step.turn);
    BackgroundKeepsTurn(sys.session, OpUnfreeze);
  }

  lemma EndingTurnKeepsInv(sys: System, step: Step)
    requires Inv(sys) && Enabled(sys, step) && (step.CheckEnd? || step.SnapshotEnd? || step.AnnounceEnd?)
    ensures Inv(Next(sys, step))
  {
    OneTurnMoves(sys, Next(sys, step), step.turn);
  }

  lemma ClearKeepsInv(sys: System, step: Step)
    requires Inv(sys) && Enabled(sys, step) && step.ClearEnd?
    ensures Inv(Next(sys, step))
  {
    var sys' := Next(sys, step);
    OneTurnMoves(sys, sys', step.turn);
    assert TurnIn(sys', step.turn, MustWake);
  }

  lemma WakeUpKeepsInv(sys: System, step: Step)
    requires Inv(sys) && Enabled(sys, step) && step.WakeUp?
    ensures Inv(Next(sys, step))
  {
    var mid := SetPhase(sys, step.turn, Finished);
    assert forall k | 0 <= k < |sys.turns| :: Holding(mid.turns[k]) == Holding(sys.turns[k]);
    StartNextKeepsInv(mid);
  }

  lemma HandlerKeepsInv(sys: System, step: Step)
    requires Inv(sys) && Enabled(sys, step) && (step.SendNow? || step.HandlerCheck? || step.HandlerPop?)
    ensures Inv(Next(sys, step))
  {
    var sys' := Next(sys, step);
    match step
    case SendNow(queueID) =>
      WakersStay(sys, sys');
      if sys'.handlers != sys.handlers {
        assert sys'.handlers[|sys.handlers|] == MustCheck;
      }
    case HandlerCheck(j) =>
      if !Active(sys.session) {
        assert sys'.handlers[j] == MustPop;
      }
    case HandlerPop(j) =>
      StartNextKeepsInv(sys.(handlers := sys.handlers[j := Settled]));
  }

  lemma BackgroundKeepsInv(sys: System, step: Step)
    requires Inv(sys) && Enabled(sys, step) && (step.RemoveMessage? || step.Background?)
    ensures Inv(Next(sys, step))
  {
    BackgroundKeepsTurn(sys.session, if step.Background? then step.op else OpRemove(step.id));
    WakersStay(sys, Next(sys, step));
  }

  lemma StepKeepsInv(sys: System, step: Step)
    requires Inv(sys) && Enabled(sys, step)
    ensures Inv(Next(sys, step))
  {
    match step
    case Submit(_, _, _) => SubmitKeepsInv(sys, step);
    case Launch(_) => RunningTurnKeepsInv(sys, step);
    case Install(_, _, _) => RunningTurnKeepsInv(sys, step);
    case CheckEnd(_) => EndingTurnKeepsInv(sys, step);
    case SnapshotEnd(_) => EndingTurnKeepsInv(sys, step);
    case AnnounceEnd(_) => EndingTurnKeepsInv(sys, step);
    case ClearEnd(_) => ClearKeepsInv(sys, step);
    case WakeUp(_) => WakeUpKeepsInv(sys, step);
    case SendNow(_) => HandlerKeepsInv(sys, step);
    case HandlerCheck(_) => HandlerKeepsInv(sys, step);
    case HandlerPop(_) => HandlerKeepsInv(sys, step);
    case RemoveMessage(_) => BackgroundKeepsInv(sys, step);
    case Background(_) => BackgroundKeepsInv(sys, step);
  }

  lemma WakersStay(sys: System, sys': System)
    requires sys.turns == sys'.turns && sys.handlers <= sys'.handlers
    ensures SomeWaker(sys) ==> SomeWaker(sys')
  {
    if i :| TurnIn(sys, i, MustWake) {
      assert TurnIn(sys', i, MustWake);
    }
  }
}
