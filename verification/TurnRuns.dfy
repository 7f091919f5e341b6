/** The turn guarantees over whole runs of the protocol, from an empty session. */
module TurnRuns {
  import opened Text
  import opened EventCursor
  import opened SessionState
  import opened TurnProtocol

  lemma {:induction false} RunKeepsInv(run: seq<System>, steps: seq<Step>, k: nat)
    requires IsRun(run, steps) && k < |run|
    ensures Inv(run[k])
  {
    if k > 0 {
      RunKeepsInv(run, steps, k - 1);
      StepKeepsInv(run[k - 1], steps[k - 1]);
    }
  }

  /** However submissions, turns and handlers interleave, at most one turn is between its grant and its
      clear, and the session reads as replying exactly while one is; a turn that ends before its id was
      installed is no exception. */
  lemma AtMostOneTurn(run: seq<System>, steps: seq<Step>, k: nat)
    requires IsRun(run, steps) && k < |run|
    ensures forall i, j | 0 <= i < |run[k].turns| && 0 <= j < |run[k].turns| &&
              Holding(run[k].turns[i]) && Holding(run[k].turns[j]) :: i == j
    ensures Active(run[k].session) <==> exists i :: 0 <= i < |run[k].turns| && Holding(run[k].turns[i])
  {
    RunKeepsInv(run, steps, k);
  }

  /** A turn's own end always passes the identity check, and its clear always leaves the session idle. */
  lemma OwnEndAlwaysClears(run: seq<System>, steps: seq<Step>, k: nat)
    requires IsRun(run, steps) && k < |steps|
    ensures steps[k].CheckEnd? ==> TurnIn(run[k + 1], steps[k].turn, Checked)
    ensures steps[k].ClearEnd? ==> Active(run[k].session) && !Active(run[k + 1].session)
  {
    RunKeepsInv(run, steps, k);
    if steps[k].CheckEnd? || steps[k].ClearEnd? {
      assert Holding(run[k].turns[steps[k].turn]);
    }
  }

  /** While messages wait unfrozen and no turn runs, some ended turn or send-now handler still has its
      check or pop ahead of it. */
  lemma NoLostWakeUp(run: seq<System>, steps: seq<Step>, k: nat)
    requires IsRun(run, steps) && k < |run|
    requires Queue(run[k].session) != [] && !Frozen(run[k].session)
    ensures
      || Active(run[k].session)
      || (exists i :: TurnIn(run[k], i, MustWake))
      || (exists j :: HandlerIn(run[k], j, MustCheck) || HandlerIn(run[k], j, MustPop))
  {
    RunKeepsInv(run, steps, k);
    if !Active(run[k].session) && !(exists i :: TurnIn(run[k], i, MustWake)) {
      var j :| 0 <= j < |run[k].handlers| && run[k].handlers[j] != Settled;
      assert HandlerIn(run[k], j, MustCheck) || HandlerIn(run[k], j, MustPop);
    }
  }

  /** When every turn has finished and every handler is done, nothing is left in an unfrozen queue. */
  lemma QuietMeansDrained(run: seq<System>, steps: seq<Step>, k: nat)
    requires IsRun(run, steps) && k < |run|
    requires forall i | 0 <= i < |run[k].turns| :: run[k].turns[i].phase == Finished
    requires forall j | 0 <= j < |run[k].handlers| :: run[k].handlers[j] == Settled
    ensures !Active(run[k].session)
    ensures Queue(run[k].session) == [] || Frozen(run[k].session)
  {
    RunKeepsInv(run, steps, k);
  }

  /** A waiting queue can always move: within two steps that are enabled its head is granted. */
  lemma WaitingQueueMoves(run: seq<System>, steps: seq<Step>, k: nat) returns (moves: seq<Step>, end: System)
    requires IsRun(run, steps) && k < |run| && QueueWaits(run[k].session)
    ensures 1 <= |moves| <= 2 && Enabled(run[k], moves[0])
    ensures |moves| == 1 ==> end == Next(run[k], moves[0])
    ensures |moves| == 2 ==> Enabled(Next(run[k], moves[0]), moves[1]) && end == Next(Next(run[k], moves[0]), moves[1])
    ensures end.popped == run[k].popped + [Queue(run[k].session)[0]] && Active(end.session)
  {
    var sys := run[k];
    NoLostWakeUp(run, steps, k);
    if i :| TurnIn(sys, i, MustWake) {
      moves, end := [WakeUp(i)], Next(sys, WakeUp(i));
    } else if j :| HandlerIn(sys, j, MustPop) {
      moves, end := [HandlerPop(j)], Next(sys, HandlerPop(j));
    } else {
      var j :| HandlerIn(sys, j, MustCheck);
      var mid := Next(sys, HandlerCheck(j));
      assert HandlerIn(mid, j, MustPop);
      moves, end := [HandlerCheck(j), HandlerPop(j)], Next(mid, HandlerPop(j));
    }
  }

  /** Send-now gets its message sent. If no turn runs, a promotion is refused only for a blank or unknown id; otherwise
      its handler's check and pop are enabled next, and they grant the first message called so, whether the queue was
      frozen or not. */
  lemma SendNowIsGranted(run: seq<System>, steps: seq<Step>, k: nat, i: nat) returns (mid: System, end: System)
    requires IsRun(run, steps) && k < |steps| && steps[k].SendNow? && !Active(run[k].session)
    requires !Blank(steps[k].queueID) && FirstCalled(Queue(run[k].session), steps[k].queueID, i)
    ensures var j := |run[k].handlers|;
      && Enabled(run[k + 1], HandlerCheck(j)) && mid == Next(run[k + 1], HandlerCheck(j))
      && Enabled(mid, HandlerPop(j)) && end == Next(mid, HandlerPop(j))
    ensures var m := Queue(run[k].session)[i];
      && end.popped == run[k].popped + [m] && end.turns == run[k].turns + [Turn(m, "", Running)]
      && Active(end.session) && !Frozen(end.session)
  {
    var j := |run[k].handlers|;
    PromoteGrants(run[k].session, steps[k].queueID, i);
    hide Promote, Pop;
    assert HandlerIn(run[k + 1], j, MustCheck);
    mid := Next(run[k + 1], HandlerCheck(j));
    assert HandlerIn(mid, j, MustPop);
    end := Next(mid, HandlerPop(j));
  }

  /** A frozen queue stands still: as long as it holds messages and no turn is launched and no message sent now,
      nothing is granted from it. */
  lemma {:induction false} FrozenQueueWaits(run: seq<System>, steps: seq<Step>, k: nat, l: nat)
    requires IsRun(run, steps) && k <= l < |run| && Frozen(run[k].session)
    requires forall i | k <= i < l :: Queue(run[i].session) != [] && !steps[i].Launch? && !steps[i].SendNow?
    ensures run[l].popped == run[k].popped
    ensures l > k ==> Frozen(run[l - 1].session)
    ensures Queue(run[l].session) != [] ==> Frozen(run[l].session)
    decreases l
  {
    if l > k {
      FrozenQueueWaits(run, steps, k, l - 1);
      StepKeepsFrozen(run[l - 1], steps[l - 1]);
    }
  }

  lemma StepKeepsFrozen(sys: System, step: Step)
    requires Enabled(sys, step) && Frozen(sys.session) && Queue(sys.session) != [] && !step.Launch? && !step.SendNow?
    ensures Next(sys, step).popped == sys.popped && Frozen(Next(sys, step).session)
  {
    PopHead(sys.session);
    hide TrimSpace, Pop, FormatCursor, SelectAbove, SortBySeq;
  }

  /** A turn submitted directly unfreezes the queue when it is launched, and shows its own message once its id is
      installed. */
  lemma TurnsShowTheirMessage(run: seq<System>, steps: seq<Step>, k: nat)
    requires IsRun(run, steps) && k < |steps|
    ensures steps[k].Launch? ==> !Frozen(run[k + 1].session) && Queue(run[k + 1].session) == Queue(run[k].session)
    ensures steps[k].Install? ==>
      && run[k + 1].session.pending.Some?
      && run[k + 1].session.pending.value.user == Some(run[k].turns[steps[k].turn].message.content)
      && run[k + 1].session.pending.value.turnID == steps[k].turnID
  {
  }
}
