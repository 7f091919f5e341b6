/** Where every accepted message is, over whole runs. */
module QueueConservation {
  import opened SessionState
  import opened SeqTools
  import opened TurnProtocol

  // How often a serial occurs in a list of messages.
  function Tally(ms: seq<Message>, serial: nat): nat {
    if ms == [] then 0 else Tally(ms[..|ms| - 1], serial) + if ms[|ms| - 1].serial == serial then 1 else 0
  }

  function Granted(turns: seq<Turn>): seq<Message> {
    seq(|turns|, i requires 0 <= i < |turns| => turns[i].message)
  }

  lemma {:induction false} TallyConcat(a: seq<Message>, b: seq<Message>, serial: nat)
    ensures Tally(a + b, serial) == Tally(a, serial) + Tally(b, serial)
  {
    if b == [] {
      assert a + b == a;
    } else {
      assert (a + b)[..|a + b| - 1] == a + b[..|b| - 1];
      TallyConcat(a, b[..|b| - 1], serial);
    }
  }

  lemma TallyOne(m: Message, serial: nat)
    ensures Tally([m], serial) == if m.serial == serial then 1 else 0
  {
    assert [m][..0] == [];
  }

  lemma TallySplit(ms: seq<Message>, i: nat, serial: nat)
    requires i < |ms|
    ensures Tally(ms, serial) == Tally(ms[..i] + ms[i + 1..], serial) + Tally([ms[i]], serial)
  {
    assert ms == ms[..i] + ([ms[i]] + ms[i + 1..]);
    TallyConcat(ms[..i], [ms[i]] + ms[i + 1..], serial);
    TallyConcat([ms[i]], ms[i + 1..], serial);
    TallyConcat(ms[..i], ms[i + 1..], serial);
  }

  // Same serials in the same places: all that a content update may change is the rest.
  lemma {:induction false} TallyBySerials(a: seq<Message>, b: seq<Message>, serial: nat)
    requires |a| == |b| && forall i | 0 <= i < |a| :: a[i].serial == b[i].serial
    ensures Tally(a, serial) == Tally(b, serial)
  {
    if a != [] {
      TallyBySerials(a[..|a| - 1], b[..|b| - 1], serial);
    }
  }

  lemma {:induction false} FilterSplits(ms: seq<Message>, keep: Message -> bool, drop: Message -> bool, serial: nat)
    requires forall m :: keep(m) != drop(m)
    ensures Tally(ms, serial) == Tally(Filter(ms, keep), serial) + Tally(Filter(ms, drop), serial)
  {
    if ms != [] {
      var front, last := ms[..|ms| - 1], ms[|ms| - 1];
      FilterSplits(front, keep, drop, serial);
      TallyConcat(Filter(front, keep), if keep(last) then [last] else [], serial);
      TallyConcat(Filter(front, drop), if drop(last) then [last] else [], serial);
      TallyOne(last, serial);
    }
  }

  // How many times a serial is found among the granted, queued and removed messages together.
  function Places(sys: System, serial: nat): nat {
    Tally(Granted(sys.turns), serial) + Tally(Queue(sys.session), serial) + Tally(sys.removed, serial)
  }

  lemma GrantAdds(turns: seq<Turn>, t: Turn, serial: nat)
    ensures Tally(Granted(turns + [t]), serial) == Tally(Granted(turns), serial) + Tally([t.message], serial)
  {
    assert Granted(turns + [t]) == Granted(turns) + [t.message];
    TallyConcat(Granted(turns), [t.message], serial);
  }

  lemma StartNextKeepsPlaces(sys: System, serial: nat)
    ensures Places(StartNext(sys), serial) == Places(sys, serial)
  {
    var q := Queue(sys.session);
    PopHead(sys.session);
    if QueueWaits(sys.session) {
      GrantAdds(sys.turns, Turn(q[0], "", Running), serial);
      assert q == [q[0]] + q[1..];
      TallyConcat([q[0]], q[1..], serial);
    }
  }

  // Promotion is a rotation: the chosen message leads, the others keep their order.
  lemma PromoteRotates(s: Session, queueID: string)
    ensures var (s', promoted) := Promote(s, queueID);
      var q, q' := Queue(s), Queue(s');
      if promoted then
        exists i :: 0 <= i < |q| && q[i].id == queueID && q'[0] == q[i] && q'[1..] == q[..i] + q[i + 1..]
      else q' == q
  {
    var q := Queue(s);
    var i := Position(q, queueID);
    if i >= 0 {
      assert ToFront(q, i)[1..] == q[..i] + q[i + 1..];
      assert ToFront(q, i)[0] == q[i];
    }
  }

  lemma ToFrontKeepsTally(q: seq<Message>, i: nat, serial: nat)
    requires i < |q|
    ensures Tally(ToFront(q, i), serial) == Tally(q, serial)
  {
    var rest := q[..i] + q[i + 1..];
    assert ToFront(q, i) == [q[i]] + rest;
    TallyConcat([q[i]], rest, serial);
    TallySplit(q, i, serial);
  }

  lemma PromoteKeepsTally(s: Session, queueID: string, serial: nat)
    ensures Tally(Queue(Promote(s, queueID).0), serial) == Tally(Queue(s), serial)
  {
    var i := Position(Queue(s), queueID);
    if i >= 0 {
      ToFrontKeepsTally(Queue(s), i, serial);
    }
  }

  /** No clear, awaiting step, event or entry deletion touches the queued messages; a content update
      keeps each message in its place. */
  lemma BackgroundKeepsQueue(s: Session, op: Op)
    requires IsBackground(op) || op.OpClear? || op.OpStartTurn? || op.OpUnfreeze?
    ensures |Queue(Apply(s, op))| == |Queue(s)|
    ensures forall i | 0 <= i < |Queue(s)| :: Queue(Apply(s, op))[i].serial == Queue(s)[i].serial
    ensures !op.OpUpdate? ==> Queue(Apply(s, op)) == Queue(s)
  {
  }

  lemma TurnStepKeepsGranted(sys: System, sys': System, serial: nat)
    requires |sys'.turns| == |sys.turns|
    requires forall i | 0 <= i < |sys.turns| :: sys'.turns[i].message == sys.turns[i].message
    ensures Tally(Granted(sys'.turns), serial) == Tally(Granted(sys.turns), serial)
  {
    assert Granted(sys'.turns) == Granted(sys.turns);
  }

  lemma SubmitPlacesOne(sys: System, step: Step, serial: nat)
    requires step.Submit?
    ensures Places(Next(sys, step), serial) == Places(sys, serial) + if serial == sys.accepted then 1 else 0
  {
    var m := Message(step.id, step.content, sys.accepted);
    if Active(sys.session) {
      TallyConcat(Queue(sys.session), [Stamped(m, step.clock)], serial);
      TallyOne(Stamped(m, step.clock), serial);
    } else {
      GrantAdds(sys.turns, Turn(m, "", Reserved), serial);
      TallyOne(m, serial);
    }
  }

  lemma RemovalKeepsPlaces(sys: System, step: Step, serial: nat)
    requires step.RemoveMessage?
    ensures Places(Next(sys, step), serial) == Places(sys, serial)
  {
    if step.id != "" {
      FilterSplits(Queue(sys.session), (m: Message) => m.id != step.id, (m: Message) => m.id == step.id, serial);
      TallyConcat(sys.removed, Called(Queue(sys.session), step.id), serial);
    }
  }

  lemma WakingKeepsPlaces(sys: System, step: Step, serial: nat)
    requires Enabled(sys, step) && (step.WakeUp? || step.HandlerPop?)
    ensures Places(Next(sys, step), serial) == Places(sys, serial)
  {
    if step.WakeUp? {
      var mid := SetPhase(sys, step.turn, Finished);
      TurnStepKeepsGranted(sys, mid, serial);
      StartNextKeepsPlaces(mid, serial);
    } else {
      StartNextKeepsPlaces(sys.(handlers := sys.handlers[step.handler := Settled]), serial);
    }
  }

  lemma OtherStepsKeepPlaces(sys: System, step: Step, serial: nat)
    requires Enabled(sys, step)
    requires !step.Submit? && !step.RemoveMessage? && !step.WakeUp? && !step.HandlerPop? && !step.SendNow?
    ensures Places(Next(sys, step), serial) == Places(sys, serial)
  {
    var sys' := Next(sys, step);
    TurnStepKeepsGranted(sys, sys', serial);
    var op := match step
      case Launch(_) => OpUnfreeze
      case Install(i, turnID, userSeq) => OpStartTurn(turnID, userSeq, sys.turns[i].message.content)
      case ClearEnd(i) => OpClear(sys.turns[i].id)
      case Background(op) => op
      case _ => OpBind("");
    BackgroundKeepsQueue(sys.session, op);
    TallyBySerials(Queue(sys'.session), Queue(sys.session), serial);
  }

  lemma StepConserves(sys: System, step: Step, serial: nat)
    requires Enabled(sys, step)
    ensures Places(Next(sys, step), serial) ==
            Places(sys, serial) + if step.Submit? && serial == sys.accepted then 1 else 0
  {
    if step.Submit? {
      SubmitPlacesOne(sys, step, serial);
    } else if step.RemoveMessage? {
      RemovalKeepsPlaces(sys, step, serial);
    } else if step.WakeUp? || step.HandlerPop? {
      WakingKeepsPlaces(sys, step, serial);
    } else if step.SendNow? {
      PromoteKeepsTally(sys.session, step.queueID, serial);
    } else {
      OtherStepsKeepPlaces(sys, step, serial);
    }
  }

  /** Every accepted message is at all times in exactly one place, once: granted to a turn, queued, or
      removed by the user. */
  lemma {:induction false} EveryMessageInOnePlace(run: seq<System>, steps: seq<Step>, k: nat, serial: nat)
    requires IsRun(run, steps) && k < |run|
    ensures Places(run[k], serial) == if serial < run[k].accepted then 1 else 0
  {
    if k > 0 {
      EveryMessageInOnePlace(run, steps, k - 1, serial);
      StepConserves(run[k - 1], steps[k - 1], serial);
    }
  }

  // ---- arrival order ----

  predicate Ascending(ms: seq<Message>, bound: nat) {
    && (forall i | 0 <= i < |ms| :: ms[i].serial < bound)
    && (forall i, j | 0 <= i < j < |ms| :: ms[i].serial < ms[j].serial)
  }

  lemma {:induction false} FilterKeepsOrder(front: seq<Message>, queue: seq<Message>, keep: Message -> bool, bound: nat)
    requires Ascending(front + queue, bound)
    ensures Ascending(front + Filter(queue, keep), bound)
  {
    if queue != [] {
      var rest, last := queue[..|queue| - 1], queue[|queue| - 1];
      assert front + queue == (front + rest) + [last];
      assert forall i | 0 <= i < |front + rest| :: (front + rest)[i] == (front + queue)[i];
      FilterKeepsOrder(front, rest, keep, bound);
      var kept := front + Filter(rest, keep);
      if keep(last) {
        FilterMembers(rest, keep);
        assert front + Filter(queue, keep) == kept + [last];
        assert (front + queue)[|front + rest|] == last;
        forall i | 0 <= i < |kept| ensures kept[i].serial < last.serial {
          var m := kept[i];
          assert i >= |front| ==> m in Filter(rest, keep);
          assert m in front + rest;
          var j :| 0 <= j < |front + rest| && (front + rest)[j] == m;
          assert (front + queue)[j] == m;
        }
      } else {
        assert front + Filter(queue, keep) == kept;
      }
    }
  }

  lemma StartNextKeepsOrder(sys: System)
    ensures StartNext(sys).popped + Queue(StartNext(sys).session) == sys.popped + Queue(sys.session)
    ensures StartNext(sys).accepted == sys.accepted
  {
    PopHead(sys.session);
    var q := Queue(sys.session);
    if QueueWaits(sys.session) {
      assert sys.popped + q == (sys.popped + [q[0]]) + q[1..];
    }
  }

  lemma StepKeepsOrder(sys: System, step: Step)
    requires Enabled(sys, step) && !step.SendNow?
    requires Ascending(sys.popped + Queue(sys.session), sys.accepted)
    ensures Ascending(Next(sys, step).popped + Queue(Next(sys, step).session), Next(sys, step).accepted)
  {
    var sys' := Next(sys, step);
    var line, line' := sys.popped + Queue(sys.session), sys'.popped + Queue(sys'.session);
    match step
    case Submit(id, content, clock) =>
      var m := Message(id, content, sys.accepted);
      assert line' == line || line' == line + [Stamped(m, clock)];
    case RemoveMessage(id) =>
      FilterKeepsOrder(sys.popped, Queue(sys.session), (m: Message) => m.id != id, sys.accepted);
    case WakeUp(i) =>
      StartNextKeepsOrder(SetPhase(sys, i, Finished));
    case HandlerPop(j) =>
      StartNextKeepsOrder(sys.(handlers := sys.handlers[j := Settled]));
    case Launch(_) => BackgroundKeepsQueue(sys.session, OpUnfreeze);
    case Install(i, turnID, userSeq) =>
      BackgroundKeepsQueue(sys.session, OpStartTurn(turnID, userSeq, sys.turns[i].message.content));
    case ClearEnd(i) => BackgroundKeepsQueue(sys.session, OpClear(sys.turns[i].id));
    case Background(op) =>
      BackgroundKeepsQueue(sys.session, op);
      assert forall i | 0 <= i < |line| :: line'[i].serial == line[i].serial;
    case CheckEnd(_) =>
    case SnapshotEnd(_) =>
    case AnnounceEnd(_) =>
    case HandlerCheck(_) =>
  }

  /** In a run without send-now the queue is served in order of arrival: what was popped, followed by
      what still waits, is always in strictly ascending order of submission. */
  lemma {:induction false} PopsFollowArrival(run: seq<System>, steps: seq<Step>, k: nat)
    requires IsRun(run, steps) && k < |run|
    requires forall i | 0 <= i < k :: !steps[i].SendNow?
    ensures Ascending(run[k].popped + Queue(run[k].session), run[k].accepted)
  {
    if k > 0 {
      PopsFollowArrival(run, steps, k - 1);
      StepKeepsOrder(run[k - 1], steps[k - 1]);
    }
  }
}
