/** From replay to live: emitted events, live broadcasts and drain loops interleaving freely.
    An emit is two locked sections (append, then selection of the live targets) and then one transmission
    per target; a drain loop alternates a locked round with a transmission. */
module ReplayHandoff {
  import opened Text
  import opened EventCursor
  import opened SessionState
  import opened ReplayMarks

  // The live broadcast of one emitted event.
  datatype CastPhase = Appended | Sending(targets: set<string>)
  datatype Cast = Cast(part: nat, phase: CastPhase)

  datatype DrainPhase = Polling | Batched(parts: set<nat>, last: bool) | Done

  // One ReplayPending call. due: what the client must get, the buffer at the start of the replay and
  // everything emitted since. got: what was transmitted to the client since then. intact: the client has
  // stayed bound, its replay was not started anew, and its replay state was not cleared while replaying.
  datatype Drain = Drain(client: string, phase: DrainPhase, due: set<nat>, got: set<nat>, intact: bool)

  // emitted counts the events so far; turnStart is the first one since the buffer was last emptied.
  datatype System = System(session: Session, casts: seq<Cast>, drains: seq<Drain>, emitted: nat, turnStart: nat)

  const INITIAL := System(EMPTY_SESSION, [], [], 0, 0)

  datatype Step =
    | Emit(kind: string, turnID: string, slot: Option<nat>)
    | Select(cast: nat)
    | Deliver(cast: nat, client: string)
    | StartReplay(client: string)
    | Poll(drain: nat)
    | SendBatch(drain: nat)
    | Other(op: Op)

  function Parts(events: seq<StreamEvent>): set<nat> {
    set e, p | e in events && p in e.parts :: p
  }

  function Buffer(s: Session): seq<StreamEvent> {
    Ensured(s.pending).buffer
  }

  predicate Enabled(sys: System, step: Step) {
    match step
    case Emit(_, _, _) => Counter(sys.session) < MAX_UINT
    case Select(k) => k < |sys.casts| && sys.casts[k].phase == Appended
    case Deliver(k, c) => k < |sys.casts| && sys.casts[k].phase.Sending? && c in sys.casts[k].phase.targets
    case StartReplay(_) => true
    case Poll(d) => d < |sys.drains| && sys.drains[d].phase == Polling
    case SendBatch(d) => d < |sys.drains| && sys.drains[d].phase.Batched?
    case Other(op) => !op.OpAppend? && !op.OpBeginReplay? && !op.OpDrain? && InRange(sys.session, op)
  }

  function Transmit(drains: seq<Drain>, client: string, parts: set<nat>): seq<Drain> {
    seq(|drains|, j requires 0 <= j < |drains| =>
      if drains[j].client == client then drains[j].(got := drains[j].got + parts) else drains[j])
  }

  function Owe(drains: seq<Drain>, part: nat): seq<Drain> {
    seq(|drains|, j requires 0 <= j < |drains| => drains[j].(due := drains[j].due + {part}))
  }

  // A replay that starts anew takes over from the client's earlier ones.
  function Supersede(drains: seq<Drain>, client: string): seq<Drain> {
    seq(|drains|, j requires 0 <= j < |drains| => drains[j].(intact := drains[j].intact && drains[j].client != client))
  }

  predicate Survives(before: Session, after: Session, client: string) {
    client in after.bound && (Replaying(before, client) ==> client in after.replay)
  }

  function Review(drains: seq<Drain>, before: Session, after: Session): seq<Drain> {
    seq(|drains|, j requires 0 <= j < |drains| =>
      drains[j].(intact := drains[j].intact && Survives(before, after, drains[j].client)))
  }

  function Next(sys: System, step: Step): System
    requires Enabled(sys, step)
  {
    match step
    case Emit(kind, turnID, slot) =>
      sys.(session := AppendEvent(sys.session, StreamEvent(kind, [sys.emitted], "", turnID), slot).0,
           casts := sys.casts + [Cast(sys.emitted, Appended)],
           drains := Owe(sys.drains, sys.emitted),
           emitted := sys.emitted + 1)
    case Select(k) =>
      sys.(casts := sys.casts[k := sys.casts[k].(phase := Sending(LiveTargets(sys.session)))])
    case Deliver(k, c) =>
      sys.(casts := sys.casts[k := sys.casts[k].(phase := Sending(sys.casts[k].phase.targets - {c}))],
           drains := Transmit(sys.drains, c, {sys.casts[k].part}))
    case StartReplay(c) =>
      sys.(session := BeginReplay(sys.session, c),
           drains := Supersede(sys.drains, c) +
                     [Drain(c, Polling, Parts(Buffer(sys.session)), {}, c in sys.session.bound)])
    case Poll(d) =>
      var r := DrainStep(sys.session, sys.drains[d].client);
      sys.(session := r.session, drains := sys.drains[d := sys.drains[d].(phase := Batched(Parts(r.events), r.live))])
    case SendBatch(d) =>
      var b := sys.drains[d];
      var sent := Transmit(sys.drains, b.client, b.phase.parts);
      sys.(drains := sent[d := sent[d].(phase := if b.phase.last then Done else Polling)])
    case Other(op) =>
      var session := Apply(sys.session, op);
      sys.(session := session, drains := Review(sys.drains, sys.session, session),
           turnStart := if Buffer(session) == [] then sys.emitted else sys.turnStart)
  }

  ghost predicate IsRun(run: seq<System>, steps: seq<Step>) {
    && |run| == |steps| + 1
    && run[0] == INITIAL
    && forall k | 0 <= k < |steps| :: Enabled(run[k], steps[k]) && run[k + 1] == Next(run[k], steps[k])
  }

  // ---- where an owed event can be ----

  predicate BatchHolds(b: Drain, client: string, part: nat) {
    b.client == client && b.phase.Batched? && part in b.phase.parts
  }

  predicate CastAims(k: Cast, client: string, part: nat) {
    k.part == part && k.phase.Sending? && client in k.phase.targets
  }

  ghost predicate InBatch(sys: System, client: string, part: nat) {
    exists d :: 0 <= d < |sys.drains| && BatchHolds(sys.drains[d], client, part)
  }

  ghost predicate Aimed(sys: System, client: string, part: nat) {
    exists k :: 0 <= k < |sys.casts| && CastAims(sys.casts[k], client, part)
  }

  ghost predicate Unselected(sys: System, part: nat) {
    exists k :: 0 <= k < |sys.casts| && sys.casts[k] == Cast(part, Appended)
  }

  ghost predicate StillBuffered(s: Session, client: string, part: nat)
    requires client in s.replay
  {
    exists e :: e in Buffer(s) && part in e.parts && EventSeq(e) > s.replay[client].mark
  }

  ghost predicate Underway(sys: System, client: string, part: nat) {
    || InBatch(sys, client, part)
    || Aimed(sys, client, part)
    || (if Replaying(sys.session, client) then StillBuffered(sys.session, client, part) else Unselected(sys, part))
  }

  ghost predicate DrainOk(sys: System, d: Drain) {
    d.intact ==>
      && d.client in sys.session.bound
      && (forall p | p in d.due :: p in d.got || Underway(sys, d.client, p))
      && (d.phase == Done || (d.phase.Batched? && d.phase.last) ==> !Replaying(sys.session, d.client))
  }

  ghost predicate Inv(sys: System) {
    && WF(sys.session)
    && sys.turnStart <= sys.emitted
    && (forall p: nat :: p in Parts(Buffer(sys.session)) <==> sys.turnStart <= p < sys.emitted)
    && forall j | 0 <= j < |sys.drains| :: DrainOk(sys, sys.drains[j])
  }

  // ---- one lemma a step ----

  // Some event of the buffer carries everything e carries, under a number no lower.
  ghost predicate CarriedOn(buffer: seq<StreamEvent>, e: StreamEvent) {
    exists e' :: e' in buffer && EventSeq(e') >= EventSeq(e) && forall p | p in e.parts :: p in e'.parts
  }

  lemma AppendBuffers(s: Session, event: StreamEvent, slot: Option<nat>)
    requires WF(s) && Counter(s) < MAX_UINT
    ensures var s' := AppendEvent(s, event, slot).0;
      && s'.replay == s.replay && s'.bound == s.bound
      && Parts(Buffer(s')) == Parts(Buffer(s)) + Parts([event])
      && (exists e :: e in Buffer(s') && EventSeq(e) == Counter(s) + 1 && forall p | p in event.parts :: p in e.parts)
      && (forall e | e in Buffer(s) :: CarriedOn(Buffer(s'), e))
  {
    hide ParseCursor, FormatCursor, TrimSpace, Parts;
    var p := Ensured(s.pending);
    var (s', stored) := AppendEvent(s, event, slot);
    FreshNumber(stored, p.base, p.nextSeq + 1);
    if slot.Some? && slot.value < |p.buffer| && p.buffer[slot.value].kind == stored.kind {
      var merged := s'.pending.value.buffer[slot.value];
      FreshNumber(merged, p.base, p.nextSeq + 1);
      ReplacedPartsGrow(p.buffer, slot.value, merged, event.parts);
      PartsOfOne(event);
      NumbersBelowCounter(p);
      forall e | e in Buffer(s) ensures CarriedOn(Buffer(s'), e) {
        var i :| 0 <= i < |p.buffer| && p.buffer[i] == e;
        assert Buffer(s')[i] in Buffer(s');
      }
    } else {
      PartsConcat(p.buffer, [stored]);
      PartsOfOne(stored);
      PartsOfOne(event);
      assert Buffer(s')[|p.buffer|] == stored;
      assert forall e | e in Buffer(s) :: e in Buffer(s');
    }
  }

  lemma NumbersBelowCounter(p: Pending)
    requires WellNumbered(p)
    ensures forall i | 0 <= i < |p.buffer| :: 1 <= EventSeq(p.buffer[i]) <= p.nextSeq
  {
    forall i | 0 <= i < |p.buffer| ensures 1 <= EventSeq(p.buffer[i]) <= p.nextSeq {
      assert Numbered(p.buffer[i], p.base, p.nextSeq);
    }
  }

  lemma PartsConcat(a: seq<StreamEvent>, b: seq<StreamEvent>)
    ensures Parts(a + b) == Parts(a) + Parts(b)
  {
  }

  lemma PartsOfOne(e: StreamEvent)
    ensures Parts([e]) == set p | p in e.parts
  {
  }

  lemma ReplacedPartsGrow(buffer: seq<StreamEvent>, i: nat, merged: StreamEvent, more: seq<nat>)
    requires i < |buffer| && merged.parts == buffer[i].parts + more
    ensures Parts(buffer[i := merged]) == Parts(buffer) + set p | p in more
  {
    var front, back := buffer[..i], buffer[i + 1..];
    assert buffer == front + [buffer[i]] + back && buffer[i := merged] == front + [merged] + back;
    PartsConcat(front + [buffer[i]], back);
    PartsConcat(front, [buffer[i]]);
    PartsConcat(front + [merged], back);
    PartsConcat(front, [merged]);
    PartsOfOne(merged);
    PartsOfOne(buffer[i]);
  }

  lemma EmitKeepsInv(sys: System, step: Step)
    requires Inv(sys) && Enabled(sys, step) && step.Emit?
    ensures Inv(Next(sys, step))
  {
    hide ParseCursor, FormatCursor, TrimSpace, EventSeq, Parts, AppendEvent, WellNumbered, DrainOk;
    var sys' := Next(sys, step);
    var event := StreamEvent(step.kind, [sys.emitted], "", step.turnID);
    AppendKeepsWF(sys.session, event, step.slot);
    EmitCovers(sys.session, event, step.slot, sys.turnStart, sys.emitted);
    forall j | 0 <= j < |sys'.drains| ensures DrainOk(sys', sys'.drains[j]) {
      if sys'.drains[j].intact {
        EmitKeepsDrain(sys, step, sys', j);
      } else {
        RetiredDrainOk(sys', sys'.drains[j]);
      }
    }
  }

  lemma RetiredDrainOk(sys: System, d: Drain)
    requires !d.intact
    ensures DrainOk(sys, d)
  {
  }

  // The buffer keeps carrying every event of the turn.
  lemma EmitCovers(s: Session, event: StreamEvent, slot: Option<nat>, first: nat, n: nat)
    requires WF(s) && Counter(s) < MAX_UINT && event.parts == [n] && first <= n
    requires forall p: nat :: p in Parts(Buffer(s)) <==> first <= p < n
    ensures forall p: nat :: p in Parts(Buffer(AppendEvent(s, event, slot).0)) <==> first <= p < n + 1
  {
    hide AppendEvent, WF, Parts, Buffer;
    AppendBuffers(s, event, slot);
    PartsOfOne(event);
    forall p: nat ensures p in Parts(Buffer(AppendEvent(s, event, slot).0)) <==> first <= p < n + 1 {
      assert p in event.parts <==> p == n;
    }
  }

  lemma EmitKeepsDrain(sys: System, step: Step, sys': System, j: nat)
    requires Inv(sys) && Enabled(sys, step) && step.Emit? && sys' == Next(sys, step)
    requires j < |sys.drains| && sys.drains[j].intact
    ensures DrainOk(sys', sys'.drains[j])
  {
    hide ParseCursor, FormatCursor, TrimSpace, AppendEvent;
    var d, event := sys.drains[j], StreamEvent(step.kind, [sys.emitted], "", step.turnID);
    AppendBuffers(sys.session, event, step.slot);
    assert DrainOk(sys, d);
    assert sys'.casts[|sys.casts|] == Cast(sys.emitted, Appended);
    forall p | p in sys'.drains[j].due ensures p in d.got || Underway(sys', d.client, p) {
      if p == sys.emitted {
        assert p in event.parts;
      } else {
        assert p in d.got || Underway(sys, d.client, p);
        if InBatch(sys, d.client, p) {
          var b :| 0 <= b < |sys.drains| && BatchHolds(sys.drains[b], d.client, p);
          assert sys'.drains[b].phase == sys.drains[b].phase;
        } else if Aimed(sys, d.client, p) {
          var k :| 0 <= k < |sys.casts| && CastAims(sys.casts[k], d.client, p);
          assert sys'.casts[k] == sys.casts[k];
        } else if p !in d.got && !Replaying(sys.session, d.client) {
          var k :| 0 <= k < |sys.casts| && sys.casts[k] == Cast(p, Appended);
          assert sys'.casts[k] == sys.casts[k];
        }
      }
    }
  }

  // Steps that leave the session and the drain loops alone.
  lemma CastStepKeepsInv(sys: System, step: Step)
    requires Inv(sys) && Enabled(sys, step) && (step.Select? || step.Deliver?)
    ensures Inv(Next(sys, step))
  {
    var sys' := Next(sys, step);
    forall j | 0 <= j < |sys'.drains| ensures DrainOk(sys', sys'.drains[j]) {
      if sys'.drains[j].intact {
        CastStepKeepsDrain(sys, step, sys', j);
      }
    }
  }

  lemma CastStepKeepsDrain(sys: System, step: Step, sys': System, j: nat)
    requires Inv(sys) && Enabled(sys, step) && (step.Select? || step.Deliver?) && sys' == Next(sys, step)
    requires j < |sys.drains| && sys.drains[j].intact
    ensures DrainOk(sys', sys'.drains[j])
  {
    var d, d' := sys.drains[j], sys'.drains[j];
    assert DrainOk(sys, d);
    forall p | p in d.due ensures p in d'.got || Underway(sys', d.client, p) {
      if InBatch(sys, d.client, p) {
        var b :| 0 <= b < |sys.drains| && BatchHolds(sys.drains[b], d.client, p);
        assert sys'.drains[b].phase == sys.drains[b].phase && sys'.drains[b].client == d.client;
      } else if Aimed(sys, d.client, p) {
        var k :| 0 <= k < |sys.casts| && CastAims(sys.casts[k], d.client, p);
        if step != Deliver(k, d.client) {
          assert sys'.casts[k].phase.Sending? && d.client in sys'.casts[k].phase.targets;
        }
      } else if p !in d.got && !Replaying(sys.session, d.client) {
        var k :| 0 <= k < |sys.casts| && sys.casts[k] == Cast(p, Appended);
        if step == Select(k) {
          assert d.client in sys'.casts[k].phase.targets;
        } else {
          assert sys'.casts[k] == sys.casts[k];
        }
      }
    }
  }

  lemma StartReplayKeepsInv(sys: System, step: Step)
    requires Inv(sys) && step.StartReplay?
    ensures Inv(Next(sys, step))
  {
    var sys' := Next(sys, step);
    var n := |sys.drains|;
    forall j | 0 <= j < |sys'.drains| ensures DrainOk(sys', sys'.drains[j]) {
      if j < n {
        if sys'.drains[j].intact {
          SupersedeKeepsDrain(sys, step, sys', j);
        }
      } else {
        NumbersBelowCounter(Ensured(sys.session.pending));
        forall p | p in Parts(Buffer(sys.session)) ensures StillBuffered(sys'.session, step.client, p) {
          var e :| e in Buffer(sys.session) && p in e.parts;
          assert EventSeq(e) > 0;
        }
      }
    }
  }

  lemma SupersedeKeepsDrain(sys: System, step: Step, sys': System, j: nat)
    requires Inv(sys) && step.StartReplay? && sys' == Next(sys, step)
    requires j < |sys.drains| && sys.drains[j].intact && sys.drains[j].client != step.client
    ensures DrainOk(sys', sys'.drains[j])
  {
    var d := sys.drains[j];
    assert DrainOk(sys, d);
    assert sys'.casts == sys.casts;
    forall p | p in d.due ensures p in d.got || Underway(sys', d.client, p) {
      if InBatch(sys, d.client, p) {
        var b :| 0 <= b < |sys.drains| && BatchHolds(sys.drains[b], d.client, p);
        assert sys'.drains[b] == sys.drains[b];
      }
    }
  }

  lemma PollKeepsInv(sys: System, step: Step)
    requires Inv(sys) && Enabled(sys, step) && step.Poll?
    ensures Inv(Next(sys, step))
  {
    var sys' := Next(sys, step);
    var c := sys.drains[step.drain].client;
    DrainKeepsWF(sys.session, c);
    assert sys'.session.pending == sys.session.pending;
    assert Buffer(sys'.session) == Buffer(sys.session);
    hide DrainStep, WF, EventSeq, DrainOk, Parts;
    forall j | 0 <= j < |sys'.drains| ensures DrainOk(sys', sys'.drains[j]) {
      if sys'.drains[j].intact {
        PollKeepsDrain(sys, step, sys', j);
      }
    }
  }

  lemma DrainEffect(s: Session, client: string)
    requires WF(s)
    ensures var r := DrainStep(s, client);
      && r.session.pending == s.pending && r.session.bound == s.bound
      && (forall c | c != client :: Replaying(r.session, c) == Replaying(s, c))
      && (forall c | c != client && c in s.replay :: c in r.session.replay && r.session.replay[c] == s.replay[c])
      && (Replaying(r.session, client) ==> Replaying(s, client) && !r.live)
      && (Replaying(s, client) ==>
            forall p | StillBuffered(s, client, p) :: p in Parts(r.events))
  {
    if client in s.replay {
      DrainExact(s, client);
    }
  }

  lemma PollKeepsDrain(sys: System, step: Step, sys': System, j: nat)
    requires Inv(sys) && Enabled(sys, step) && step.Poll? && sys' == Next(sys, step)
    requires j < |sys.drains| && sys.drains[j].intact
    ensures DrainOk(sys', sys'.drains[j])
  {
    var d, c := sys.drains[j], sys.drains[step.drain].client;
    var r := DrainStep(sys.session, c);
    assert DrainOk(sys, d);
    DrainEffect(sys.session, c);
    assert sys'.drains[step.drain].phase == Batched(Parts(r.events), r.live);
    assert sys'.session == r.session && sys'.casts == sys.casts;
    hide DrainStep, WF, Parts, EventSeq;
    forall p | p in d.due ensures p in d.got || Underway(sys', d.client, p) {
      if InBatch(sys, d.client, p) {
        var b :| 0 <= b < |sys.drains| && BatchHolds(sys.drains[b], d.client, p);
        assert sys'.drains[b] == sys.drains[b];
      } else if p !in d.got && !Aimed(sys, d.client, p) && d.client == c && Replaying(sys.session, c) {
        assert p in sys'.drains[step.drain].phase.parts;
        assert InBatch(sys', c, p);
      }
    }
  }

  lemma SendBatchKeepsInv(sys: System, step: Step)
    requires Inv(sys) && Enabled(sys, step) && step.SendBatch?
    ensures Inv(Next(sys, step))
  {
    var sys' := Next(sys, step);
    assert sys'.session == sys.session && sys'.casts == sys.casts;
    forall j | 0 <= j < |sys'.drains| ensures DrainOk(sys', sys'.drains[j]) {
      var d, d' := sys.drains[j], sys'.drains[j];
      assert DrainOk(sys, d);
      if d.intact {
        forall p | p in d.due ensures p in d'.got || Underway(sys', d.client, p) {
          if InBatch(sys, d.client, p) {
            var b :| 0 <= b < |sys.drains| && BatchHolds(sys.drains[b], d.client, p);
            if b != step.drain {
              assert sys'.drains[b].phase == sys.drains[b].phase && sys'.drains[b].client == d.client;
            }
          }
        }
      }
    }
  }

  // A hub step either leaves a replaying client's mark and the buffer as they are, or clears its replay state.
  lemma OtherKeepsReplay(s: Session, op: Op, client: string)
    requires !op.OpAppend? && !op.OpBeginReplay? && !op.OpDrain?
    ensures var s' := Apply(s, op);
      client in s'.replay ==> client in s.replay && s'.replay[client] == s.replay[client] && Buffer(s') == Buffer(s)
    ensures Buffer(Apply(s, op)) == Buffer(s) || Buffer(Apply(s, op)) == []
  {
  }

  lemma OtherKeepsInv(sys: System, step: Step)
    requires Inv(sys) && Enabled(sys, step) && step.Other?
    ensures Inv(Next(sys, step))
  {
    hide ParseCursor, FormatCursor, TrimSpace;
    var sys' := Next(sys, step);
    OpKeepsWF(sys.session, step.op);
    hide Apply;
    OtherKeepsReplay(sys.session, step.op, "");
    forall j | 0 <= j < |sys'.drains| ensures DrainOk(sys', sys'.drains[j]) {
      if sys'.drains[j].intact {
        OtherKeepsDrain(sys, step, sys', j);
      }
    }
  }

  lemma OtherKeepsDrain(sys: System, step: Step, sys': System, j: nat)
    requires Inv(sys) && Enabled(sys, step) && step.Other? && sys' == Next(sys, step)
    requires j < |sys.drains| && sys'.drains[j].intact
    ensures DrainOk(sys', sys'.drains[j])
  {
    hide ParseCursor, FormatCursor, TrimSpace, Apply;
    var d := sys.drains[j];
    assert DrainOk(sys, d) && Survives(sys.session, sys'.session, d.client);
    OtherKeepsReplay(sys.session, step.op, d.client);
    assert sys'.casts == sys.casts;
    forall p | p in d.due ensures p in d.got || Underway(sys', d.client, p) {
      if InBatch(sys, d.client, p) {
        var b :| 0 <= b < |sys.drains| && BatchHolds(sys.drains[b], d.client, p);
        assert sys'.drains[b].phase == sys.drains[b].phase && sys'.drains[b].client == d.client;
      }
    }
  }

  lemma StepKeepsInv(sys: System, step: Step)
    requires Inv(sys) && Enabled(sys, step)
    ensures Inv(Next(sys, step))
  {
    match step
    case Emit(_, _, _) => EmitKeepsInv(sys, step);
    case Select(_) => CastStepKeepsInv(sys, step);
    case Deliver(_, _) => CastStepKeepsInv(sys, step);
    case StartReplay(_) => StartReplayKeepsInv(sys, step);
    case Poll(_) => PollKeepsInv(sys, step);
    case SendBatch(_) => SendBatchKeepsInv(sys, step);
    case Other(_) => OtherKeepsInv(sys, step);
  }

  lemma {:induction false} RunKeepsInv(run: seq<System>, steps: seq<Step>, k: nat)
    requires IsRun(run, steps) && k < |run|
    ensures Inv(run[k])
  {
    hide Inv, Next, Enabled;
    if k > 0 {
      RunKeepsInv(run, steps, k - 1);
      StepKeepsInv(run[k - 1], steps[k - 1]);
    } else {
      InitialInv();
    }
  }

  lemma InitialInv()
    ensures Inv(INITIAL)
  {
  }

  // ---- the theorem ----

  // From its replay start at step m on, the client stays bound, is not replayed anew, and nothing clears
  // its replay state before the flip to live.
  ghost predicate Undisturbed(run: seq<System>, steps: seq<Step>, m: nat, k: nat, client: string)
    requires IsRun(run, steps) && m < k < |run|
  {
    && client in run[m].session.bound
    && forall i | m < i < k :: steps[i] != StartReplay(client) && Survives(run[i].session, run[i + 1].session, client)
  }

  lemma StepKeepsDues(sys: System, step: Step, j: nat)
    requires Enabled(sys, step) && j < |sys.drains|
    ensures var sys' := Next(sys, step);
      && j < |sys'.drains| && sys'.drains[j].client == sys.drains[j].client
      && sys'.emitted == sys.emitted + (if step.Emit? then 1 else 0)
      && sys'.drains[j].due == sys.drains[j].due + (if step.Emit? then {sys.emitted} else {})
      && (step != StartReplay(sys.drains[j].client) && Survives(sys.session, sys'.session, sys.drains[j].client) ==>
            sys'.drains[j].intact == sys.drains[j].intact)
  {
    hide Apply, DrainStep, AppendEvent, Parts, Survives;
  }

  lemma {:induction false} DuesAre(run: seq<System>, steps: seq<Step>, m: nat, k: nat, client: string)
    requires IsRun(run, steps) && m < k < |run| && steps[m] == StartReplay(client)
    requires Undisturbed(run, steps, m, k, client)
    ensures var j := |run[m].drains|;
      && j < |run[k].drains| && run[k].drains[j].client == client && run[k].drains[j].intact
      && run[m].turnStart <= run[m].emitted <= run[k].emitted
      && forall p: nat :: p in run[k].drains[j].due <==> run[m].turnStart <= p < run[k].emitted
    decreases k
  {
    hide Apply, DrainStep, AppendEvent, Parts, Survives;
    var j := |run[m].drains|;
    if k == m + 1 {
      RunKeepsInv(run, steps, m);
      assert run[k] == Next(run[m], steps[m]);
    } else {
      assert Undisturbed(run, steps, m, k - 1, client);
      DuesAre(run, steps, m, k - 1, client);
      StepKeepsDues(run[k - 1], steps[k - 1], j);
    }
  }

  /** The handoff loses nothing. In every interleaving, take a client's replay started at step m and
      undisturbed up to state k where its drain loop has ended. Every event that was in the buffer at m or
      was emitted since has been transmitted to the client, once that event's own broadcast is over and no
      batch for the client is still to be sent. */
  lemma HandoffLosesNothing(run: seq<System>, steps: seq<Step>, m: nat, k: nat, client: string, part: nat)
    requires IsRun(run, steps) && m < k < |run| && steps[m] == StartReplay(client)
    requires Undisturbed(run, steps, m, k, client)
    requires part in Parts(Buffer(run[m].session)) || run[m].emitted <= part < run[k].emitted
    requires |run[m].drains| < |run[k].drains| && run[k].drains[|run[m].drains|].phase == Done
    requires forall b | 0 <= b < |run[k].drains| && run[k].drains[b].client == client :: !run[k].drains[b].phase.Batched?
    requires forall q | 0 <= q < |run[k].casts| && run[k].casts[q].part == part :: run[k].casts[q].phase == Sending({})
    ensures part in run[k].drains[|run[m].drains|].got
  {
    RunKeepsInv(run, steps, m);
    RunKeepsInv(run, steps, k);
    DuesAre(run, steps, m, k, client);
    assert DrainOk(run[k], run[k].drains[|run[m].drains|]);
    hide Next, Parts;
  }

  /** Coalescing loses nothing either: at every moment the buffer carries exactly the events emitted since
      it was last emptied. */
  lemma BufferCarriesTurn(run: seq<System>, steps: seq<Step>, k: nat, part: nat)
    requires IsRun(run, steps) && k < |run|
    ensures part in Parts(Buffer(run[k].session)) <==> run[k].turnStart <= part < run[k].emitted
  {
    RunKeepsInv(run, steps, k);
  }

  // ---- live broadcasts pass replaying clients by ----

  /** A broadcast is aimed at exactly the bound clients that have no replay state or have gone live. */
  lemma SelectAimsExactly(run: seq<System>, steps: seq<Step>, k: nat, cast: nat, client: string)
    requires IsRun(run, steps) && k < |steps| && steps[k] == Select(cast)
    ensures var before, after := run[k].session, run[k + 1].casts;
      && cast < |after| && after[cast].phase.Sending?
      && (client in after[cast].phase.targets <==>
            client in before.bound && !(client in before.replay && before.replay[client].live == false))
  {
  }

  // A client that is replaying after a step was replaying before it, or the step started its replay.
  lemma ReplayingBefore(sys: System, step: Step, client: string)
    requires Enabled(sys, step) && step != StartReplay(client) && Replaying(Next(sys, step).session, client)
    ensures Replaying(sys.session, client)
  {
    hide AppendEvent, SelectAbove, SortBySeq, Parts;
    match step
    case Emit(kind, turnID, slot) =>
      AppendKeepsReplay(sys.session, StreamEvent(kind, [sys.emitted], "", turnID), slot);
    case Other(op) => OtherKeepsReplay(sys.session, op, client);
    case _ =>
  }

  lemma AppendKeepsReplay(s: Session, event: StreamEvent, slot: Option<nat>)
    ensures AppendEvent(s, event, slot).0.replay == s.replay
  {
  }

  // The broadcasts still aimed at a client are the ones already aimed at it, and what a selection adds.
  lemma AimedBefore(sys: System, step: Step, q: nat, client: string)
    requires Enabled(sys, step)
    requires var casts := Next(sys, step).casts; q < |casts| && casts[q].phase.Sending? && client in casts[q].phase.targets
    ensures q < |sys.casts|
    ensures (sys.casts[q].phase.Sending? && client in sys.casts[q].phase.targets)
      || (step == Select(q) && !Replaying(sys.session, client))
  {
    hide Apply, DrainStep, AppendEvent, Parts;
  }

  /** The order of the handoff. As long as a replay started at step m is not started anew and has not gone live, no
      broadcast selected since then is aimed at the client: what is still on its way to it live was aimed at it
      before the replay started, so nothing emitted since then can overtake the batches. */
  lemma {:induction false} NoLiveBeforeFlip(run: seq<System>, steps: seq<Step>, m: nat, k: nat, client: string, q: nat)
    requires IsRun(run, steps) && m < k < |run| && steps[m] == StartReplay(client)
    requires forall i | m < i < k :: steps[i] != StartReplay(client)
    requires client in run[k].session.replay && run[k].session.replay[client].live == false
    requires q < |run[k].casts| && run[k].casts[q].phase.Sending? && client in run[k].casts[q].phase.targets
    ensures q < |run[m].casts| && run[m].casts[q].phase.Sending? && client in run[m].casts[q].phase.targets
    decreases k
  {
    hide Next;
    AimedBefore(run[k - 1], steps[k - 1], q, client);
    if k - 1 > m {
      ReplayingBefore(run[k - 1], steps[k - 1], client);
      NoLiveBeforeFlip(run, steps, m, k - 1, client, q);
    }
  }

  // Broadcasts are numbered by the events they carry.
  lemma {:induction false} CastsCountEvents(run: seq<System>, steps: seq<Step>, k: nat)
    requires IsRun(run, steps) && k < |run|
    ensures |run[k].casts| == run[k].emitted && forall q | 0 <= q < |run[k].casts| :: run[k].casts[q].part == q
  {
    hide Apply, DrainStep, AppendEvent, Parts;
    if k > 0 {
      CastsCountEvents(run, steps, k - 1);
    }
  }

  /** So whatever is delivered live to a client that has not gone live was emitted before its replay started. */
  lemma NothingOvertakes(run: seq<System>, steps: seq<Step>, m: nat, k: nat, client: string, q: nat)
    requires IsRun(run, steps) && m < k < |steps| && steps[m] == StartReplay(client) && steps[k] == Deliver(q, client)
    requires forall i | m < i < k :: steps[i] != StartReplay(client)
    requires client in run[k].session.replay && run[k].session.replay[client].live == false
    ensures run[k].casts[q].part < run[m].emitted
  {
    hide Next;
    NoLiveBeforeFlip(run, steps, m, k, client, q);
    CastsCountEvents(run, steps, m);
    CastsCountEvents(run, steps, k);
  }
}
