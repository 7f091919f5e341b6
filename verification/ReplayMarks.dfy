/** Event numbers, replay marks and what one drain round returns, over every sequence of hub steps. */
module ReplayMarks {
  import opened Text
  import opened EventCursor
  import opened SessionState
  import opened SeqTools

  // The event carries a cursor of this entry with a number in 1..limit.
  predicate Numbered(e: StreamEvent, base: nat, limit: nat) {
    var c := ParseCursor(e.cursor);
    c.Some? && c.value.base == base && 1 <= c.value.seqNo <= limit
  }

  predicate AllNumbered(buffer: seq<StreamEvent>, base: nat, limit: nat) {
    forall i | 0 <= i < |buffer| :: Numbered(buffer[i], base, limit)
  }

  predicate WellNumbered(p: Pending) {
    && p.base <= MAX_INT && p.nextSeq <= MAX_UINT
    && AllNumbered(p.buffer, p.base, p.nextSeq)
    && Distinct(p.buffer, EventSeq)
  }

  function Counter(s: Session): nat {
    Ensured(s.pending).nextSeq
  }

  /** Buffered cursors share the entry's base, are distinct and lie in 1..counter; no client's mark is
      above the counter. */
  predicate WF(s: Session) {
    && WellNumbered(Ensured(s.pending))
    && (forall c | c in s.replay :: s.replay[c].mark <= Counter(s))
  }

  // Stays within 64 bits: the persisted exchange number is an int, and a turn does not emit 2^64 events.
  predicate InRange(s: Session, op: Op) {
    && (op.OpStartTurn? ==> op.userSeq <= MAX_INT)
    && (op.OpAppend? ==> Counter(s) < MAX_UINT)
  }

  predicate RunInRange(s: Session, ops: seq<Op>)
    decreases |ops|
  {
    ops == [] || (InRange(s, ops[0]) && RunInRange(Apply(s, ops[0]), ops[1..]))
  }

  lemma FreshNumber(e: StreamEvent, base: nat, n: nat)
    requires base <= MAX_INT && n <= MAX_UINT && e.cursor == FormatCursor(base, n)
    ensures ParseCursor(e.cursor) == Some(Cursor(base, n)) && EventSeq(e) == n
  {
    ParseInvertsFormat(base, n);
  }

  // A new or coalesced slot takes a number above every other one in the buffer.
  lemma NewestSlotKeepsNumbering(p: Pending, i: nat, e: StreamEvent)
    requires WellNumbered(p) && p.nextSeq < MAX_UINT
    requires i <= |p.buffer| && e.cursor == FormatCursor(p.base, p.nextSeq + 1)
    ensures var buffer := if i < |p.buffer| then p.buffer[i := e] else p.buffer + [e];
      WellNumbered(p.(nextSeq := p.nextSeq + 1, buffer := buffer))
  {
    FreshNumber(e, p.base, p.nextSeq + 1);
    var buffer := if i < |p.buffer| then p.buffer[i := e] else p.buffer + [e];
    assert forall j | 0 <= j < |p.buffer| :: EventSeq(p.buffer[j]) <= p.nextSeq by {
      assert forall j | 0 <= j < |p.buffer| :: Numbered(p.buffer[j], p.base, p.nextSeq);
    }
    forall j | 0 <= j < |buffer| ensures Numbered(buffer[j], p.base, p.nextSeq + 1) {
      if j != i { assert Numbered(p.buffer[j], p.base, p.nextSeq); }
    }
  }

  lemma AppendKeepsWF(s: Session, event: StreamEvent, slot: Option<nat>)
    requires WF(s) && Counter(s) < MAX_UINT
    ensures WF(AppendEvent(s, event, slot).0)
    ensures Counter(AppendEvent(s, event, slot).0) == Counter(s) + 1
    ensures EventSeq(AppendEvent(s, event, slot).1) == Counter(s) + 1
  {
    hide ParseCursor, FormatCursor, TrimSpace;
    var p := Ensured(s.pending);
    var (s', stored) := AppendEvent(s, event, slot);
    FreshNumber(stored, p.base, p.nextSeq + 1);
    if slot.Some? && slot.value < |p.buffer| && p.buffer[slot.value].kind == stored.kind {
      NewestSlotKeepsNumbering(p, slot.value, s'.pending.value.buffer[slot.value]);
    } else {
      NewestSlotKeepsNumbering(p, |p.buffer|, stored);
    }
  }

  lemma NumberedAbove(e: StreamEvent, base: nat, limit: nat, mark: nat)
    requires Numbered(e, base, limit)
    ensures AboveMark(e, base, mark) <==> EventSeq(e) > mark
  {
  }

  lemma SelectAboveExact(events: seq<StreamEvent>, base: nat, limit: nat, mark: nat)
    requires AllNumbered(events, base, limit) && Distinct(events, EventSeq)
    ensures forall e :: e in SelectAbove(events, base, mark) <==> e in events && EventSeq(e) > mark
    ensures Distinct(SelectAbove(events, base, mark), EventSeq)
  {
    var above := (e: StreamEvent) => AboveMark(e, base, mark);
    FilterMembers(events, above);
    FilterKeepsDistinct(events, above, EventSeq);
    forall e | e in events ensures AboveMark(e, base, mark) <==> EventSeq(e) > mark {
      NumberedAbove(e, base, limit, mark);
    }
  }

  predicate Increasing(events: seq<StreamEvent>) {
    forall i, j | 0 <= i < j < |events| :: EventSeq(events[i]) < EventSeq(events[j])
  }

  // Distinct numbers make the sorted batch strictly increasing.
  lemma SortIncreases(events: seq<StreamEvent>)
    requires Distinct(events, EventSeq)
    ensures Increasing(SortBySeq(events))
    ensures |SortBySeq(events)| == |events|
    ensures forall e :: e in SortBySeq(events) <==> e in events
  {
    SortSorts(events, SeqLeq);
    SortKeepsMembers(events, SeqLeq);
    PermutationKeepsDistinct(events, SortBySeq(events), EventSeq);
    SameMembers(SortBySeq(events), events);
    var r := SortBySeq(events);
    forall i, j | 0 <= i < j < |r| ensures EventSeq(r[i]) < EventSeq(r[j]) {
      assert SeqLeq(r[i], r[j]);
    }
  }

  /** One drain round returns exactly the buffered events above the client's mark, in strictly increasing
      order, and moves the mark to the last of them; the round with nothing to return is the flip to live. */
  lemma DrainExact(s: Session, client: string)
    requires WF(s) && client in s.replay
    ensures var r, mark, buffer := DrainStep(s, client), s.replay[client].mark, Ensured(s.pending).buffer;
      && (forall e :: e in r.events <==> e in buffer && EventSeq(e) > mark)
      && Increasing(r.events)
      && (r.events != [] ==> !r.live && r.session.replay[client].mark == EventSeq(r.events[|r.events| - 1]) > mark)
      && (r.events == [] ==> r.live && r.session.replay[client] == ReplayState(true, mark))
      && r.session.pending == s.pending && r.session.replay.Keys == s.replay.Keys
      && (forall c | c in s.replay && c != client :: r.session.replay[c] == s.replay[c])
  {
    var mark, p := s.replay[client].mark, Ensured(s.pending);
    var picked := SelectAbove(p.buffer, p.base, mark);
    SelectAboveExact(p.buffer, p.base, p.nextSeq, mark);
    SortIncreases(picked);
    if picked != [] {
      MaxByIsLast(picked, SortBySeq(picked), EventSeq, mark);
    }
  }

  lemma DrainKeepsWF(s: Session, client: string)
    requires WF(s)
    ensures WF(DrainStep(s, client).session)
  {
    if client in s.replay {
      DrainExact(s, client);
      hide ParseCursor, FormatCursor, TrimSpace, SelectAbove, SortBySeq, Increasing, Distinct;
      var r := DrainStep(s, client);
      if r.events != [] {
        BufferedBelowCounter(Ensured(s.pending), r.events[|r.events| - 1]);
      }
      hide DrainStep, Numbered, AllNumbered;
    }
  }

  lemma BufferedBelowCounter(p: Pending, e: StreamEvent)
    requires WellNumbered(p) && e in p.buffer
    ensures EventSeq(e) <= p.nextSeq
  {
    hide ParseCursor, Distinct;
    var i :| 0 <= i < |p.buffer| && p.buffer[i] == e;
    assert Numbered(p.buffer[i], p.base, p.nextSeq);
  }

  lemma OpKeepsWF(s: Session, op: Op)
    requires WF(s) && InRange(s, op)
    ensures WF(Apply(s, op))
  {
    hide ParseCursor, FormatCursor, TrimSpace, DrainStep, AppendEvent;
    if op.OpAppend? {
      AppendKeepsWF(s, op.event, op.slot);
    } else if op.OpDrain? {
      DrainKeepsWF(s, op.client);
    }
  }

  /** The numbering invariant holds along every run of hub steps: across new turns, clears, queue changes
      and entry deletions no mark ever passes its session's counter. */
  lemma {:induction false} RunKeepsWF(s: Session, ops: seq<Op>)
    requires WF(s) && RunInRange(s, ops)
    ensures WF(ApplyAll(s, ops))
    decreases |ops|
  {
    if ops != [] {
      OpKeepsWF(s, ops[0]);
      RunKeepsWF(Apply(s, ops[0]), ops[1..]);
    }
  }

  lemma MarksNeverPassTheCounter(ops: seq<Op>)
    requires RunInRange(EMPTY_SESSION, ops)
    ensures WF(ApplyAll(EMPTY_SESSION, ops))
  {
    RunKeepsWF(EMPTY_SESSION, ops);
  }

  // ---- the batches one client gets over a run ----

  function Numbers(events: seq<StreamEvent>): seq<nat> {
    seq(|events|, i requires 0 <= i < |events| => EventSeq(events[i]))
  }

  // The numbers the client gets from one hub step.
  function BatchOf(s: Session, op: Op, client: string): seq<nat> {
    if op == OpDrain(client) then Numbers(DrainStep(s, client).events) else []
  }

  function DrainedNumbers(s: Session, ops: seq<Op>, client: string): seq<nat>
    decreases |ops|
  {
    if ops == [] then [] else BatchOf(s, ops[0], client) + DrainedNumbers(Apply(s, ops[0]), ops[1..], client)
  }

  // Nothing restarts or clears the client's replay state along the run.
  predicate KeepsReplayState(s: Session, ops: seq<Op>, client: string)
    decreases |ops|
  {
    client in s.replay &&
    (ops == [] || (ops[0] != OpBeginReplay(client) && KeepsReplayState(Apply(s, ops[0]), ops[1..], client)))
  }

  predicate Rising(ns: seq<nat>, floor: nat) {
    && (forall i | 0 <= i < |ns| :: ns[i] > floor)
    && (forall i, j | 0 <= i < j < |ns| :: ns[i] < ns[j])
  }

  lemma StepRises(s: Session, op: Op, client: string)
    requires WF(s) && client in s.replay && client in Apply(s, op).replay && op != OpBeginReplay(client)
    ensures var mark, mark' := s.replay[client].mark, Apply(s, op).replay[client].mark;
      && mark <= mark'
      && Rising(BatchOf(s, op, client), mark)
      && forall n | n in BatchOf(s, op, client) :: n <= mark'
  {
    hide ParseCursor, FormatCursor, TrimSpace, SelectAbove, SortBySeq;
    if op == OpDrain(client) {
      DrainExact(s, client);
      var events := DrainStep(s, client).events;
      assert forall i | 0 <= i < |events| :: events[i] in events;
    }
  }

  lemma RisingConcat(a: seq<nat>, b: seq<nat>, floor: nat, mid: nat)
    requires Rising(a, floor) && Rising(b, mid) && floor <= mid && forall n | n in a :: n <= mid
    ensures Rising(a + b, floor)
  {
    assert forall i | 0 <= i < |a| :: a[i] in a;
  }

  /** Until its replay is restarted or cleared, the batches a client gets never repeat a number: all of
      them together are strictly increasing. */
  lemma {:induction false} BatchesNeverRepeat(s: Session, ops: seq<Op>, client: string)
    requires WF(s) && RunInRange(s, ops) && KeepsReplayState(s, ops, client)
    ensures Rising(DrainedNumbers(s, ops, client), s.replay[client].mark)
    decreases |ops|
  {
    hide Apply, BatchOf, Rising;
    if ops != [] {
      var s' := Apply(s, ops[0]);
      OpKeepsWF(s, ops[0]);
      BatchesNeverRepeat(s', ops[1..], client);
      StepRises(s, ops[0], client);
      RisingConcat(BatchOf(s, ops[0], client), DrainedNumbers(s', ops[1..], client),
                   s.replay[client].mark, s'.replay[client].mark);
    } else {
      NothingRises(s.replay[client].mark);
    }
  }

  lemma NothingRises(floor: nat)
    ensures Rising([], floor)
  {
  }
}
