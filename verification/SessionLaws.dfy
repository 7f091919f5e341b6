/** What each section of the hub does to a session, field by field: which sections may touch a field at all, and
    what the ones that do leave there. */
module SessionLaws {
  import opened Text
  import opened EventCursor
  import opened SeqTools
  import opened SessionState

  // Which fields of the pending entry a section may change.
  predicate MovesOnlyOwn(p: Pending, p': Pending, op: Op) {
    && (p'.active != p.active ==> op.OpReserve? || op.OpPop? || op.OpStartTurn? || op.OpClear?)
    && (p'.frozen != p.frozen ==> op.OpFreeze? || op.OpUnfreeze? || op.OpPromote?)
    && (p'.user != p.user ==> op.OpStartTurn? || op.OpClear?)
    && (p'.queue != p.queue ==> op.OpReserve? || op.OpRemove? || op.OpUpdate? || op.OpPop? || op.OpPromote?)
    && (p'.buffer != p.buffer ==> op.OpAppend? || op.OpStartTurn? || op.OpClear?)
    && (p'.base != p.base || p'.turnID != p.turnID ==> op.OpStartTurn?)
    && (p'.nextSeq != p.nextSeq ==> op.OpAppend? || op.OpStartTurn?)
    && (p'.awaiting != p.awaiting ==> op.OpAwaiting? || op.OpStartTurn?)
  }

  lemma QueueSectionsMove(s: Session, op: Op)
    requires op.OpReserve? || op.OpRemove? || op.OpUpdate? || op.OpFreeze? || op.OpUnfreeze? || op.OpPop? || op.OpPromote?
    ensures Apply(s, op).pending.Some? ==> MovesOnlyOwn(Ensured(s.pending), Apply(s, op).pending.value, op)
  {
    hide TrimSpace, Without, ToFront, Position, Stamped;
  }

  lemma ReplaySectionsMove(s: Session, op: Op)
    requires op.OpBeginReplay? || op.OpDrain? || op.OpBind? || op.OpUnregister?
    ensures Apply(s, op).pending == s.pending
  {
    hide SelectAbove, SortBySeq;
  }

  /** The pending entry's fields move only in the sections made for them. */
  lemma FieldsMoveOnlyBy(s: Session, op: Op)
    requires Apply(s, op).pending.Some?
    ensures MovesOnlyOwn(Ensured(s.pending), Apply(s, op).pending.value, op)
  {
    if op.OpReserve? || op.OpRemove? || op.OpUpdate? || op.OpFreeze? || op.OpUnfreeze? || op.OpPop? || op.OpPromote? {
      QueueSectionsMove(s, op);
    } else if op.OpBeginReplay? || op.OpDrain? || op.OpBind? || op.OpUnregister? {
      ReplaySectionsMove(s, op);
    } else {
      TurnSectionsMove(s, op);
    }
    hide Apply, MovesOnlyOwn;
  }

  lemma TurnSectionsMove(s: Session, op: Op)
    requires op.OpStartTurn? || op.OpAwaiting? || op.OpClear? || op.OpAppend?
    ensures Apply(s, op).pending.Some? ==> MovesOnlyOwn(Ensured(s.pending), Apply(s, op).pending.value, op)
  {
    hide FormatCursor, Blank;
  }

  /** An entry is deleted exactly when the last reason for it goes: no turn, no message and no open question is left. */
  lemma EntryGoesWhen(s: Session, op: Op)
    requires s.pending.Some?
    ensures var p := s.pending.value;
      Apply(s, op).pending.None? <==>
        || (op.OpClear? && p.queue == [] && !p.awaiting && (op.turnID == "" || p.turnID == "" || op.turnID == p.turnID))
        || (op == OpAwaiting(false) && p.queue == [] && !p.active)
  {
    hide FormatCursor, TrimSpace;
  }

  // The sections that rewrite the queue or the turn send every client's replay back to its start.
  predicate Rewrites(s: Session, op: Op) {
    match op
    case OpReserve(_, _) => Active(s)
    case OpRemove(id) => s.pending.Some? && id != ""
    case OpUpdate(id, _) => s.pending.Some? && id != ""
    case OpPop(id) => Pop(s, id).1.Some?
    case OpPromote(id) => Promote(s, id).1
    case OpStartTurn(_, _, _) => true
    case OpClear(turnID) => s.pending.Some? && TurnIDMatches(s, turnID)
    case OpAwaiting(awaiting) => !awaiting && s.pending.Some? && !Active(s) && Queue(s) == []
    case _ => false
  }

  /** Replay states end in exactly these sections; elsewhere at most the one client a section is about is affected. */
  lemma ReplaysEndOnlyIn(s: Session, op: Op, client: string)
    ensures Rewrites(s, op) ==> Apply(s, op).replay == map[]
    ensures !Rewrites(s, op) && op != OpBeginReplay(client) && op != OpDrain(client) && op != OpUnregister(client) ==>
      (client in Apply(s, op).replay <==> client in s.replay) &&
      (client in s.replay ==> Apply(s, op).replay[client] == s.replay[client])
    ensures op == OpUnregister(client) ==> client !in Apply(s, op).replay
    ensures op == OpBeginReplay(client) ==> Apply(s, op).replay == s.replay[client := ReplayState(false, 0)]
  {
    hide FormatCursor, TrimSpace, SelectAbove, SortBySeq;
  }

  /** Clients are bound and unbound only by name. */
  lemma BoundMovesOnlyBy(s: Session, op: Op, client: string)
    ensures client in Apply(s, op).bound <==>
      op == OpBind(client) || (client in s.bound && op != OpUnregister(client))
  {
    hide FormatCursor, TrimSpace, SelectAbove, SortBySeq;
  }

  // ---- the queue ----

  /** A submission takes an idle session and leaves its queue alone; behind a running turn it goes to the end, with the
      clock's id if it brought none. */
  lemma SubmissionGoesLast(s: Session, m: Message, clock: string)
    ensures var (s', queued) := ReserveOrQueue(s, m, clock);
      && queued == Active(s) && Active(s')
      && if !queued then Queue(s') == Queue(s)
         else
           && |Queue(s')| == |Queue(s)| + 1 && Queue(s')[..|Queue(s)|] == Queue(s)
           && var last := Queue(s')[|Queue(s)|];
              last.content == m.content && last.serial == m.serial && last.id == if m.id == "" then clock else m.id
  {
  }

  /** Removing an id takes out all messages called so and no other, and keeps the order of the rest. */
  lemma {:induction false} RemovalIsExact(queue: seq<Message>, id: string)
    ensures forall m :: m in Without(queue, id) <==> m in queue && m.id != id
    ensures forall cut | 0 <= cut <= |queue| :: Without(queue, id) == Without(queue[..cut], id) + Without(queue[cut..], id)
  {
    FilterMembers(queue, (m: Message) => m.id != id);
    forall cut | 0 <= cut <= |queue|
      ensures Without(queue, id) == Without(queue[..cut], id) + Without(queue[cut..], id)
    {
      FilterJoins(queue[..cut], queue[cut..], (m: Message) => m.id != id);
      assert queue[..cut] + queue[cut..] == queue;
    }
  }

  lemma {:induction false} FilterJoins(a: seq<Message>, b: seq<Message>, keep: Message -> bool)
    ensures Filter(a + b, keep) == Filter(a, keep) + Filter(b, keep)
  {
    if b == [] {
      assert a + b == a;
    } else {
      assert (a + b)[..|a + b| - 1] == a + b[..|b| - 1];
      FilterJoins(a, b[..|b| - 1], keep);
    }
  }

  /** An update rewrites the content of the first message called so; every other message stays as it was. */
  lemma UpdateRewritesOne(s: Session, id: string, content: string)
    ensures var q, q' := Queue(s), Queue(UpdateQueued(s, id, content));
      && |q'| == |q|
      && forall i | 0 <= i < |q| ::
           if id != "" && FirstCalled(q, id, i)
           then q'[i].content == content && q'[i].id == id && q'[i].serial == q[i].serial
           else q'[i] == q[i]
  {
  }

  /** Freezing takes effect exactly on a queue that holds messages; it stops the unnamed pop and no named one, and
      unfreezing undoes it. */
  lemma FreezeStopsPops(s: Session, id: string)
    ensures Freeze(s).1 <==> Queue(s) != []
    ensures !Freeze(s).1 ==> Freeze(s).0 == s
    ensures Freeze(s).1 ==>
      && Pop(Freeze(s).0, "").1.None?
      && (!Blank(id) ==> Pop(Freeze(s).0, id).1 == Pop(s, id).1)
      && Unfreeze(Freeze(s).0).1
      && (!Frozen(s) ==> Unfreeze(Freeze(s).0).0 == s)
    ensures Unfreeze(s).1 <==> Frozen(s)
    ensures !Unfreeze(s).1 ==> Unfreeze(s).0 == s
    ensures !Frozen(Unfreeze(s).0)
  {
    PopHead(Freeze(s).0);
  }

  /** A named pop grants the first message with the trimmed id, if no turn runs, frozen or not; the rest of the queue
      keeps its order. */
  lemma NamedPopGrants(s: Session, id: string, i: nat)
    requires !Blank(id) && FirstCalled(Queue(s), TrimSpace(id), i)
    ensures Active(s) ==> Pop(s, id) == (s, None)
    ensures !Active(s) ==>
      && Pop(s, id).1 == Some(Queue(s)[i]) && Active(Pop(s, id).0)
      && Queue(Pop(s, id).0) == Queue(s)[..i] + Queue(s)[i + 1..]
  {
    hide TrimSpace;
  }

  lemma NamedPopRefuses(s: Session, id: string)
    requires !Blank(id) && forall m | m in Queue(s) :: m.id != TrimSpace(id)
    ensures Pop(s, id) == (s, None)
  {
    hide TrimSpace;
  }

  /** An unknown or blank id is refused and changes nothing. */
  lemma PromoteRefuses(s: Session, id: string)
    requires Blank(id) || forall m | m in Queue(s) :: m.id != id
    ensures Promote(s, id) == (s, false)
  {
  }

  // ---- turns and questions ----

  /** Installing a turn: it runs with its id and text, on an empty buffer, with the counter at 0 on the new base and
      without an open question. */
  lemma TurnStartsClean(s: Session, turnID: string, userSeq: int, content: string)
    ensures var s' := StartTurn(s, turnID, userSeq, content);
      && s'.pending.Some? && Active(s') && Queue(s') == Queue(s)
      && var p := s'.pending.value;
         && p.turnID == turnID && p.user == Some(content) && p.buffer == [] && p.nextSeq == 0 && !p.awaiting
         && p.base as int == if userSeq > 0 then userSeq else 0
  {
  }

  /** A question keeps the session known, and its answer takes back only that. */
  lemma QuestionOpensAndCloses(s: Session)
    ensures var s' := MarkAwaiting(s, true);
      && s'.pending.Some? && s'.pending.value.awaiting
      && (s.pending.Some? ==> s'.pending.value == s.pending.value.(awaiting := true))
    ensures s.pending.Some? && !s.pending.value.awaiting && (Active(s) || Queue(s) != []) ==>
      MarkAwaiting(MarkAwaiting(s, true), false) == s
    ensures MarkAwaiting(s, false).pending.Some? ==> !MarkAwaiting(s, false).pending.value.awaiting
  {
  }

  /** A clear that takes effect leaves no running turn, no text and no events, and keeps what waits. */
  lemma ClearKeepsWhatWaits(s: Session, turnID: string)
    requires s.pending.Some? && (turnID == "" || s.pending.value.turnID == "" || turnID == s.pending.value.turnID)
    ensures var s' := ClearPending(s, turnID);
      && !Active(s') && Ensured(s'.pending).user == None && Ensured(s'.pending).buffer == []
      && Queue(s') == Queue(s) && Ensured(s'.pending).awaiting == s.pending.value.awaiting
  {
  }

  /** A clear for another turn changes nothing. */
  lemma ForeignClearIsIgnored(s: Session, turnID: string)
    requires s.pending.Some? && turnID != "" && s.pending.value.turnID != "" && turnID != s.pending.value.turnID
    ensures ClearPending(s, turnID) == s && !TurnIDMatches(s, turnID)
  {
  }

  // ---- events ----

  /** An event goes to the end of the buffer under the entry's base and the next number, with the turn's id if it
      brought none. One that a slot absorbs takes that slot instead, with the payload of both; no other event moves. */
  lemma EventIsStored(s: Session, e: StreamEvent, slot: Option<nat>)
    requires Ensured(s.pending).nextSeq < MAX_UINT
    ensures var (s', stored) := AppendEvent(s, e, slot);
      var p, buffer := Ensured(s.pending), Ensured(s'.pending).buffer;
      && s'.pending.Some? && s'.pending.value.nextSeq == p.nextSeq + 1
      && stored.kind == e.kind && stored.parts == e.parts && stored.cursor == FormatCursor(p.base, p.nextSeq + 1)
      && stored.turnID == (if Blank(e.turnID) then p.turnID else e.turnID)
      && if slot.Some? && slot.value < |p.buffer| && p.buffer[slot.value].kind == e.kind
         then
           && |buffer| == |p.buffer| && buffer[slot.value].parts == p.buffer[slot.value].parts + e.parts
           && buffer[slot.value].cursor == stored.cursor && buffer[slot.value].kind == e.kind
           && buffer[slot.value].turnID == stored.turnID
           && forall i | 0 <= i < |buffer| && i != slot.value :: buffer[i] == p.buffer[i]
         else |buffer| == |p.buffer| + 1 && buffer[|p.buffer|] == stored && buffer[..|p.buffer|] == p.buffer
  {
    hide FormatCursor, TrimSpace;
  }

  // ---- drain rounds ----

  /** A drain round reports the flip to live exactly when it returns no events, for a client without a replay state too;
      then the client is not replaying any more, and otherwise it still is if it was. */
  lemma DrainReportsTheFlip(s: Session, client: string)
    ensures var r := DrainStep(s, client);
      && (r.live <==> r.events == [])
      && (r.live ==> !(client in r.session.replay && r.session.replay[client].live == false))
      && (!r.live ==> client in r.session.replay && client in s.replay &&
                      r.session.replay[client].live == s.replay[client].live)
  {
    hide SelectAbove;
    if client in s.replay && s.pending.Some? {
      SortKeepsMembers(SelectAbove(s.pending.value.buffer, s.pending.value.base, s.replay[client].mark), SeqLeq);
    }
  }

  /** And it returns exactly the buffered events of the entry's base with a number above the client's mark. */
  lemma DrainSelects(s: Session, client: string, e: StreamEvent)
    requires client in s.replay
    ensures e in DrainStep(s, client).events <==>
      s.pending.Some? && e in s.pending.value.buffer && ParseCursor(e.cursor).Some? &&
      ParseCursor(e.cursor).value.base == s.pending.value.base && ParseCursor(e.cursor).value.seqNo > s.replay[client].mark
  {
    if s.pending.Some? {
      var p, mark := s.pending.value, s.replay[client].mark;
      var events := SelectAbove(p.buffer, p.base, mark);
      FilterMembers(p.buffer, (x: StreamEvent) => AboveMark(x, p.base, mark));
      SortKeepsMembers(events, SeqLeq);
      SameMembers(SortBySeq(events), events);
      assert e in events <==> e in p.buffer && AboveMark(e, p.base, mark);
      hide SelectAbove, ParseCursor, StableSort;
    }
  }
}
