/** What one locked section of the stream hub does to one session.
    A Session is everything the hub holds about a single session key: its pending entry, the replay
    state of each client and the clients bound to it. Each function below is one critical section. */
module SessionState {
  import opened Text
  import opened EventCursor
  import opened SeqTools

  // serial numbers the submissions in order of arrival; no step reads it.
  datatype Message = Message(id: string, content: string, serial: nat)

  // parts lists the numbers of the emitted events whose payload the event carries; a coalesced slot
  // carries several.
  datatype StreamEvent = StreamEvent(kind: string, parts: seq<nat>, cursor: string, turnID: string)

  datatype Pending = Pending(
    active: bool,
    frozen: bool,
    user: Option<string>,
    queue: seq<Message>,
    buffer: seq<StreamEvent>,
    base: nat,
    nextSeq: nat,
    turnID: string,
    awaiting: bool)

  datatype ReplayState = ReplayState(live: bool, mark: nat)

  datatype Session = Session(pending: Option<Pending>, replay: map<string, ReplayState>, bound: set<string>)

  const NEW_PENDING := Pending(false, false, None, [], [], 0, 0, "", false)
  const EMPTY_SESSION := Session(None, map[], {})

  function Ensured(p: Option<Pending>): Pending {
    if p.Some? then p.value else NEW_PENDING
  }

  predicate Active(s: Session) {
    s.pending.Some? && s.pending.value.active
  }

  function Queue(s: Session): seq<Message> {
    Ensured(s.pending).queue
  }

  predicate Frozen(s: Session) {
    Ensured(s.pending).frozen
  }

  function Put(s: Session, p: Pending): Session {
    s.(pending := Some(p))
  }

  function PutAndClearReplays(s: Session, p: Pending): Session {
    s.(pending := Some(p), replay := map[])
  }

  // ---- queue ----

  function Stamped(m: Message, clock: string): Message {
    if m.id == "" then m.(id := clock) else m
  }

  function Enqueue(s: Session, m: Message): Session {
    var p := Ensured(s.pending);
    PutAndClearReplays(s, p.(queue := p.queue + [m]))
  }

  // Grants the turn when the session is idle, queues the message behind the running turn otherwise.
  function ReserveOrQueue(s: Session, m: Message, clock: string): (Session, bool) {
    var p := Ensured(s.pending);
    if p.active then (Enqueue(s, Stamped(m, clock)), true)
    else (Put(s, p.(active := true)), false)
  }

  function Without(queue: seq<Message>, id: string): seq<Message> {
    Filter(queue, (m: Message) => m.id != id)
  }

  function RemoveQueued(s: Session, id: string): Session {
    if s.pending.None? || id == "" then s
    else PutAndClearReplays(s, s.pending.value.(queue := Without(s.pending.value.queue, id)))
  }

  // The position of the first message called id, or -1.
  function Position(queue: seq<Message>, id: string): (r: int)
    ensures -1 <= r < |queue|
    ensures r >= 0 ==> queue[r].id == id && forall j | 0 <= j < r :: queue[j].id != id
    ensures r == -1 ==> forall j | 0 <= j < |queue| :: queue[j].id != id
  {
    if queue == [] then -1
    else if queue[0].id == id then 0
    else var r := Position(queue[1..], id); if r < 0 then -1 else r + 1
  }

  function UpdateQueued(s: Session, id: string, content: string): Session {
    if s.pending.None? || id == "" then s
    else
      var p := s.pending.value;
      var i := Position(p.queue, id);
      PutAndClearReplays(s, if i < 0 then p else p.(queue := p.queue[i := p.queue[i].(content := content)]))
  }

  function Freeze(s: Session): (Session, bool) {
    if Queue(s) == [] then (s, false) else (Put(s, s.pending.value.(frozen := true)), true)
  }

  function Unfreeze(s: Session): (Session, bool) {
    if !Frozen(s) then (s, false) else (Put(s, s.pending.value.(frozen := false)), true)
  }

  // Hands out the head of the queue, or the message called queueID, if no turn is running.
  function Pop(s: Session, queueID: string): (Session, Option<Message>) {
    if Queue(s) == [] || Active(s) then (s, None)
    else
      var p := s.pending.value;
      var trimmed := TrimSpace(queueID);
      var i := if trimmed != "" then Position(p.queue, trimmed) else if p.frozen then -1 else 0;
      if i < 0 then (s, None)
      else (PutAndClearReplays(s, p.(active := true, queue := p.queue[..i] + p.queue[i + 1..])), Some(p.queue[i]))
  }

  lemma PopHead(s: Session)
    ensures TrimSpace("") == ""
    ensures Queue(s) != [] && !Frozen(s) && !Active(s) ==>
              Pop(s, "").1 == Some(Queue(s)[0]) && Queue(Pop(s, "").0) == Queue(s)[1..] && Active(Pop(s, "").0) &&
              Pop(s, "").0.pending.value.turnID == s.pending.value.turnID
    ensures Queue(s) == [] || Frozen(s) || Active(s) ==> Pop(s, "") == (s, None)
  {
    if Queue(s) != [] && !Frozen(s) && !Active(s) {
      assert Queue(s)[..0] + Queue(s)[1..] == Queue(s)[1..];
    }
  }

  function ToFront(queue: seq<Message>, i: nat): seq<Message>
    requires i < |queue|
  {
    [queue[i]] + queue[..i] + queue[i + 1..]
  }

  function Promote(s: Session, queueID: string): (Session, bool) {
    if Queue(s) == [] || TrimSpace(queueID) == "" then (s, false)
    else
      var p := s.pending.value;
      var i := Position(p.queue, queueID);
      if i < 0 then (s, false)
      else (PutAndClearReplays(s, p.(frozen := false, queue := ToFront(p.queue, i))), true)
  }

  // The first message called id is at i.
  predicate FirstCalled(queue: seq<Message>, id: string, i: nat) {
    i < |queue| && queue[i].id == id && forall j | 0 <= j < i :: queue[j].id != id
  }

  /** A promotion succeeds exactly for an id that is not blank and is in the queue. It unfreezes the queue, and from an
      idle session the next pop grants the first message called so. */
  lemma PromoteGrants(s: Session, id: string, i: nat)
    requires FirstCalled(Queue(s), id, i)
    ensures Promote(s, id).1 <==> !Blank(id)
    ensures Promote(s, id).1 ==> !Frozen(Promote(s, id).0) && Active(Promote(s, id).0) == Active(s)
    ensures Promote(s, id).1 && !Active(s) ==>
      Pop(Promote(s, id).0, "").1 == Some(Queue(s)[i]) && Active(Pop(Promote(s, id).0, "").0)
  {
    PopHead(Promote(s, id).0);
  }

  // ---- turns ----

  function StartTurn(s: Session, turnID: string, userSeq: int, content: string): Session {
    var p := Ensured(s.pending);
    PutAndClearReplays(s, p.(active := true, user := Some(content), buffer := [], turnID := turnID, awaiting := false,
                             base := if userSeq > 0 then userSeq else 0, nextSeq := 0))
  }

  function MarkAwaiting(s: Session, awaiting: bool): Session {
    if awaiting then Put(s, Ensured(s.pending).(awaiting := true))
    else if s.pending.None? then s
    else
      var p := s.pending.value;
      if !p.active && p.queue == [] then s.(pending := None, replay := map[])
      else Put(s, p.(awaiting := false))
  }

  predicate TurnIDMatches(s: Session, turnID: string) {
    s.pending.None? || turnID == "" || s.pending.value.turnID == "" || s.pending.value.turnID == turnID
  }

  function Idle(p: Pending): Pending {
    p.(active := false, user := None, buffer := [])
  }

  function ClearPending(s: Session, turnID: string): Session {
    if s.pending.None? || !TurnIDMatches(s, turnID) then s
    else
      var p := s.pending.value;
      if p.awaiting || p.queue != [] then PutAndClearReplays(s, Idle(p))
      else s.(pending := None, replay := map[])
  }

  // ---- events and replay ----

  // slot is the buffered event that absorbs this one, when the hub coalesces it.
  function AppendEvent(s: Session, event: StreamEvent, slot: Option<nat>): (Session, StreamEvent) {
    var p := Ensured(s.pending);
    var n := if p.nextSeq == MAX_UINT then 0 else p.nextSeq + 1; // a uint64 counter
    var stored := event.(cursor := FormatCursor(p.base, n),
                         turnID := if Blank(event.turnID) then p.turnID else event.turnID);
    var buffer :=
      if slot.Some? && slot.value < |p.buffer| && p.buffer[slot.value].kind == stored.kind
      then p.buffer[slot.value := stored.(parts := p.buffer[slot.value].parts + stored.parts)]
      else p.buffer + [stored];
    (Put(s, p.(nextSeq := n, buffer := buffer)), stored)
  }

  function EventSeq(e: StreamEvent): nat {
    match ParseCursor(e.cursor)
    case Some(c) => c.seqNo
    case None => 0
  }

  predicate AboveMark(e: StreamEvent, base: nat, mark: nat) {
    var c := ParseCursor(e.cursor);
    c.Some? && c.value.base == base && c.value.seqNo > mark
  }

  function SelectAbove(events: seq<StreamEvent>, base: nat, mark: nat): seq<StreamEvent> {
    Filter(events, (e: StreamEvent) => AboveMark(e, base, mark))
  }

  predicate SeqLeq(a: StreamEvent, b: StreamEvent) {
    EventSeq(a) <= EventSeq(b)
  }

  // sort.SliceStable by event number
  function SortBySeq(events: seq<StreamEvent>): seq<StreamEvent> {
    StableSort(events, SeqLeq)
  }

  function BeginReplay(s: Session, client: string): Session {
    s.(replay := s.replay[client := ReplayState(false, 0)])
  }

  datatype DrainResult = DrainResult(session: Session, events: seq<StreamEvent>, live: bool)

  // One round of the drain loop: the events above the client's mark, or the flip to live.
  function DrainStep(s: Session, client: string): DrainResult {
    if client !in s.replay then DrainResult(s, [], true)
    else
      var r := s.replay[client];
      var events := if s.pending.None? then [] else SelectAbove(s.pending.value.buffer, s.pending.value.base, r.mark);
      if events == [] then DrainResult(s.(replay := s.replay[client := r.(live := true)]), [], true)
      else
        DrainResult(s.(replay := s.replay[client := r.(mark := MaxBy(events, EventSeq, r.mark))]), SortBySeq(events), false)
  }

  predicate Replaying(s: Session, client: string) {
    client in s.replay && !s.replay[client].live
  }

  // The clients a live broadcast goes to.
  function LiveTargets(s: Session): set<string> {
    set c | c in s.bound && !Replaying(s, c)
  }

  function Bind(s: Session, client: string): Session {
    s.(bound := s.bound + {client})
  }

  function Unregister(s: Session, client: string): Session {
    s.(bound := s.bound - {client}, replay := s.replay - {client})
  }

  // ---- any hub step at all, for statements over whole runs ----

  datatype Op =
    | OpReserve(message: Message, clock: string)
    | OpRemove(id: string)
    | OpUpdate(id: string, content: string)
    | OpFreeze
    | OpUnfreeze
    | OpPop(id: string)
    | OpPromote(id: string)
    | OpStartTurn(turnID: string, userSeq: int, content: string)
    | OpAwaiting(awaiting: bool)
    | OpClear(turnID: string)
    | OpAppend(event: StreamEvent, slot: Option<nat>)
    | OpBeginReplay(client: string)
    | OpDrain(client: string)
    | OpBind(client: string)
    | OpUnregister(client: string)

  function Apply(s: Session, op: Op): Session {
    match op
    case OpReserve(m, clock) => ReserveOrQueue(s, m, clock).0
    case OpRemove(id) => RemoveQueued(s, id)
    case OpUpdate(id, content) => UpdateQueued(s, id, content)
    case OpFreeze => Freeze(s).0
    case OpUnfreeze => Unfreeze(s).0
    case OpPop(id) => Pop(s, id).0
    case OpPromote(id) => Promote(s, id).0
    case OpStartTurn(turnID, userSeq, content) => StartTurn(s, turnID, userSeq, content)
    case OpAwaiting(awaiting) => MarkAwaiting(s, awaiting)
    case OpClear(turnID) => ClearPending(s, turnID)
    case OpAppend(event, slot) => AppendEvent(s, event, slot).0
    case OpBeginReplay(client) => BeginReplay(s, client)
    case OpDrain(client) => DrainStep(s, client).session
    case OpBind(client) => Bind(s, client)
    case OpUnregister(client) => Unregister(s, client)
  }

  function ApplyAll(s: Session, ops: seq<Op>): Session
    decreases |ops|
  {
    if ops == [] then s else ApplyAll(Apply(s, ops[0]), ops[1..])
  }
}
