/** What one section of the agent pool under its mutex does to the session table. */
module PoolState {
  import opened Text
  import opened LockOrder

  // A session key together with the agent it is always opened for.
  datatype SessionKey = SessionKey(name: string, agent: string)

  // The configured agents with their resolved protocols; fixed for the life of the pool.
  type Config = map<string, string>

  // id tells entries apart (the source compares pointers); round counts how often the entry was marked
  // closing, so that Gate(id, round) names the channel a marking creates.
  datatype Entry = Entry(id: nat, group: Group, uses: nat, closing: bool, round: nat)

  datatype Gate = Gate(entry: nat, round: nat)

  datatype Pool = Pool(sessions: map<SessionKey, Entry>, closed: bool, nextID: nat, openGates: set<Gate>)

  const EMPTY_POOL := Pool(map[], false, 0, {})

  const CLAUDE_SDK := "claude-sdk"
  const CODEX_SDK := "codex-sdk"
  const ACP := "acp"

  function GroupOf(cfg: Config, key: SessionKey): Group {
    Group(if key.agent in cfg then cfg[key.agent] else "", key.agent)
  }

  predicate Current(p: Pool, key: SessionKey, id: nat) {
    key in p.sessions && p.sessions[key].id == id
  }

  // ---- opening ----

  datatype LookupResult = PoolClosed | Closing(gate: Gate) | Found(id: nat) | NotConfigured | Missing(group: Group)

  // GetOrCreate up to its first unlock.
  function Lookup(p: Pool, cfg: Config, key: SessionKey): LookupResult {
    if p.closed then PoolClosed
    else if key in p.sessions then
      var e := p.sessions[key];
      if e.closing then Closing(Gate(e.id, e.round)) else Found(e.id)
    else if key.agent !in cfg then NotConfigured
    else Missing(GroupOf(cfg, key))
  }

  datatype RecheckResult = RecheckClosed | Present(id: nat) | Absent

  // The second look, under the group's runtime lock; it does not test `closing`.
  function Recheck(p: Pool, key: SessionKey): RecheckResult {
    if p.closed then RecheckClosed
    else if key in p.sessions then Present(p.sessions[key].id)
    else Absent
  }

  // The last section of GetOrCreate, after openSession succeeded.
  function Install(p: Pool, key: SessionKey, group: Group): (Pool, RecheckResult) {
    if p.closed then (p, RecheckClosed)
    else if key in p.sessions then (p, Present(p.sessions[key].id))
    else (p.(sessions := p.sessions[key := Entry(p.nextID, group, 0, false, 0)], nextID := p.nextID + 1),
          Present(p.nextID))
  }

  // ---- use counting ----

  function BeginUse(p: Pool, key: SessionKey): (Pool, Option<nat>) {
    if key !in p.sessions || p.sessions[key].closing then (p, None)
    else
      var e := p.sessions[key];
      (p.(sessions := p.sessions[key := e.(uses := e.uses + 1)]), Some(e.id))
  }

  function EndUse(p: Pool, key: SessionKey, id: nat): Pool {
    if !Current(p, key, id) then p
    else
      var e := p.sessions[key];
      p.(sessions := p.sessions[key := e.(uses := if e.uses > 0 then e.uses - 1 else 0)])
  }

  // ---- taking and releasing ----

  function Take(p: Pool, keys: set<SessionKey>): Pool {
    p.(sessions := p.sessions - keys)
  }

  function KeysOfGroup(p: Pool, group: Group): set<SessionKey> {
    set k | k in p.sessions && p.sessions[k].group == group
  }

  predicate IdleEntry(e: Entry) {
    !e.closing && e.uses == 0
  }

  // The groups a release pass will lock; eligible is what the idle time allows.
  function IdleGroups(p: Pool, eligible: set<SessionKey>): set<Group> {
    set k | k in p.sessions && k in eligible && IdleEntry(p.sessions[k]) :: p.sessions[k].group
  }

  function Markable(p: Pool, groups: set<Group>, eligible: set<SessionKey>): set<SessionKey> {
    set k | k in p.sessions && k in eligible && IdleEntry(p.sessions[k]) && p.sessions[k].group in groups
  }

  function Mark(e: Entry): Entry {
    e.(closing := true, round := e.round + 1)
  }

  function MarkClosing(p: Pool, keys: set<SessionKey>): Pool {
    p.(sessions := map k | k in p.sessions :: if k in keys then Mark(p.sessions[k]) else p.sessions[k])
  }

  // An entry its releaser is closing.
  datatype Item = Item(key: SessionKey, gate: Gate)

  function Marked(p: Pool, keys: set<SessionKey>): set<Item> {
    set k | k in p.sessions && k in keys :: Item(k, Gate(p.sessions[k].id, p.sessions[k].round))
  }

  // After session.Close(): the entry goes, or becomes usable again when closing failed; the gate opens.
  function FinishClose(p: Pool, item: Item, ok: bool): Pool {
    var p' := p.(openGates := p.openGates + {item.gate});
    if !Current(p, item.key, item.gate.entry) then p'
    else if ok then p'.(sessions := p.sessions - {item.key})
    else p'.(sessions := p.sessions[item.key := p.sessions[item.key].(closing := false)])
  }

  function Shutdown(p: Pool): Pool {
    p.(closed := true)
  }
}
