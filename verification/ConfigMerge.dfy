/** Merging layers of agent configuration: installed defaults, user layer, extra layer. */
module ConfigMerge {
  import opened Text

  datatype Definition = Definition(
    name: string,
    brief: string,
    command: string,
    protocol: string,
    args: seq<string>,
    env: map<string, string>,
    fileSources: seq<string>,
    envKeys: seq<string>,
    installCommands: seq<string>,
    updateCommands: seq<string>,
    cwdTemplate: string,
    probeArgs: seq<string>)

  datatype Shell = Shell(name: string, command: string, args: seq<string>, longShellArgs: seq<string>,
                         commandPrefix: string, os: seq<string>)

  datatype Config = Config(agents: seq<Definition>, shells: seq<Shell>)

  // The override unless it is empty.
  function Prefer<T>(base: seq<T>, override: seq<T>): seq<T> {
    if |override| == 0 then base else override
  }

  function MergeDefinition(base: Definition, override: Definition): Definition {
    Definition(
      override.name,
      Prefer(base.brief, override.brief),
      Prefer(base.command, override.command),
      Prefer(base.protocol, override.protocol),
      Prefer(base.args, override.args),
      if |override.env| == 0 then base.env else override.env,
      Prefer(base.fileSources, override.fileSources),
      Prefer(base.envKeys, override.envKeys),
      Prefer(base.installCommands, override.installCommands),
      Prefer(base.updateCommands, override.updateCommands),
      Prefer(base.cwdTemplate, override.cwdTemplate),
      Prefer(base.probeArgs, override.probeArgs))
  }

  // ---- agents ----

  // The last entry with a name, which is the one the index map remembers; -1 when there is none.
  function LastIndex(agents: seq<Definition>, name: string): (i: int)
    ensures -1 <= i < |agents| && (i >= 0 ==> agents[i].name == name)
    ensures forall k | i < k < |agents| :: agents[k].name != name
  {
    if agents == [] then -1
    else if agents[|agents| - 1].name == name then |agents| - 1
    else LastIndex(agents[..|agents| - 1], name)
  }

  function Upsert(agents: seq<Definition>, d: Definition): seq<Definition> {
    var i := LastIndex(agents, d.name);
    if i < 0 then agents + [d] else agents[i := MergeDefinition(agents[i], d)]
  }

  function MergeAgents(base: seq<Definition>, override: seq<Definition>): seq<Definition> {
    if override == [] then base
    else Upsert(MergeAgents(base, override[..|override| - 1]), override[|override| - 1])
  }

  // ---- shells ----

  // shellMergeKey; lower is strings.ToLower's mapping of one rune.
  function ShellKey(shell: Shell, lower: CaseMap): string {
    Mapped(TrimSpace(shell.command), lower)
  }

  function KeysOf(shells: seq<Shell>, lower: CaseMap): set<string> {
    set s | s in shells && ShellKey(s, lower) != "" :: ShellKey(s, lower)
  }

  // The shells whose keys are neither empty nor seen before.
  function Unseen(shells: seq<Shell>, seen: set<string>, lower: CaseMap): seq<Shell> {
    if shells == [] then []
    else
      var key := ShellKey(shells[0], lower);
      if key == "" || key in seen then Unseen(shells[1..], seen, lower)
      else [shells[0]] + Unseen(shells[1..], seen + {key}, lower)
  }

  function MergeShells(base: seq<Shell>, override: seq<Shell>, lower: CaseMap): seq<Shell> {
    if override == [] then base else override + Unseen(base, KeysOf(override, lower), lower)
  }

  function MergeConfigs(base: Config, override: Config, lower: CaseMap): Config {
    Config(MergeAgents(base.agents, override.agents), MergeShells(base.shells, override.shells, lower))
  }

  // ---- the loops ----

  ghost predicate Remembers(indexes: map<string, nat>, agents: seq<Definition>) {
    forall n :: (n in indexes <==> LastIndex(agents, n) >= 0) && (n in indexes ==> indexes[n] == LastIndex(agents, n))
  }

  lemma RememberOneMore(indexes: map<string, nat>, agents: seq<Definition>, d: Definition)
    requires Remembers(indexes, agents)
    ensures Remembers(indexes[d.name := |agents|], agents + [d])
  {
    assert (agents + [d])[..|agents|] == agents;
  }

  lemma SameNames(agents: seq<Definition>, i: nat, d: Definition, name: string)
    requires i < |agents| && agents[i].name == d.name
    ensures LastIndex(agents[i := d], name) == LastIndex(agents, name)
  {
    var changed := agents[i := d];
    assert forall k | 0 <= k < |agents| :: changed[k].name == agents[k].name;
  }

  method MergeAgentLists(base: seq<Definition>, override: seq<Definition>) returns (merged: seq<Definition>)
    ensures merged == MergeAgents(base, override)
  {
    merged := base;
    var indexes: map<string, nat> := map[];
    for i := 0 to |merged|
      invariant Remembers(indexes, merged[..i])
    {
      RememberOneMore(indexes, merged[..i], merged[i]);
      assert merged[..i] + [merged[i]] == merged[..i + 1];
      indexes := indexes[merged[i].name := i];
    }
    assert merged[..|merged|] == merged;
    for k := 0 to |override|
      invariant merged == MergeAgents(base, override[..k]) && Remembers(indexes, merged)
    {
      var agent := override[k];
      assert override[..k + 1][..k] == override[..k];
      if agent.name in indexes {
        var index := indexes[agent.name];
        var combined := MergeDefinition(merged[index], agent);
        forall n ensures LastIndex(merged[index := combined], n) == LastIndex(merged, n) {
          SameNames(merged, index, combined, n);
        }
        merged := merged[index := combined];
      } else {
        RememberOneMore(indexes, merged, agent);
        indexes := indexes[agent.name := |merged|];
        merged := merged + [agent];
      }
    }
    assert override[..|override|] == override;
  }

  method MergeShellLists(base: seq<Shell>, override: seq<Shell>, lower: CaseMap) returns (merged: seq<Shell>)
    ensures merged == MergeShells(base, override, lower)
  {
    if |override| == 0 {
      return base;
    }
    merged := override;
    var indexes: set<string> := {};
    for i := 0 to |merged|
      invariant indexes == KeysOf(merged[..i], lower)
    {
      var key := ShellKey(merged[i], lower);
      if key != "" {
        indexes := indexes + {key};
      }
      assert merged[..i + 1] == merged[..i] + [merged[i]];
    }
    assert merged[..|merged|] == merged;
    for k := 0 to |base|
      invariant merged + Unseen(base[k..], indexes, lower) == override + Unseen(base, KeysOf(override, lower), lower)
    {
      var key := ShellKey(base[k], lower);
      assert base[k..][0] == base[k] && base[k..][1..] == base[k + 1..];
      if key == "" || key in indexes {
        continue;
      }
      assert merged + ([base[k]] + Unseen(base[k + 1..], indexes + {key}, lower)) ==
             (merged + [base[k]]) + Unseen(base[k + 1..], indexes + {key}, lower);
      indexes := indexes + {key};
      merged := merged + [base[k]];
    }
  }

  method MergeConfigLayers(base: Config, override: Config, lower: CaseMap) returns (merged: Config)
    ensures merged == MergeConfigs(base, override, lower)
  {
    var shells := base.shells;
    if |override.shells| > 0 {
      shells := MergeShellLists(base.shells, override.shells, lower);
    }
    var agents := MergeAgentLists(base.agents, override.agents);
    merged := Config(agents, shells);
  }

  // ---- associativity ----

  lemma DefinitionsAssociate(a: Definition, b: Definition, c: Definition)
    ensures MergeDefinition(MergeDefinition(a, b), c) == MergeDefinition(a, MergeDefinition(b, c))
  {
  }

  // An update that finds its entry does not mind whether entries of other names were updated before or after.
  lemma UpdatesCommute(x: seq<Definition>, d: Definition, e: Definition)
    requires d.name != e.name && LastIndex(x, d.name) >= 0
    ensures Upsert(Upsert(x, d), e) == Upsert(Upsert(x, e), d)
  {
    hide LastIndex, MergeDefinition;
    var i, j := LastIndex(x, d.name), LastIndex(x, e.name);
    var md := MergeDefinition(x[i], d);
    MergedName(x[i], d);
    SameNames(x, i, md, e.name);
    if j >= 0 {
      var me := MergeDefinition(x[j], e);
      MergedName(x[j], e);
      SameNames(x, j, me, d.name);
      assert x[i := md][j := me] == x[j := me][i := md];
    } else {
      AppendKeepsIndex(x, e, d.name);
      assert x[i := md] + [e] == (x + [e])[i := md];
    }
  }

  lemma MergedName(base: Definition, override: Definition)
    ensures MergeDefinition(base, override).name == override.name
  {
  }

  lemma AppendKeepsIndex(x: seq<Definition>, e: Definition, name: string)
    requires e.name != name
    ensures LastIndex(x + [e], name) == LastIndex(x, name)
  {
    assert (x + [e])[..|x|] == x;
  }

  lemma KeepsName(x: seq<Definition>, d: Definition, name: string)
    requires LastIndex(x, name) >= 0
    ensures LastIndex(Upsert(x, d), name) >= 0
  {
    var i := LastIndex(x, d.name);
    if i >= 0 {
      SameNames(x, i, MergeDefinition(x[i], d), name);
    } else {
      assert (x + [d])[..|x|] == x;
    }
  }

  lemma {:induction false} MergeKeepsName(x: seq<Definition>, rest: seq<Definition>, name: string)
    requires LastIndex(x, name) >= 0
    ensures LastIndex(MergeAgents(x, rest), name) >= 0
  {
    if rest != [] {
      MergeKeepsName(x, rest[..|rest| - 1], name);
      KeepsName(MergeAgents(x, rest[..|rest| - 1]), rest[|rest| - 1], name);
    }
  }

  lemma {:induction false} UpdatePassesOthers(x: seq<Definition>, d: Definition, rest: seq<Definition>)
    requires LastIndex(x, d.name) >= 0 && forall r | r in rest :: r.name != d.name
    ensures MergeAgents(Upsert(x, d), rest) == Upsert(MergeAgents(x, rest), d)
  {
    if rest != [] {
      var before, last := rest[..|rest| - 1], rest[|rest| - 1];
      UpdatePassesOthers(x, d, before);
      MergeKeepsName(x, before, d.name);
      UpdatesCommute(MergeAgents(x, before), d, last);
    }
  }

  // Merging an entry and then its update is merging the updated entry.
  lemma UpdateTwice(x: seq<Definition>, e: Definition, d: Definition)
    requires e.name == d.name
    ensures Upsert(Upsert(x, e), d) == Upsert(x, MergeDefinition(e, d))
    ensures LastIndex(Upsert(x, e), e.name) >= 0
  {
    var i := LastIndex(x, e.name);
    if i >= 0 {
      SameNames(x, i, MergeDefinition(x[i], e), e.name);
      DefinitionsAssociate(x[i], e, d);
    } else {
      var y := x + [e];
      assert LastIndex(y, d.name) == |x|;
    }
  }

  lemma {:induction false} MergeOfJoin(x: seq<Definition>, a: seq<Definition>, b: seq<Definition>)
    ensures MergeAgents(x, a + b) == MergeAgents(MergeAgents(x, a), b)
  {
    if b == [] {
      assert a + b == a;
    } else {
      assert (a + b)[..|a + b| - 1] == a + b[..|b| - 1];
      MergeOfJoin(x, a, b[..|b| - 1]);
    }
  }

  lemma MergeOfAppend(a: seq<Definition>, l: seq<Definition>, d: Definition)
    ensures MergeAgents(a, l + [d]) == Upsert(MergeAgents(a, l), d)
  {
    hide Upsert;
    assert (l + [d])[..|l|] == l;
  }

  lemma UpdateParts<T>(l: seq<T>, i: nat, x: T)
    requires i < |l|
    ensures l == (l[..i] + [l[i]]) + l[i + 1..] && l[i := x] == (l[..i] + [x]) + l[i + 1..]
  {
  }

  lemma UpsertParts(l: seq<Definition>, d: Definition, i: nat)
    requires i == LastIndex(l, d.name)
    ensures l == (l[..i] + [l[i]]) + l[i + 1..]
    ensures Upsert(l, d) == (l[..i] + [MergeDefinition(l[i], d)]) + l[i + 1..]
  {
    hide MergeDefinition, LastIndex;
    var x := MergeDefinition(l[i], d);
    UpdateParts(l, i, x);
    assert Upsert(l, d) == l[i := x];
    hide Upsert;
  }

  lemma MergeOfUpsert(a: seq<Definition>, l: seq<Definition>, d: Definition)
    ensures MergeAgents(a, Upsert(l, d)) == Upsert(MergeAgents(a, l), d)
  {
    var i := LastIndex(l, d.name);
    if i < 0 {
      MergeOfAppend(a, l, d);
    } else {
      hide MergeAgents, Upsert, MergeDefinition, LastIndex;
      var front, e, rest := l[..i], l[i], l[i + 1..];
      var x, md := MergeAgents(a, front), MergeDefinition(e, d);
      UpsertParts(l, d, i);
      MergeOfJoin(a, front + [e], rest);
      MergeOfJoin(a, front + [md], rest);
      MergeOfAppend(a, front, e);
      MergeOfAppend(a, front, md);
      UpdateTwice(x, e, d);
      UpdatePassesOthers(Upsert(x, e), d, rest);
    }
  }

  lemma {:induction false} AgentsAssociate(a: seq<Definition>, b: seq<Definition>, c: seq<Definition>)
    ensures MergeAgents(MergeAgents(a, b), c) == MergeAgents(a, MergeAgents(b, c))
  {
    if c != [] {
      var before, last := c[..|c| - 1], c[|c| - 1];
      AgentsAssociate(a, b, before);
      MergeOfUpsert(a, MergeAgents(b, before), last);
    }
  }

  lemma {:induction false} UnseenKeys(shells: seq<Shell>, seen: set<string>, lower: CaseMap)
    ensures KeysOf(Unseen(shells, seen, lower), lower) == KeysOf(shells, lower) - seen
  {
    if shells != [] {
      var key := ShellKey(shells[0], lower);
      var rest := shells[1..];
      assert KeysOf(shells, lower) == KeysOf(rest, lower) + (if key == "" then {} else {key}) by {
        assert shells == [shells[0]] + rest;
      }
      if key == "" || key in seen {
        UnseenKeys(rest, seen, lower);
      } else {
        UnseenKeys(rest, seen + {key}, lower);
        KeysOfCons(shells[0], Unseen(rest, seen + {key}, lower), lower);
      }
    }
  }

  lemma KeysOfCons(s: Shell, rest: seq<Shell>, lower: CaseMap)
    ensures KeysOf([s] + rest, lower) ==
      KeysOf(rest, lower) + if ShellKey(s, lower) == "" then {} else {ShellKey(s, lower)}
  {
    assert s in [s] + rest;
    assert forall r | r in rest :: r in [s] + rest;
  }

  lemma KeysOfJoin(a: seq<Shell>, b: seq<Shell>, lower: CaseMap)
    ensures KeysOf(a + b, lower) == KeysOf(a, lower) + KeysOf(b, lower)
  {
    assert forall s :: s in a + b <==> s in a || s in b;
  }

  lemma {:induction false} UnseenOfJoin(a: seq<Shell>, b: seq<Shell>, seen: set<string>, lower: CaseMap)
    ensures Unseen(a + b, seen, lower) == Unseen(a, seen, lower) + Unseen(b, seen + KeysOf(a, lower), lower)
  {
    hide ShellKey, KeysOf;
    if a == [] {
      NoKeys(lower);
      assert a + b == b && seen + {} == seen;
    } else {
      assert (a + b)[1..] == a[1..] + b;
      var key := ShellKey(a[0], lower);
      KeysOfCons(a[0], a[1..], lower);
      assert [a[0]] + a[1..] == a;
      if key == "" || key in seen {
        UnseenOfJoin(a[1..], b, seen, lower);
        assert seen + KeysOf(a, lower) == seen + KeysOf(a[1..], lower);
      } else {
        UnseenOfJoin(a[1..], b, seen + {key}, lower);
        assert seen + KeysOf(a, lower) == seen + {key} + KeysOf(a[1..], lower);
      }
    }
  }

  lemma NoKeys(lower: CaseMap)
    ensures KeysOf([], lower) == {}
  {
  }

  // Filtering what was filtered by fewer keys.
  lemma {:induction false} UnseenTwice(shells: seq<Shell>, small: set<string>, big: set<string>, lower: CaseMap)
    requires small <= big
    ensures Unseen(Unseen(shells, small, lower), big, lower) == Unseen(shells, big, lower)
  {
    if shells != [] {
      var key := ShellKey(shells[0], lower);
      if key == "" || key in small {
        UnseenTwice(shells[1..], small, big, lower);
      } else {
        var kept := Unseen(shells[1..], small + {key}, lower);
        assert ([shells[0]] + kept)[1..] == kept;
        UnseenTwice(shells[1..], small + {key}, big + {key}, lower);
        if key in big {
          assert big + {key} == big;
        }
      }
    }
  }

  lemma ThreeShellLayers(a: seq<Shell>, b: seq<Shell>, c: seq<Shell>, lower: CaseMap)
    ensures var kb, kc := KeysOf(b, lower), KeysOf(c, lower);
      c + Unseen(b + Unseen(a, kb, lower), kc, lower) ==
      (c + Unseen(b, kc, lower)) + Unseen(a, KeysOf(c + Unseen(b, kc, lower), lower), lower)
  {
    hide Unseen, KeysOf;
    var kb, kc := KeysOf(b, lower), KeysOf(c, lower);
    UnseenOfJoin(b, Unseen(a, kb, lower), kc, lower);
    UnseenTwice(a, kb, kc + kb, lower);
    KeysOfJoin(c, Unseen(b, kc, lower), lower);
    UnseenKeys(b, kc, lower);
    assert kc + (kb - kc) == kc + kb;
    assert c + (Unseen(b, kc, lower) + Unseen(a, kc + kb, lower)) ==
      (c + Unseen(b, kc, lower)) + Unseen(a, kc + kb, lower);
  }

  lemma ShellsAssociate(a: seq<Shell>, b: seq<Shell>, c: seq<Shell>, lower: CaseMap)
    ensures MergeShells(MergeShells(a, b, lower), c, lower) == MergeShells(a, MergeShells(b, c, lower), lower)
  {
    if c != [] {
      if b == [] {
        assert Unseen(b, KeysOf(c, lower), lower) == [] && c + [] == c;
      } else {
        hide Unseen, KeysOf;
        ThreeShellLayers(a, b, c, lower);
      }
    }
  }

  // The same command but for white space around it and the mapping of its letters.
  predicate SameCommand(a: Shell, b: Shell, lower: CaseMap) {
    var x, y := TrimSpace(a.command), TrimSpace(b.command);
    |x| == |y| && forall k | 0 <= k < |x| :: lower(x[k]) == lower(y[k])
  }

  lemma SameKey(a: Shell, b: Shell, lower: CaseMap)
    ensures ShellKey(a, lower) == ShellKey(b, lower) <==> SameCommand(a, b, lower)
    ensures ShellKey(a, lower) == "" <==> Blank(a.command)
  {
    MappedAt(TrimSpace(a.command), lower);
    MappedAt(TrimSpace(b.command), lower);
    var x, y := ShellKey(a, lower), ShellKey(b, lower);
    if SameCommand(a, b, lower) {
      assert forall k | 0 <= k < |x| :: x[k] == y[k];
    }
    hide TrimSpace, Mapped;
  }

  // The base shell at i has a command that neither the override nor an earlier base shell has.
  predicate IsNew(base: seq<Shell>, override: seq<Shell>, i: nat, lower: CaseMap)
    requires i < |base|
  {
    && !Blank(base[i].command)
    && (forall j | 0 <= j < |override| :: !SameCommand(override[j], base[i], lower))
    && (forall j | 0 <= j < i :: !SameCommand(base[j], base[i], lower))
  }

  // The new ones among the first n base shells, in order.
  function NewOnes(base: seq<Shell>, override: seq<Shell>, n: nat, lower: CaseMap): seq<Shell>
    requires n <= |base|
  {
    if n == 0 then []
    else NewOnes(base, override, n - 1, lower) + if IsNew(base, override, n - 1, lower) then [base[n - 1]] else []
  }

  lemma NewIsUnseen(base: seq<Shell>, override: seq<Shell>, i: nat, lower: CaseMap)
    requires i < |base|
    ensures IsNew(base, override, i, lower) <==>
      ShellKey(base[i], lower) != "" && ShellKey(base[i], lower) !in KeysOf(override, lower) + KeysOf(base[..i], lower)
  {
    hide SameCommand, ShellKey, Blank;
    forall s ensures ShellKey(s, lower) == ShellKey(base[i], lower) <==> SameCommand(s, base[i], lower) {
      SameKey(s, base[i], lower);
    }
    SameKey(base[i], base[i], lower);
    var front := base[..i];
    assert forall j | 0 <= j < i :: front[j] == base[j];
    if ShellKey(base[i], lower) in KeysOf(front, lower) {
      var s :| s in front && ShellKey(s, lower) == ShellKey(base[i], lower);
      var j :| 0 <= j < i && front[j] == s;
      assert SameCommand(base[j], base[i], lower);
    }
    if ShellKey(base[i], lower) in KeysOf(override, lower) {
      var s :| s in override && ShellKey(s, lower) == ShellKey(base[i], lower);
      var j :| 0 <= j < |override| && override[j] == s;
      assert SameCommand(override[j], base[i], lower);
    }
  }

  lemma {:induction false} UnseenAreNew(base: seq<Shell>, override: seq<Shell>, n: nat, lower: CaseMap)
    requires n <= |base|
    ensures Unseen(base[..n], KeysOf(override, lower), lower) == NewOnes(base, override, n, lower)
  {
    if n > 0 {
      UnseenAreNew(base, override, n - 1, lower);
      var front, s := base[..n - 1], base[n - 1];
      assert base[..n] == front + [s];
      UnseenOfJoin(front, [s], KeysOf(override, lower), lower);
      NewIsUnseen(base, override, n - 1, lower);
      UnseenOne(s, KeysOf(override, lower) + KeysOf(front, lower), lower);
      hide Unseen, KeysOf, IsNew, ShellKey;
    }
  }

  lemma UnseenOne(s: Shell, seen: set<string>, lower: CaseMap)
    ensures Unseen([s], seen, lower) == if ShellKey(s, lower) == "" || ShellKey(s, lower) in seen then [] else [s]
  {
    assert [s][1..] == [];
  }

  /** Shell lists merge to the override's shells followed by exactly the base's new ones, in base order: those with a
      command that no shell of the override and no earlier one of the base has. An empty override leaves the base. */
  lemma ShellsMergeExactly(base: seq<Shell>, override: seq<Shell>, lower: CaseMap)
    ensures MergeShells(base, override, lower) ==
      if override == [] then base else override + NewOnes(base, override, |base|, lower)
  {
    UnseenAreNew(base, override, |base|, lower);
    assert base[..|base|] == base;
    hide Unseen, NewOnes, KeysOf;
  }

  /** So no layer's command is lost and none is made up: a command is in the merged list exactly if a layer has it. */
  lemma MergeKeepsCommands(base: seq<Shell>, override: seq<Shell>, x: Shell, lower: CaseMap)
    requires !Blank(x.command)
    ensures (exists s :: s in MergeShells(base, override, lower) && SameCommand(s, x, lower)) <==>
            (exists s :: s in base + override && SameCommand(s, x, lower))
  {
    hide SameCommand, ShellKey, Blank, Unseen;
    var merged := MergeShells(base, override, lower);
    CommandIsKey(merged, x, lower);
    CommandIsKey(base + override, x, lower);
    KeysOfJoin(base, override, lower);
    if override == [] {
      assert base + override == base;
    } else {
      UnseenKeys(base, KeysOf(override, lower), lower);
      KeysOfJoin(override, Unseen(base, KeysOf(override, lower), lower), lower);
    }
  }

  lemma CommandIsKey(shells: seq<Shell>, x: Shell, lower: CaseMap)
    requires !Blank(x.command)
    ensures (exists s :: s in shells && SameCommand(s, x, lower)) <==> ShellKey(x, lower) in KeysOf(shells, lower)
  {
    hide SameCommand, ShellKey, Blank;
    SameKey(x, x, lower);
    forall s ensures ShellKey(s, lower) == ShellKey(x, lower) <==> SameCommand(s, x, lower) {
      SameKey(s, x, lower);
    }
  }

  /** Three layers merge to the same configuration whichever two are merged first: same agent order, same
      field values, same shells. It holds for all layers, unique names or not. */
  lemma MergeIsAssociative(a: Config, b: Config, c: Config, lower: CaseMap)
    ensures MergeConfigs(MergeConfigs(a, b, lower), c, lower) == MergeConfigs(a, MergeConfigs(b, c, lower), lower)
  {
    AgentsAssociate(a.agents, b.agents, c.agents);
    ShellsAssociate(a.shells, b.shells, c.shells, lower);
  }

  // ---- what a merge yields ----

  function Find(agents: seq<Definition>, name: string): Option<Definition> {
    var i := LastIndex(agents, name);
    if i < 0 then None else Some(agents[i])
  }

  predicate UniqueNames(agents: seq<Definition>) {
    forall i, j | 0 <= i < j < |agents| :: agents[i].name != agents[j].name
  }

  lemma FindAfterUpsert(agents: seq<Definition>, d: Definition, name: string)
    ensures Find(Upsert(agents, d), name) ==
      if name != d.name then Find(agents, name)
      else if Find(agents, name).None? then Some(d)
      else Some(MergeDefinition(Find(agents, name).value, d))
  {
    var i := LastIndex(agents, d.name);
    if i >= 0 {
      SameNames(agents, i, MergeDefinition(agents[i], d), name);
    } else if name != d.name {
      AppendKeepsIndex(agents, d, name);
    }
  }

  /** Every agent of a merge is the lower layer's entry, the upper layer's, or the field-wise merge of the two
      when both layers have one. */
  lemma {:induction false} MergedAgent(base: seq<Definition>, override: seq<Definition>, name: string)
    requires UniqueNames(override)
    ensures var lower, upper := Find(base, name), Find(override, name);
      Find(MergeAgents(base, override), name) ==
        if upper.None? then lower
        else if lower.None? then upper
        else Some(MergeDefinition(lower.value, upper.value))
  {
    if override != [] {
      var before, last := override[..|override| - 1], override[|override| - 1];
      MergedAgent(base, before, name);
      FindAfterUpsert(MergeAgents(base, before), last, name);
    }
  }

  // An entry written to hold nothing but environment variables.
  predicate OnlyNameAndEnv(d: Definition) {
    d == Definition(d.name, "", "", "", [], d.env, [], [], [], [], "", [])
  }

  /** An entry with only a name and variables erases nothing of the layers below. */
  lemma EnvEntryErasesNothing(base: seq<Definition>, override: seq<Definition>, name: string)
    requires UniqueNames(override) && Find(base, name).Some? && Find(override, name).Some?
    requires OnlyNameAndEnv(Find(override, name).value)
    ensures var lower, upper := Find(base, name).value, Find(override, name).value;
      Find(MergeAgents(base, override), name) ==
        Some(lower.(name := upper.name, env := if |upper.env| == 0 then lower.env else upper.env))
  {
    MergedAgent(base, override, name);
  }

  function Names(agents: seq<Definition>): seq<string> {
    if agents == [] then [] else Names(agents[..|agents| - 1]) + [agents[|agents| - 1].name]
  }

  // Names in the order of their first appearance after those in `known`.
  function NewNames(known: seq<string>, agents: seq<Definition>): seq<string> {
    if agents == [] then known
    else
      var before := NewNames(known, agents[..|agents| - 1]);
      var name := agents[|agents| - 1].name;
      if name in before then before else before + [name]
  }

  lemma {:induction false} NamesAt(agents: seq<Definition>)
    ensures |Names(agents)| == |agents| && forall i | 0 <= i < |agents| :: Names(agents)[i] == agents[i].name
  {
    if agents != [] {
      NamesAt(agents[..|agents| - 1]);
    }
  }

  lemma SameNamesList(agents: seq<Definition>, i: nat, d: Definition)
    requires i < |agents| && agents[i].name == d.name
    ensures Names(agents[i := d]) == Names(agents)
  {
    NamesAt(agents);
    NamesAt(agents[i := d]);
  }

  lemma InNames(agents: seq<Definition>, name: string)
    ensures name in Names(agents) <==> LastIndex(agents, name) >= 0
  {
    NamesAt(agents);
    var i := LastIndex(agents, name);
    if i >= 0 {
      assert Names(agents)[i] == name;
    }
  }

  /** The agents keep the lower layer's order, and agents only the upper layer has follow in its order. */
  lemma {:induction false} MergeOrder(base: seq<Definition>, override: seq<Definition>)
    ensures Names(MergeAgents(base, override)) == NewNames(Names(base), override)
  {
    if override != [] {
      var before, last := override[..|override| - 1], override[|override| - 1];
      MergeOrder(base, before);
      var merged := MergeAgents(base, before);
      InNames(merged, last.name);
      var i := LastIndex(merged, last.name);
      if i >= 0 {
        SameNamesList(merged, i, MergeDefinition(merged[i], last));
      } else {
        assert (merged + [last])[..|merged|] == merged;
      }
    }
  }

  // ---- last non-empty wins ----

  // One agent's entries from the lowest to the highest layer, merged.
  function Stacked(layers: seq<Definition>): Definition
    requires layers != []
  {
    if |layers| == 1 then layers[0] else MergeDefinition(Stacked(layers[..|layers| - 1]), layers[|layers| - 1])
  }

  datatype TextField = Brief | Command | ProtocolField | CwdTemplate
  datatype ListField = Args | FileSources | EnvKeys | InstallCommands | UpdateCommands | ProbeArgs

  function TextOf(d: Definition, f: TextField): string {
    match f
    case Brief => d.brief
    case Command => d.command
    case ProtocolField => d.protocol
    case CwdTemplate => d.cwdTemplate
  }

  function ListOf(d: Definition, f: ListField): seq<string> {
    match f
    case Args => d.args
    case FileSources => d.fileSources
    case EnvKeys => d.envKeys
    case InstallCommands => d.installCommands
    case UpdateCommands => d.updateCommands
    case ProbeArgs => d.probeArgs
  }

  // The last of these values that is not empty, or empty when all are.
  ghost predicate IsLastNonEmpty<T(!new)>(values: seq<seq<T>>, v: seq<T>) {
    || (exists i :: 0 <= i < |values| && values[i] == v && v != [] && forall j | i < j < |values| :: values[j] == [])
    || (v == [] && forall j | 0 <= j < |values| :: values[j] == [])
  }

  lemma LastNonEmptyOf<T(!new)>(values: seq<seq<T>>, v: seq<T>, next: seq<T>)
    requires IsLastNonEmpty(values, v)
    ensures IsLastNonEmpty(values + [next], Prefer(v, next))
  {
    var all := values + [next];
    assert all[|values|] == next;
    assert forall j | 0 <= j < |values| :: all[j] == values[j];
  }

  function TextColumn(layers: seq<Definition>, f: TextField): (c: seq<string>)
    ensures |c| == |layers| && forall i | 0 <= i < |layers| :: c[i] == TextOf(layers[i], f)
  {
    if layers == [] then [] else TextColumn(layers[..|layers| - 1], f) + [TextOf(layers[|layers| - 1], f)]
  }

  function ListColumn(layers: seq<Definition>, f: ListField): (c: seq<seq<string>>)
    ensures |c| == |layers| && forall i | 0 <= i < |layers| :: c[i] == ListOf(layers[i], f)
  {
    if layers == [] then [] else ListColumn(layers[..|layers| - 1], f) + [ListOf(layers[|layers| - 1], f)]
  }

  /** Over any number of layers every text field has the value of the highest layer that gives one, and the
      name is the highest layer's. */
  lemma {:induction false} TextFromHighest(layers: seq<Definition>, f: TextField)
    requires layers != []
    ensures Stacked(layers).name == layers[|layers| - 1].name
    ensures IsLastNonEmpty(TextColumn(layers, f), TextOf(Stacked(layers), f))
  {
    hide IsLastNonEmpty;
    var last := |layers| - 1;
    if last > 0 {
      TextFromHighest(layers[..last], f);
      LastNonEmptyOf(TextColumn(layers[..last], f), TextOf(Stacked(layers[..last]), f), TextOf(layers[last], f));
    } else {
      OneValue(TextOf(layers[0], f));
      assert TextColumn(layers, f) == [TextOf(layers[0], f)];
    }
  }

  /** The same for the list fields. */
  lemma {:induction false} ListFromHighest(layers: seq<Definition>, f: ListField)
    requires layers != []
    ensures IsLastNonEmpty(ListColumn(layers, f), ListOf(Stacked(layers), f))
  {
    hide IsLastNonEmpty;
    var last := |layers| - 1;
    if last > 0 {
      ListFromHighest(layers[..last], f);
      LastNonEmptyOf(ListColumn(layers[..last], f), ListOf(Stacked(layers[..last]), f), ListOf(layers[last], f));
    } else {
      OneValue(ListOf(layers[0], f));
      assert ListColumn(layers, f) == [ListOf(layers[0], f)];
    }
  }

  lemma OneValue<T(!new)>(v: seq<T>)
    ensures IsLastNonEmpty([v], v)
  {
    if v != [] {
      assert [v][0] == v;
    }
  }

  // The variables of the highest layer that sets any, or the lowest layer's when none does.
  ghost predicate IsHighestEnv(layers: seq<Definition>, env: map<string, string>)
    requires layers != []
  {
    || (exists i :: 0 <= i < |layers| && layers[i].env == env && |env| > 0 &&
          forall j | i < j < |layers| :: |layers[j].env| == 0)
    || (env == layers[0].env && forall j | 0 <= j < |layers| :: |layers[j].env| == 0)
  }

  lemma EnvOnTop(front: seq<Definition>, top: Definition, env: map<string, string>)
    requires front != [] && IsHighestEnv(front, env)
    ensures IsHighestEnv(front + [top], if |top.env| == 0 then env else top.env)
  {
    var layers := front + [top];
    assert layers[|front|] == top;
    assert forall j | 0 <= j < |front| :: layers[j] == front[j];
  }

  /** The variables are the highest layer's that sets any, as a whole map. */
  lemma {:induction false} EnvFromHighest(layers: seq<Definition>)
    requires layers != []
    ensures IsHighestEnv(layers, Stacked(layers).env)
  {
    var last := |layers| - 1;
    if last > 0 {
      hide IsHighestEnv;
      EnvFromHighest(layers[..last]);
      EnvOnTop(layers[..last], layers[last], Stacked(layers[..last]).env);
      assert layers[..last] + [layers[last]] == layers;
    }
  }

  // The configurations of all layers merged, lowest first.
  function MergeAll(layers: seq<Config>, lower: CaseMap): Config
    requires layers != []
  {
    if |layers| == 1 then layers[0]
    else MergeConfigs(MergeAll(layers[..|layers| - 1], lower), layers[|layers| - 1], lower)
  }

  // The entries the layers have for an agent, lowest first.
  function EntriesOf(layers: seq<Config>, name: string): seq<Definition> {
    if layers == [] then []
    else
      var last := Find(layers[|layers| - 1].agents, name);
      EntriesOf(layers[..|layers| - 1], name) + if last.Some? then [last.value] else []
  }

  /** And that is what merged configurations hold, for any number of layers and an agent defined in any of them:
      the stack of the entries the layers have for it, and no entry when no layer has one. */
  lemma {:induction false} LayersStack(layers: seq<Config>, name: string, lower: CaseMap)
    requires layers != [] && forall i | 0 < i < |layers| :: UniqueNames(layers[i].agents)
    ensures var entries := EntriesOf(layers, name);
      Find(MergeAll(layers, lower).agents, name) == if entries == [] then None else Some(Stacked(entries))
  {
    hide Find, UniqueNames, MergeAgents, MergeShells;
    var last := |layers| - 1;
    var front := layers[..last];
    if last == 0 {
      assert EntriesOf(front, name) == [];
      if Find(layers[0].agents, name).Some? {
        assert EntriesOf(layers, name) == [Find(layers[0].agents, name).value];
      }
    } else {
      LayersStack(front, name, lower);
      MergedAgent(MergeAll(front, lower).agents, layers[last].agents, name);
      var upper := Find(layers[last].agents, name);
      if upper.Some? {
        StackedMore(EntriesOf(front, name), upper.value);
      } else {
        assert EntriesOf(front, name) + [] == EntriesOf(front, name);
      }
    }
  }

  lemma StackedMore(entries: seq<Definition>, d: Definition)
    ensures Stacked(entries + [d]) == if entries == [] then d else MergeDefinition(Stacked(entries), d)
  {
    assert (entries + [d])[..|entries|] == entries;
  }

  // Some shell of the layer has the command of x.
  ghost predicate HasCommand(layer: Config, x: Shell, lower: CaseMap) {
    exists s :: s in layer.shells && SameCommand(s, x, lower)
  }

  lemma MergeHasCommand(base: Config, override: Config, x: Shell, lower: CaseMap)
    requires !Blank(x.command)
    ensures HasCommand(MergeConfigs(base, override, lower), x, lower) <==>
      HasCommand(base, x, lower) || HasCommand(override, x, lower)
  {
    hide SameCommand, Blank, MergeShells, MergeAgents;
    MergeKeepsCommands(base.shells, override.shells, x, lower);
    assert forall s :: s in base.shells + override.shells <==> s in base.shells || s in override.shells;
  }

  /** Over any number of layers, the merged configuration has a shell for a command exactly if some layer has one. */
  lemma {:induction false} LayersKeepCommands(layers: seq<Config>, x: Shell, lower: CaseMap)
    requires layers != [] && !Blank(x.command)
    ensures HasCommand(MergeAll(layers, lower), x, lower) <==>
      exists i :: 0 <= i < |layers| && HasCommand(layers[i], x, lower)
  {
    hide HasCommand, MergeConfigs, Blank;
    var last := |layers| - 1;
    if last > 0 {
      var front := layers[..last];
      LayersKeepCommands(front, x, lower);
      MergeHasCommand(MergeAll(front, lower), layers[last], x, lower);
      assert forall i | 0 <= i < last :: front[i] == layers[i];
    }
  }
}
