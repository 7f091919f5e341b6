/** The hub's replay table is keyed by "<client>::<session>" and scanned by suffix and prefix.
    For ids without ':' the scan finds exactly the entries it means. */
module ReplayKeys {
  import opened Text
  import opened SessionState

  predicate ColonFree(id: string) {
    ':' !in id
  }

  function ClientKey(client: string, session: string): string {
    client + "::" + session
  }

  predicate Scanned(key: string, session: string, client: string) {
    (session == "" || HasSuffix(key, "::" + session)) && (client == "" || HasPrefix(key, client + "::"))
  }

  lemma SuffixIsSession(client: string, session: string, wanted: string)
    requires ColonFree(client) && ColonFree(session) && ColonFree(wanted)
    ensures HasSuffix(ClientKey(client, session), "::" + wanted) <==> session == wanted
  {
    var k, tail := ClientKey(client, session), "::" + wanted;
    if |tail| <= |k| {
      var end := k[|k| - |tail|..];
      if |wanted| < |session| {
        assert end[1] == session[|session| - |wanted| - 1] && tail[1] == ':';
      } else if |session| < |wanted| {
        var i := |wanted| - |session| + 1;
        assert end[i] == k[|client| + 1] == ':' && tail[i] == wanted[i - 2];
      } else {
        assert end[2..] == session && tail[2..] == wanted;
        assert end[..2] == "::" == tail[..2];
        assert end == end[..2] + end[2..] && tail == tail[..2] + tail[2..];
      }
    }
  }

  lemma PrefixIsClient(client: string, session: string, wanted: string)
    requires ColonFree(client) && ColonFree(session) && ColonFree(wanted)
    ensures HasPrefix(ClientKey(client, session), wanted + "::") <==> client == wanted
  {
    var k, head := ClientKey(client, session), wanted + "::";
    if |head| <= |k| {
      var start := k[..|head|];
      if |wanted| < |client| {
        assert start[|wanted|] == client[|wanted|] && head[|wanted|] == ':';
      } else if |client| < |wanted| {
        assert start[|client|] == ':' && head[|client|] == wanted[|client|];
      } else {
        assert start[..|client|] == client && head[..|client|] == wanted;
        assert start[|client|..] == "::" == head[|client|..];
        assert start == start[..|client|] + start[|client|..] && head == head[..|client|] + head[|client|..];
      }
    }
  }

  /** One scan serves for a session, a client or both, and finds exactly the entries of those ids. */
  lemma ScanIsExact(client: string, session: string, wantedSession: string, wantedClient: string)
    requires ColonFree(client) && ColonFree(session) && ColonFree(wantedSession) && ColonFree(wantedClient)
    ensures Scanned(ClientKey(client, session), wantedSession, wantedClient) <==>
            (wantedSession == "" || session == wantedSession) && (wantedClient == "" || client == wantedClient)
  {
    SuffixIsSession(client, session, wantedSession);
    PrefixIsClient(client, session, wantedClient);
  }

  ghost predicate IsKey(key: string) {
    exists c, s :: ColonFree(c) && ColonFree(s) && key == ClientKey(c, s)
  }

  ghost predicate WellKeyed(table: map<string, ReplayState>) {
    forall k | k in table :: IsKey(k)
  }

  // The replay states of one session, by client.
  function ReplayOf(table: map<string, ReplayState>, session: string): map<string, ReplayState> {
    var clients := set k | k in table && HasSuffix(k, "::" + session) :: k[..|k| - |session| - 2];
    map c | c in clients && ClientKey(c, session) in table :: table[ClientKey(c, session)]
  }

  lemma KeyParts(client: string, session: string)
    ensures var k := ClientKey(client, session);
      && k == client + ("::" + session) && HasSuffix(k, "::" + session)
      && k[|client|..] == "::" + session && k[..|k| - |session| - 2] == client
  {
    var k, tail := ClientKey(client, session), "::" + session;
    assert k == client + tail;
    assert k[|client|..] == tail;
  }

  lemma ReplayOfMembers(table: map<string, ReplayState>, session: string)
    ensures forall c :: c in ReplayOf(table, session) <==> ClientKey(c, session) in table
    ensures forall c | c in ReplayOf(table, session) :: ReplayOf(table, session)[c] == table[ClientKey(c, session)]
  {
    forall c | ClientKey(c, session) in table ensures c in ReplayOf(table, session) {
      KeyParts(c, session);
    }
  }

  lemma KeyInjective(c: string, s: string, c': string, s': string)
    requires ColonFree(c) && ColonFree(s) && ColonFree(c') && ColonFree(s')
    requires ClientKey(c, s) == ClientKey(c', s')
    ensures c == c' && s == s'
  {
    SuffixIsSession(c, s, s');
    SuffixIsSession(c', s', s');
    PrefixIsClient(c, s, c');
    PrefixIsClient(c', s', c');
  }

  // A table whose entries for a session went away: that session's view is empty, the others are as before.
  lemma ClearedTable(table: map<string, ReplayState>, table': map<string, ReplayState>, session: string)
    requires WellKeyed(table) && ColonFree(session) && session != ""
    requires table' == map k | k in table && !Scanned(k, session, "") :: table[k]
    ensures WellKeyed(table')
    ensures ReplayOf(table', session) == map[]
    ensures forall other | ColonFree(other) && other != session :: ReplayOf(table', other) == ReplayOf(table, other)
  {
    NoneLeft(table, table', session);
    hide ReplayOf, ClientKey, HasSuffix, HasPrefix, IsKey;
    forall other | ColonFree(other) && other != session ensures ReplayOf(table', other) == ReplayOf(table, other) {
      OthersStay(table, table', session, other);
    }
  }

  lemma NoneLeft(table: map<string, ReplayState>, table': map<string, ReplayState>, session: string)
    requires table' == map k | k in table && !Scanned(k, session, "") :: table[k]
    ensures ReplayOf(table', session) == map[]
  {
    ReplayOfMembers(table', session);
    hide ReplayOf;
    forall c ensures ClientKey(c, session) !in table' {
      KeyParts(c, session);
    }
  }

  lemma OthersStay(table: map<string, ReplayState>, table': map<string, ReplayState>, session: string, other: string)
    requires WellKeyed(table) && ColonFree(session) && session != "" && ColonFree(other) && other != session
    requires table' == map k | k in table && !Scanned(k, session, "") :: table[k]
    ensures ReplayOf(table', other) == ReplayOf(table, other)
  {
    ReplayOfMembers(table, other);
    ReplayOfMembers(table', other);
    hide ReplayOf, ClientKey, HasSuffix, HasPrefix;
    forall c | ClientKey(c, other) in table ensures ClientKey(c, other) in table' {
      OwnerOfKey(table, c, other);
      SuffixIsSession(c, other, session);
    }
  }

  lemma OwnerOfKey(table: map<string, ReplayState>, c: string, session: string)
    requires WellKeyed(table) && ColonFree(session) && ClientKey(c, session) in table
    ensures ColonFree(c)
  {
    var k := ClientKey(c, session);
    var c', s' :| ColonFree(c') && ColonFree(s') && k == ClientKey(c', s');
    KeyParts(c, session);
    KeyParts(c', s');
    SuffixIsSession(c', s', session);
  }

  lemma OtherKeysDiffer(table: map<string, ReplayState>, c: string, s: string, client: string, session: string)
    requires WellKeyed(table) && ColonFree(s) && ColonFree(client) && ColonFree(session)
    requires ClientKey(c, s) in table && (c != client || s != session)
    ensures ClientKey(c, s) != ClientKey(client, session)
  {
    OwnerOfKey(table, c, s);
    if ClientKey(c, s) == ClientKey(client, session) {
      KeyInjective(c, s, client, session);
    }
  }

  // An entry written for one client of one session.
  lemma UpdatedTable(table: map<string, ReplayState>, client: string, session: string, r: ReplayState)
    requires WellKeyed(table) && ColonFree(client) && ColonFree(session)
    ensures var table' := table[ClientKey(client, session) := r];
      && WellKeyed(table')
      && forall s | ColonFree(s) ::
           ReplayOf(table', s) == if s == session then ReplayOf(table, s)[client := r] else ReplayOf(table, s)
  {
    var table' := table[ClientKey(client, session) := r];
    StaysWellKeyed(table, client, session, r);
    forall s | ColonFree(s)
      ensures ReplayOf(table', s) == if s == session then ReplayOf(table, s)[client := r] else ReplayOf(table, s)
    {
      UpdatedSession(table, client, session, r, s);
    }
  }

  lemma StaysWellKeyed(table: map<string, ReplayState>, client: string, session: string, r: ReplayState)
    requires WellKeyed(table) && ColonFree(client) && ColonFree(session)
    ensures WellKeyed(table[ClientKey(client, session) := r])
  {
    assert IsKey(ClientKey(client, session));
  }

  lemma UpdatedSession(table: map<string, ReplayState>, client: string, session: string, r: ReplayState, s: string)
    requires WellKeyed(table) && ColonFree(client) && ColonFree(session) && ColonFree(s)
    ensures ReplayOf(table[ClientKey(client, session) := r], s) ==
      if s == session then ReplayOf(table, s)[client := r] else ReplayOf(table, s)
  {
    hide *;
    var table' := table[ClientKey(client, session) := r];
    StaysWellKeyed(table, client, session, r);
    ReplayOfMembers(table, s);
    ReplayOfMembers(table', s);
    forall c | ClientKey(c, s) in table' && (c != client || s != session)
      ensures ClientKey(c, s) in table && table'[ClientKey(c, s)] == table[ClientKey(c, s)]
    {
      OtherKeysDiffer(table', c, s, client, session);
    }
  }

  // A table whose entries for one client went away.
  lemma ClientGone(table: map<string, ReplayState>, table': map<string, ReplayState>, client: string)
    requires WellKeyed(table) && ColonFree(client) && client != ""
    requires table' == map k | k in table && !Scanned(k, "", client) :: table[k]
    ensures WellKeyed(table')
    ensures forall s | ColonFree(s) :: ReplayOf(table', s) == ReplayOf(table, s) - {client}
  {
    hide ReplayOf, ClientKey, HasPrefix, HasSuffix, IsKey;
    forall s | ColonFree(s) ensures ReplayOf(table', s) == ReplayOf(table, s) - {client} {
      ClientGoneFrom(table, table', client, s);
    }
  }

  lemma ClientGoneFrom(table: map<string, ReplayState>, table': map<string, ReplayState>, client: string, s: string)
    requires WellKeyed(table) && ColonFree(client) && client != "" && ColonFree(s)
    requires table' == map k | k in table && !Scanned(k, "", client) :: table[k]
    ensures ReplayOf(table', s) == ReplayOf(table, s) - {client}
  {
    ReplayOfMembers(table, s);
    ReplayOfMembers(table', s);
    hide ReplayOf, ClientKey, HasPrefix, HasSuffix;
    forall c | ClientKey(c, s) in table ensures ClientKey(c, s) in table' <==> c != client {
      OwnerOfKey(table, c, s);
      PrefixIsClient(c, s, client);
    }
  }
}
