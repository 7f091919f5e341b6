/** The parser gives one answer however the stream is cut into chunks. */
module ShellChunking {
  import opened Text
  import opened SeqTools
  import opened EventCursor
  import opened ShellScan
  import opened ShellParser

  // What the markers a command gets look like: no line breaks, and a colon only at the end of the end prefix.
  predicate MarkersOk(m: Markers) {
    m.begin != "" && NoBreaks(m.begin) && ColonEnded(m.end)
  }

  lemma MarkerFacts(m: Markers)
    requires MarkersOk(m)
    ensures UsableMarkers(m) && m.begin != "" && m.end != "" && ColonEnded(m.end)
  {
  }

  // Base-36 ids, as strconv.FormatInt writes them.
  predicate IsID(id: string) {
    id != "" && forall i | 0 <= i < |id| :: '0' <= id[i] <= '9' || 'a' <= id[i] <= 'z'
  }

  lemma CommandMarkersOk(id: string)
    requires IsID(id)
    ensures MarkersOk(Markers(StartMarker(id), EndPrefix(id)))
  {
    var e := EndPrefix(id);
    assert e[|e| - 1] == ':';
    assert forall i | 0 <= i < |id| :: e[|"__MINDFS_CMD_END_"| + i] == id[i];
  }

  /** The markers of two commands differ. */
  lemma MarkersAreOwn(id: string, other: string)
    requires id != other
    ensures StartMarker(id) != StartMarker(other) && EndPrefix(id) != EndPrefix(other)
  {
    var s, e, n, k := StartMarker(id), EndPrefix(id), |"__MINDFS_CMD_START_"|, |"__MINDFS_CMD_END_"|;
    assert s[n..|s| - 2] == id && e[k..|e| - 3] == id;
    var s', e' := StartMarker(other), EndPrefix(other);
    assert s'[n..|s'| - 2] == other && e'[k..|e'| - 3] == other;
  }

  /** Finishing sends one result; finishing again changes nothing. */
  lemma FinishesWithTheFirst(p: Parser, first: int, second: int)
    ensures var q := Finish(p, first);
      && q.finished && q.out == p.out && q.pending == p.pending
      && q.results == (if p.finished then p.results else p.results + [first])
      && Finish(q, second) == q
  {
  }

  // ---- the end marker seen through a window of the body ----

  lemma ExitCodeHasBreak(v: string, at: nat)
    requires at <= |v| && CodeAt(v, at).Some?
    ensures BreakAfter(v, at) >= 0
  {
    hide TrimBoth, AllDigits;
    TrimLeftBeforeBreak(v[at..]);
  }

  // The position right after the line break that completes the end marker at j.
  function Complete(body: string, marker: string, j: nat): int
    requires j + |marker| <= |body|
  {
    BreakAfter(body, j + |marker|) + 1
  }

  lemma OccursInWindow(body: string, marker: string, window: string, c: nat, n: nat, k: nat)
    requires c <= n <= |body| && window == body[c..n]
    ensures OccursAt(window, marker, k) <==> c + k + |marker| <= n && OccursAt(body, marker, c + k)
  {
    if k + |marker| <= n - c {
      SliceOfWindow(body, c, n, k, k + |marker|);
    }
  }

  // What follows a marker in a window is a prefix of what follows it in the body.
  lemma CodeInWindow(body: string, window: string, c: nat, n: nat, at: nat)
    requires c + at <= n <= |body| && window == body[c..n]
    ensures CodeAt(window, at) ==
      if CodeAt(body, c + at).Some? && BreakAfter(body, c + at) < n then CodeAt(body, c + at) else None
  {
    var rest, arrived := body[c + at..], n - (c + at);
    SliceOfWindow(body, c, n, at, n - c);
    assert window[at..] == rest[..arrived];
    hide TakeExitCode;
    ExitCodeOfPrefix(rest, arrived);
  }

  // In a window an end marker is one of the body's, and its line break has arrived.
  lemma EndInWindow(body: string, marker: string, window: string, c: nat, n: nat, k: nat)
    requires c <= n <= |body| && window == body[c..n]
    ensures EndAt(window, marker, k) <==> EndAt(body, marker, c + k) && Complete(body, marker, c + k) <= n
    ensures EndAt(window, marker, k) ==> CodeAt(window, k + |marker|) == CodeAt(body, c + k + |marker|)
  {
    hide *;
    OccursInWindow(body, marker, window, c, n, k);
    if c + k + |marker| <= n {
      CodeInWindow(body, window, c, n, k + |marker|);
    }
    if EndAt(body, marker, c + k) {
      EndHasBreak(body, marker, c + k);
    }
    EndFromParts(body, marker, window, c, n, k);
  }

  lemma EndFromParts(body: string, marker: string, window: string, c: nat, n: nat, k: nat)
    requires c <= n <= |body| && |window| == n - c
    requires OccursAt(window, marker, k) <==> c + k + |marker| <= n && OccursAt(body, marker, c + k)
    requires c + k + |marker| <= n ==>
      (CodeAt(window, k + |marker|) ==
       if CodeAt(body, c + k + |marker|).Some? && BreakAfter(body, c + k + |marker|) < n
       then CodeAt(body, c + k + |marker|)
       else None)
    requires EndAt(body, marker, c + k) ==> c + k + |marker| < Complete(body, marker, c + k)
    ensures EndAt(window, marker, k) <==> EndAt(body, marker, c + k) && Complete(body, marker, c + k) <= n
    ensures EndAt(window, marker, k) ==> CodeAt(window, k + |marker|) == CodeAt(body, c + k + |marker|)
  {
    hide CodeAt, OccursAt, BreakAfter;
  }

  lemma EndHasBreak(body: string, marker: string, j: nat)
    requires EndAt(body, marker, j)
    ensures j + |marker| < Complete(body, marker, j)
  {
    ExitCodeHasBreak(body, j + |marker|);
  }

  lemma {:induction false} FirstBreakBefore(s: string, k: nat)
    requires k < |s| && IsBreak(s[k])
    ensures 0 <= FirstBreak(s) <= k
  {
    if k > 0 && !IsBreak(s[0]) {
      FirstBreakBefore(s[1..], k - 1);
    }
  }

  lemma BreakAfterIsFirst(v: string, at: nat, k: nat)
    requires at <= k < |v| && IsBreak(v[k])
    ensures 0 <= BreakAfter(v, at) <= k
  {
    FirstBreakBefore(v[at..], k - at);
  }

  // What a window shows is the body's first end marker.
  lemma SeenIsFirst(body: string, marker: string, window: string, c: nat, n: nat)
    requires marker != "" && ColonEnded(marker) && c <= n <= |body| && window == body[c..n]
    requires FindEnd(window, marker).Some?
    ensures FindEnd(body, marker).Some? && Complete(body, marker, FindEnd(body, marker).value.at) <= n
    ensures FindEnd(body, marker).value.at <= c + FindEnd(window, marker).value.at
  {
    hide FindEnd, CodeAt, OccursAt, ColonEnded, BreakAfter;
    var k := FindEnd(window, marker).value.at;
    FindEndReads(window, marker);
    EndInWindow(body, marker, window, c, n, k);
    FindEndIsFirst(body, marker, c + k);
    EndHasBreak(body, marker, c + k);
    BreakAfterIsFirst(body, FindEnd(body, marker).value.at + |marker|, Complete(body, marker, c + k) - 1);
  }

  lemma CompleteIsSeen(body: string, marker: string, window: string, c: nat, n: nat)
    requires marker != "" && ColonEnded(marker) && c <= n <= |body| && window == body[c..n] && FindEnd(body, marker).Some?
    requires c <= FindEnd(body, marker).value.at && Complete(body, marker, FindEnd(body, marker).value.at) <= n
    ensures var seen := FindEnd(window, marker);
      && seen.Some? && seen.value.at <= FindEnd(body, marker).value.at - c
  {
    hide FindEnd, CodeAt, OccursAt, ColonEnded, BreakAfter;
    var j := FindEnd(body, marker).value.at;
    FindEndReads(body, marker);
    EndInWindow(body, marker, window, c, n, j - c);
    FindEndIsFirst(window, marker, j - c);
  }

  lemma SameCode(body: string, marker: string, window: string, c: nat, n: nat)
    requires marker != "" && c <= n <= |body| && window == body[c..n]
    requires FindEnd(body, marker).Some? && FindEnd(window, marker).Some?
    requires FindEnd(body, marker).value.at == c + FindEnd(window, marker).value.at
    ensures FindEnd(body, marker).value.code == FindEnd(window, marker).value.code
  {
    hide FindEnd, CodeAt, OccursAt, BreakAfter;
    FindEndReads(body, marker);
    FindEndReads(window, marker);
    EndInWindow(body, marker, window, c, n, FindEnd(window, marker).value.at);
  }

  /** Searching any window that has not passed the first end marker finds that marker as soon as its line
      break has arrived, and nothing before. */
  lemma FindEndInWindow(body: string, marker: string, window: string, c: nat, n: nat)
    requires marker != "" && ColonEnded(marker) && c <= n <= |body| && window == body[c..n]
    requires FindEnd(body, marker).Some? ==> c <= FindEnd(body, marker).value.at
    ensures var end := FindEnd(body, marker);
      FindEnd(window, marker) ==
        if end.Some? && Complete(body, marker, end.value.at) <= n
        then Some(End(end.value.at - c, end.value.code)) else None
  {
    hide FindEnd, ColonEnded, Complete;
    var end, seen := FindEnd(body, marker), FindEnd(window, marker);
    if seen.Some? {
      SeenIsFirst(body, marker, window, c, n);
      CompleteIsSeen(body, marker, window, c, n);
      SameCode(body, marker, window, c, n);
    } else if end.Some? && Complete(body, marker, end.value.at) <= n {
      CompleteIsSeen(body, marker, window, c, n);
    }
  }

  // ---- the output phase ----

  // Where the line starts that position j is in.
  function LineStart(body: string, j: nat): (k: int)
    requires j <= |body|
    ensures 0 <= k <= j
  {
    LastBreak(body[..j]) + 1
  }

  // The end marker at j cannot be cut through: the text up to its line break is short, or its whole line is
  // short enough to be kept back until the break arrives.
  predicate Uncut(body: string, marker: string, j: nat)
    requires j + |marker| <= |body|
  {
    || BreakAfter(body, j + |marker|) <= j + |marker| + CODE_BYTES
    || BreakAfter(body, j + |marker|) - LineStart(body, j) <= MAX_PENDING_LINE_BYTES
  }

  predicate EndUncut(body: string, marker: string)
    requires marker != ""
  {
    var end := FindEnd(body, marker);
    end.Some? ==> Uncut(body, marker, end.value.at)
  }

  // Of the n body bytes that arrived, t line breaks were trimmed, the bytes up to c were handed out, and the
  // rest is pending.
  predicate Tracks(body: string, n: nat, c: nat, t: nat, p: Parser) {
    && t <= c <= n <= |body| && AllBreaks(body[..t])
    && p.started && !p.finished && p.results == [] && p.pending == body[c..n] && p.out == body[t..c]
  }

  lemma NoBreakBeforeComplete(body: string, marker: string, j: nat, k: nat)
    requires ColonEnded(marker) && EndAt(body, marker, j) && j <= k < |body| && IsBreak(body[k])
    ensures Complete(body, marker, j) <= k + 1
  {
    NoBreakInside(body, marker, j, k);
    hide OccursAt, ColonEnded, BreakAfter;
    BreakAfterIsFirst(body, j + |marker|, k);
  }

  // What is handed out early never reaches into the end marker.
  lemma EmitStopsBeforeEnd(m: Markers, body: string, value: string, c: nat, n: nat, j: nat)
    requires MarkersOk(m) && c <= n <= |body| && value == body[c..n] && EndAt(body, m.end, j) && j + |m.end| <= |body|
    requires c <= j && n < Complete(body, m.end, j) && n - c > Keep(m) && Uncut(body, m.end, j)
    ensures c + |SplitForEmit(value, Keep(m)).0| <= j
  {
    hide ColonEnded, SplitForEmit, EndAt, BreakAfter, LineStart;
    SplitSize(value, Keep(m));
    var b := LastBreak(value);
    if b >= 0 {
      LastBreakIsLast(value, 0);
      assert value[b] == body[c + b];
      if c + b >= j {
        NoBreakBeforeComplete(body, m.end, j, c + b);
      }
    } else if n > j {
      LineReachesBack(body, value, c, n, j);
    }
  }

  // A window without breaks that goes up to j and further lies within j's line.
  lemma LineReachesBack(body: string, value: string, c: nat, n: nat, j: nat)
    requires c <= j < n <= |body| && value == body[c..n] && LastBreak(value) == -1
    ensures LineStart(body, j) <= c
  {
    var b := LastBreak(body[..j]);
    if b >= c {
      LastBreakIsLast(body[..j], 0);
      assert value[b - c] == body[..j][b];
      LastBreakIsLast(value, b - c);
    }
  }

  lemma SplitSize(value: string, keep: nat)
    requires |value| > keep
    ensures |SplitForEmit(value, keep).0| <= if LastBreak(value) >= 0 then LastBreak(value) + 1 else |value| - keep
    ensures LastBreak(value) == -1 && |value| <= MAX_PENDING_LINE_BYTES ==> SplitForEmit(value, keep).0 == ""
    ensures LastBreak(value) < |value|
  {
  }

  lemma EmitTracks(body: string, n: nat, c: nat, t: nat, p: Parser, emit: string, rest: string)
    requires Tracks(body, n, c, t, p) && p.pending == emit + rest
    ensures Tracks(body, n, c + |emit|, t, p.(out := p.out + emit, pending := rest))
  {
    var c' := c + |emit|;
    assert emit == p.pending[..|emit|] && rest == p.pending[|emit|..];
    SliceOfWindow(body, c, n, 0, |emit|);
    SliceOfWindow(body, c, n, |emit|, n - c);
    assert body[t..c] + body[c..c'] == body[t..c'];
  }

  lemma SettleFinishes(m: Markers, body: string, n: nat, c: nat, t: nat, p: Parser)
    requires MarkersOk(m) && Tracks(body, n, c, t, p) && FindEnd(body, m.end).Some?
    requires var j := FindEnd(body, m.end).value.at; c <= j && Complete(body, m.end, j) <= n
    ensures var end := FindEnd(body, m.end).value;
      t <= end.at && Settle(m, p) == Parser("", true, true, body[t..end.at], [ExitCode(end.code)])
  {
    hide FindEnd, Complete, ExitCode, ColonEnded, AllBreaks, NoBreaks, Settle, SplitForEmit, Finish;
    MarkerFacts(m);
    FindEndInWindow(body, m.end, p.pending, c, n);
    SettleAtEnd(m, p);
    JoinWindow(body, t, c, n, FindEnd(body, m.end).value.at);
  }

  lemma SettleAtEnd(m: Markers, p: Parser)
    requires m.begin != "" && m.end != "" && FindEnd(p.pending, m.end).Some? && !p.finished
    ensures var end := FindEnd(p.pending, m.end).value;
      Settle(m, p) == p.(out := p.out + p.pending[..end.at], pending := "", finished := true,
                         results := p.results + [ExitCode(end.code)])
  {
    hide FindEnd, ExitCode;
  }

  lemma JoinWindow(s: string, t: nat, c: nat, n: nat, j: nat)
    requires t <= c <= j <= n <= |s|
    ensures s[t..c] + s[c..n][..j - c] == s[t..j]
  {
    SliceOfWindow(s, c, n, 0, j - c);
  }

  lemma {:induction false} SettleTracks(m: Markers, body: string, n: nat, c: nat, t: nat, p: Parser) returns (c': nat)
    requires MarkersOk(m) && EndUncut(body, m.end) && Tracks(body, n, c, t, p)
    requires FindEnd(body, m.end).Some? ==>
      c <= FindEnd(body, m.end).value.at && n < Complete(body, m.end, FindEnd(body, m.end).value.at)
    ensures Tracks(body, n, c', t, Settle(m, p))
    ensures FindEnd(body, m.end).Some? ==> c' <= FindEnd(body, m.end).value.at
    decreases n - c
  {
    FindEndInWindow(body, m.end, p.pending, c, n);
    hide FindEnd, SplitForEmit, CodeAt, OccursAt, BreakAfter;
    c' := c;
    if n - c > Keep(m) {
      var (emit, rest) := SplitForEmit(p.pending, Keep(m));
      SplitJoins(p.pending, Keep(m));
      if emit != "" {
        if FindEnd(body, m.end).Some? {
          FindEndReads(body, m.end);
          EmitStopsBeforeEnd(m, body, p.pending, c, n, FindEnd(body, m.end).value.at);
        }
        EmitTracks(body, n, c, t, p, emit, rest);
        hide Tracks;
        c' := SettleTracks(m, body, n, c + |emit|, t, p.(out := p.out + emit, pending := rest));
      }
    }
  }

  // ---- the search for the start marker ----

  // The first marker line of the stream, with no other occurrence reaching into it.
  ghost predicate FirstLine(s: string, marker: string, i: nat) {
    MarkerLineAt(s, marker, i) && !Obstructed(s, marker, i) && forall k | 0 <= k < i :: !MarkerLineAt(s, marker, k)
  }

  ghost predicate NoLine(s: string, marker: string) {
    forall k: nat :: !MarkerLineAt(s, marker, k)
  }

  lemma MarkerLineInWindow(s: string, marker: string, a: nat, n: nat, k: nat)
    requires a <= n <= |s|
    ensures MarkerLineAt(s[a..n], marker, k) <==> MarkerLineAt(s, marker, a + k) && a + k + |marker| < n
  {
    OccursInWindow(s, marker, s[a..n], a, n, k);
  }

  lemma SeekInWindow(s: string, marker: string, i: nat, a: nat, n: nat)
    requires marker != "" && FirstLine(s, marker, i) && a <= i && a <= n <= |s|
    ensures FindMarkerLine(s[a..n], marker) == if i + |marker| < n then i - a else -1
  {
    hide MarkerLineAt;
    var window := s[a..n];
    var r := FindMarkerLine(window, marker);
    if i + |marker| < n {
      MarkerLineInWindow(s, marker, a, n, i - a);
      forall k | 0 <= k < i - a ensures !MarkerLineAt(window, marker, k) {
        MarkerLineInWindow(s, marker, a, n, k);
      }
      forall k | i - a - |marker| < k < i - a ensures !OccursAt(window, marker, k) {
        if k >= 0 {
          OccursInWindow(s, marker, window, a, n, k);
        }
      }
      ClearLineIsFound(window, marker, 0, i - a);
    } else if r >= 0 {
      MarkerLineInWindow(s, marker, a, n, r);
    }
  }

  lemma NothingInWindow(s: string, marker: string, a: nat, n: nat)
    requires marker != "" && NoLine(s, marker) && a <= n <= |s|
    ensures FindMarkerLine(s[a..n], marker) == -1
  {
    hide MarkerLineAt;
    var r := FindMarkerLine(s[a..n], marker);
    if r >= 0 {
      MarkerLineInWindow(s, marker, a, n, r);
    }
  }

  lemma {:induction false} TrimmedBreaks(s: string)
    ensures var t := |s| - |TrimBreaks(s)|;
      0 <= t <= |s| && TrimBreaks(s) == s[t..] && AllBreaks(s[..t])
  {
    if s != "" && s[0] in BREAKS {
      TrimmedBreaks(s[1..]);
      var t := |s[1..]| - |TrimBreaks(s[1..])|;
      assert s[1..][t..] == s[1 + t..];
      assert s[..1 + t] == [s[0]] + s[1..][..t];
    }
  }

  lemma EndAfterBreaks(body: string, marker: string, t: nat)
    requires ColonEnded(marker) && marker != "" && t <= |body| && AllBreaks(body[..t]) && FindEnd(body, marker).Some?
    ensures t <= FindEnd(body, marker).value.at
  {
    hide FindEnd, CodeAt, EndAt, OccursAt, TakeExitCode;
    var j := FindEnd(body, marker).value.at;
    FindEndReads(body, marker);
    assert j < t ==> body[..t][j] == body[j];
    FirstOfMarker(body, marker, j);
  }

  lemma FirstOfMarker(body: string, marker: string, j: nat)
    requires marker != "" && NoBreaks(marker) && OccursAt(body, marker, j)
    ensures !IsBreak(body[j])
  {
    NoBreakInside(body, marker, j, j);
  }

  // ---- what the parser knows after n bytes of the stream s ----

  // i is where the start marker line is, -1 when the stream has none.
  predicate StreamOk(m: Markers, s: string, i: int)
    requires MarkersOk(m)
  {
    i >= 0 ==> i + |m.begin| <= |s| && EndUncut(s[i + |m.begin|..], m.end)
  }

  ghost predicate Located(m: Markers, s: string, i: int) {
    if i < 0 then NoLine(s, m.begin) else FirstLine(s, m.begin, i)
  }

  ghost predicate Seeks(m: Markers, s: string, i: int, n: nat, p: Parser) {
    exists a :: 0 <= a <= n <= |s| && (i >= 0 ==> a <= i) && p == FRESH.(pending := s[a..n])
  }

  ghost predicate Runs(m: Markers, body: string, n: nat, p: Parser)
    requires MarkersOk(m)
  {
    var end := FindEnd(body, m.end);
    if end.Some? && Complete(body, m.end, end.value.at) <= n then
      exists t :: 0 <= t <= end.value.at && AllBreaks(body[..t]) &&
        p == Parser("", true, true, body[t..end.value.at], [ExitCode(end.value.code)])
    else
      exists c: nat, t: nat :: Tracks(body, n, c, t, p) && (end.Some? ==> c <= end.value.at)
  }

  ghost predicate Phase(m: Markers, s: string, i: int, n: nat, p: Parser)
    requires MarkersOk(m) && StreamOk(m, s, i)
  {
    if i < 0 || n <= i + |m.begin| then Seeks(m, s, i, n, p)
    else Runs(m, s[i + |m.begin|..], n - (i + |m.begin|), p)
  }

  lemma SettleRuns(m: Markers, body: string, n: nat, c: nat, t: nat, p: Parser)
    requires MarkersOk(m) && EndUncut(body, m.end) && Tracks(body, n, c, t, p)
    requires FindEnd(body, m.end).Some? ==> c <= FindEnd(body, m.end).value.at
    ensures Runs(m, body, n, Settle(m, p))
  {
    hide FindEnd, Complete, Settle;
    var end := FindEnd(body, m.end);
    if end.Some? && Complete(body, m.end, end.value.at) <= n {
      SettleFinishes(m, body, n, c, t, p);
    } else {
      var c' := SettleTracks(m, body, n, c, t, p);
    }
  }

  lemma ConsumeRuns(m: Markers, body: string, n: nat, p: Parser, chunk: string)
    requires MarkersOk(m) && EndUncut(body, m.end) && Runs(m, body, n, p) && chunk != ""
    requires n + |chunk| <= |body| && chunk == body[n..n + |chunk|]
    ensures Runs(m, body, n + |chunk|, Consume(m, p, chunk))
  {
    hide *;
    MarkerFacts(m);
    if p.finished {
      StaysFinished(m, body, n, n + |chunk|, p);
      FinishedIgnores(m, p, chunk);
    } else {
      var c, t := RunningTracks(m, body, n, p);
      TracksMore(body, n, c, t, p, chunk);
      ConsumeUnfinished(m, p, chunk);
      SettleRuns(m, body, n + |chunk|, c, t, p.(pending := p.pending + chunk));
      StartedSettles(m, p.(pending := p.pending + chunk));
    }
  }

  lemma StaysFinished(m: Markers, body: string, n: nat, n': nat, p: Parser)
    requires MarkersOk(m) && Runs(m, body, n, p) && p.finished && n <= n'
    ensures Runs(m, body, n', p)
  {
    hide FindEnd, Complete, MarkersOk;
  }

  lemma FinishedIgnores(m: Markers, p: Parser, chunk: string)
    requires UsableMarkers(m) && p.finished
    ensures Consume(m, p, chunk) == p
  {
  }

  lemma RunningTracks(m: Markers, body: string, n: nat, p: Parser) returns (c: nat, t: nat)
    requires MarkersOk(m) && Runs(m, body, n, p) && !p.finished
    ensures Tracks(body, n, c, t, p) && (FindEnd(body, m.end).Some? ==> c <= FindEnd(body, m.end).value.at)
  {
    hide FindEnd, Complete, MarkersOk;
    MarkerFacts(m);
    c, t :| Tracks(body, n, c, t, p) && (FindEnd(body, m.end).Some? ==> c <= FindEnd(body, m.end).value.at);
  }

  lemma StartedSettles(m: Markers, p: Parser)
    requires MarkersOk(m) && p.started
    ensures Drain(m, p) == Settle(m, p)
  {
    hide Settle, MarkersOk, FindMarkerLine;
  }

  lemma TracksMore(body: string, n: nat, c: nat, t: nat, p: Parser, chunk: string)
    requires Tracks(body, n, c, t, p) && n + |chunk| <= |body| && chunk == body[n..n + |chunk|]
    ensures Tracks(body, n + |chunk|, c, t, p.(pending := p.pending + chunk)) && p.started
  {
    assert body[c..n] + chunk == body[c..n + |chunk|];
  }

  lemma ConsumeSeeks(m: Markers, s: string, i: int, n: nat, p: Parser, chunk: string)
    requires MarkersOk(m) && StreamOk(m, s, i) && Located(m, s, i) && Seeks(m, s, i, n, p) && chunk != ""
    requires n + |chunk| <= |s| && chunk == s[n..n + |chunk|]
    ensures Phase(m, s, i, n + |chunk|, Consume(m, p, chunk))
  {
    hide Drain, StreamOk, Located, Phase, Consume;
    var a :| 0 <= a <= n <= |s| && (i >= 0 ==> a <= i) && p == FRESH.(pending := s[a..n]);
    hide Seeks;
    ConsumeFresh(m, s, i, a, n, chunk);
  }

  lemma ConsumeFresh(m: Markers, s: string, i: int, a: nat, n: nat, chunk: string)
    requires MarkersOk(m) && StreamOk(m, s, i) && Located(m, s, i) && chunk != ""
    requires a <= n && (i >= 0 ==> a <= i) && n + |chunk| <= |s| && chunk == s[n..n + |chunk|]
    ensures Phase(m, s, i, n + |chunk|, Consume(m, FRESH.(pending := s[a..n]), chunk))
  {
    hide Phase, Consume, Drain, StreamOk, Located, MarkersOk;
    ConsumeUnfinished(m, FRESH.(pending := s[a..n]), chunk);
    assert s[a..n] + chunk == s[a..n + |chunk|];
    DrainSeeks(m, s, i, a, n + |chunk|);
  }

  lemma ConsumeUnfinished(m: Markers, p: Parser, chunk: string)
    requires MarkersOk(m) && !p.finished && chunk != ""
    ensures Consume(m, p, chunk) == Drain(m, p.(pending := p.pending + chunk))
  {
    hide Drain;
  }

  lemma DrainSeeks(m: Markers, s: string, i: int, a: nat, n: nat)
    requires MarkersOk(m) && StreamOk(m, s, i) && Located(m, s, i)
    requires a <= n <= |s| && (i >= 0 ==> a <= i)
    ensures Phase(m, s, i, n, Drain(m, FRESH.(pending := s[a..n])))
  {
    hide Settle, StreamOk, FirstLine, NoLine, Runs, Seeks, KeepTail, TrimBreaks, FindMarkerLine;
    if i < 0 {
      NothingInWindow(s, m.begin, a, n);
    } else {
      SeekInWindow(s, m.begin, i, a, n);
    }
    if i >= 0 && i + |m.begin| < n {
      StartRuns(m, s, i, a, n);
    } else {
      TailSeeks(m, s, i, a, n);
    }
  }

  // The start marker line has not arrived: enough of the tail is kept to see it.
  lemma TailSeeks(m: Markers, s: string, i: int, a: nat, n: nat)
    requires a <= n <= |s| && (i >= 0 ==> a <= i && n <= i + |m.begin|)
    ensures Seeks(m, s, i, n, FRESH.(pending := KeepTail(s[a..n], |m.begin|)))
  {
    var a' := if |m.begin| == 0 || n - a <= |m.begin| then a else n - |m.begin|;
    SliceOfWindow(s, a, n, a' - a, n - a);
    assert KeepTail(s[a..n], |m.begin|) == s[a'..n];
  }

  // The parser right after the start marker line was found in s[a..n].
  function Opened(m: Markers, s: string, i: nat, a: nat, n: nat): Parser
    requires a <= i && i + |m.begin| <= n <= |s|
  {
    FRESH.(pending := TrimBreaks(s[a..n][i - a + |m.begin|..]), started := true)
  }

  // The start marker line is there: leading line breaks go, and the output phase begins.
  lemma OpenedTracks(m: Markers, s: string, i: nat, a: nat, n: nat) returns (t: nat)
    requires MarkersOk(m) && a <= i && i + |m.begin| < n <= |s|
    ensures var body := s[i + |m.begin|..];
      && Tracks(body, n - (i + |m.begin|), t, t, Opened(m, s, i, a, n))
      && (FindEnd(body, m.end).Some? ==> t <= FindEnd(body, m.end).value.at)
  {
    hide FindEnd;
    var b := i + |m.begin|;
    var body, rest := s[b..], s[a..n][b - a..];
    assert rest == s[b..n] == body[..n - b] by {
      SliceOfWindow(s, a, n, b - a, n - a);
    }
    TrimmedBreaks(rest);
    t := |rest| - |TrimBreaks(rest)|;
    assert body[..t] == rest[..t];
    assert rest[t..] == body[t..n - b];
    if FindEnd(body, m.end).Some? {
      EndAfterBreaks(body, m.end, t);
    }
  }

  lemma StartRuns(m: Markers, s: string, i: nat, a: nat, n: nat)
    requires MarkersOk(m) && StreamOk(m, s, i) && a <= i && i + |m.begin| < n <= |s|
    ensures Runs(m, s[i + |m.begin|..], n - (i + |m.begin|), Settle(m, Opened(m, s, i, a, n)))
  {
    hide EndUncut, FindEnd, Tracks, Opened, Runs, Settle;
    assert EndUncut(s[i + |m.begin|..], m.end);
    hide *;
    var t := OpenedTracks(m, s, i, a, n);
    SettleRuns(m, s[i + |m.begin|..], n - (i + |m.begin|), t, t, Opened(m, s, i, a, n));
  }

  lemma {:induction false} AfterChunks(m: Markers, s: string, i: int, chunks: seq<string>)
    requires MarkersOk(m) && StreamOk(m, s, i) && Located(m, s, i) && Concat(chunks) <= s
    ensures Phase(m, s, i, |Concat(chunks)|, ConsumeAll(m, chunks))
  {
    if chunks == [] {
      assert s[0..0] == "";
    } else {
      var before, chunk := chunks[..|chunks| - 1], chunks[|chunks| - 1];
      AfterChunks(m, s, i, before);
      var n, p := |Concat(before)|, ConsumeAll(m, before);
      assert chunk == s[n..n + |chunk|];
      if chunk != "" {
        hide Runs, Seeks, Located, StreamOk, Consume;
        if i < 0 || n <= i + |m.begin| {
          ConsumeSeeks(m, s, i, n, p, chunk);
        } else {
          ConsumeRunsInStream(m, s, i, n, p, chunk);
        }
      }
    }
  }

  lemma ConsumeRunsInStream(m: Markers, s: string, i: nat, n: nat, p: Parser, chunk: string)
    requires MarkersOk(m) && StreamOk(m, s, i) && i + |m.begin| < n && n + |chunk| <= |s|
    requires Phase(m, s, i, n, p) && chunk != "" && chunk == s[n..n + |chunk|]
    ensures Phase(m, s, i, n + |chunk|, Consume(m, p, chunk))
  {
    hide Runs, Consume, EndUncut;
    var b := i + |m.begin|;
    assert s[b..][n - b..n - b + |chunk|] == s[n..n + |chunk|];
    ConsumeRuns(m, s[b..], n - b, p, chunk);
  }

  // ---- one answer for every chunking ----

  /** A command finishes exactly once with the exit code of the first end marker, and what it printed before
      that marker is handed out, up to leading line breaks, for every way of cutting the stream. */
  lemma FinishesOnce(m: Markers, chunks: seq<string>, s: string, i: nat)
    requires MarkersOk(m) && Concat(chunks) == s && FirstLine(s, m.begin, i)
    requires FindEnd(s[i + |m.begin|..], m.end).Some? && EndUncut(s[i + |m.begin|..], m.end)
    ensures var body, p := s[i + |m.begin|..], ConsumeAll(m, chunks);
      var end := FindEnd(body, m.end).value;
      && p.started && p.finished && p.results == [ExitCode(end.code)] && TrimBreaks(p.out) == TrimBreaks(body[..end.at])
  {
    hide FindEnd, TakeExitCode, EndUncut, ExitCode, ConsumeAll, Concat;
    var body, p := s[i + |m.begin|..], ConsumeAll(m, chunks);
    AfterChunks(m, s, i, chunks);
    var end := FindEnd(body, m.end).value;
    FindEndReads(body, m.end);
    assert Complete(body, m.end, end.at) <= |body|;
    var t :| 0 <= t <= end.at && AllBreaks(body[..t]) &&
      p == Parser("", true, true, body[t..end.at], [ExitCode(end.code)]);
    assert body[..end.at][t..] == body[t..end.at];
    assert body[..end.at][..t] == body[..t];
    LeadingBreaksGo(body[..end.at], t);
  }

  lemma {:induction false} LeadingBreaksGo(s: string, t: nat)
    requires t <= |s| && AllBreaks(s[..t])
    ensures TrimBreaks(s) == TrimBreaks(s[t..])
  {
    if t > 0 {
      assert s[..t][0] == s[0];
      assert s[1..][..t - 1] == s[..t][1..];
      LeadingBreaksGo(s[1..], t - 1);
      assert s[1..][t - 1..] == s[t..];
    } else {
      assert s[0..] == s;
    }
  }

  lemma TracksWhole(body: string, c: nat, t: nat, p: Parser)
    requires Tracks(body, |body|, c, t, p)
    ensures p.out + p.pending == body[t..]
  {
    assert body[t..c] + body[c..] == body[t..];
    assert body[c..|body|] == body[c..];
  }

  /** Without an end marker the command keeps running, and what it was handed plus what is pending is the
      body so far, up to leading line breaks. */
  lemma KeepsRunning(m: Markers, chunks: seq<string>, s: string, i: nat)
    requires MarkersOk(m) && Concat(chunks) == s && FirstLine(s, m.begin, i)
    requires FindEnd(s[i + |m.begin|..], m.end).None?
    ensures var body, p := s[i + |m.begin|..], ConsumeAll(m, chunks);
      && p.started && !p.finished && p.results == [] && TrimBreaks(p.out + p.pending) == TrimBreaks(body)
  {
    hide FindEnd, TakeExitCode, ConsumeAll, Concat;
    var body, p := s[i + |m.begin|..], ConsumeAll(m, chunks);
    AfterChunks(m, s, i, chunks);
    var c: nat, t: nat :| Tracks(body, |body|, c, t, p);
    hide Runs;
    TracksWhole(body, c, t, p);
    LeadingBreaksGo(body, t);
  }

  /** Without a start marker line nothing is ever handed out. */
  lemma NeverStarts(m: Markers, chunks: seq<string>, s: string)
    requires MarkersOk(m) && Concat(chunks) == s && NoLine(s, m.begin)
    ensures var p := ConsumeAll(m, chunks);
      !p.started && !p.finished && p.out == "" && p.results == [] && HasSuffix(s, p.pending)
  {
    hide FindEnd, ConsumeAll, Concat;
    AfterChunks(m, s, -1, chunks);
    var p := ConsumeAll(m, chunks);
    var a :| 0 <= a <= |s| && p == FRESH.(pending := s[a..|s|]);
    assert s[a..|s|] == s[a..];
  }

  /** Chunking independence: two ways of cutting one stream agree on whether the command started and
      finished, on its exit code, and on its output up to leading line breaks. */
  lemma ChunkingIndependence(m: Markers, left: seq<string>, right: seq<string>, s: string)
    requires MarkersOk(m) && Concat(left) == s && Concat(right) == s
    requires NoLine(s, m.begin) ||
      exists i: nat :: FirstLine(s, m.begin, i) && EndUncut(s[i + |m.begin|..], m.end)
    ensures var p, q := ConsumeAll(m, left), ConsumeAll(m, right);
      && p.started == q.started && p.finished == q.finished && p.results == q.results && |p.results| <= 1
      && (if p.finished then TrimBreaks(p.out) == TrimBreaks(q.out)
          else p.started ==> TrimBreaks(p.out + p.pending) == TrimBreaks(q.out + q.pending))
  {
    hide FindEnd, ConsumeAll, Concat, EndUncut, TrimBreaks, NoLine;
    if NoLine(s, m.begin) {
      NeverStarts(m, left, s);
      NeverStarts(m, right, s);
    } else {
      var i: nat :| FirstLine(s, m.begin, i) && EndUncut(s[i + |m.begin|..], m.end);
      if FindEnd(s[i + |m.begin|..], m.end).Some? {
        FinishesOnce(m, left, s, i);
        FinishesOnce(m, right, s, i);
      } else {
        KeepsRunning(m, left, s, i);
        KeepsRunning(m, right, s, i);
      }
    }
  }

  // ---- what is held back ----

  function Bound(m: Markers): nat {
    |m.begin| + Keep(m) + MAX_PENDING_LINE_BYTES
  }

  lemma SplitHoldsLittle(value: string, keep: nat)
    requires SplitForEmit(value, keep).0 == "" && |value| > keep
    ensures |value| <= MAX_PENDING_LINE_BYTES && LastBreak(value) == -1
  {
  }

  lemma {:induction false} SettleHoldsLittle(m: Markers, p: Parser)
    requires UsableMarkers(m)
    ensures |Settle(m, p).pending| <= Keep(m) + MAX_PENDING_LINE_BYTES
    decreases |p.pending|
  {
    hide FindEnd, SplitForEmit;
    if FindEnd(p.pending, m.end).None? && |p.pending| > Keep(m) {
      var (emit, rest) := SplitForEmit(p.pending, Keep(m));
      SplitJoins(p.pending, Keep(m));
      if emit == "" {
        SplitHoldsLittle(p.pending, Keep(m));
      } else {
        SettleHoldsLittle(m, p.(out := p.out + emit, pending := rest));
      }
    }
  }

  /** However long the stream and whatever it holds, the parser keeps a bounded text back. */
  lemma {:induction false} PendingIsBounded(m: Markers, chunks: seq<string>)
    requires UsableMarkers(m)
    ensures |ConsumeAll(m, chunks).pending| <= Bound(m)
  {
    hide Settle, FindMarkerLine, TrimBreaks;
    if chunks != [] {
      var p, chunk := ConsumeAll(m, chunks[..|chunks| - 1]), chunks[|chunks| - 1];
      PendingIsBounded(m, chunks[..|chunks| - 1]);
      DrainHoldsLittle(m, p.(pending := p.pending + chunk));
      hide Drain;
    }
  }

  lemma DrainHoldsLittle(m: Markers, p: Parser)
    requires UsableMarkers(m)
    ensures |Drain(m, p).pending| <= Bound(m)
  {
    hide Settle, FindMarkerLine, TrimBreaks;
    if p.started {
      SettleHoldsLittle(m, p);
    } else if FindMarkerLine(p.pending, m.begin) >= 0 {
      SettleHoldsLittle(m, p.(pending := TrimBreaks(p.pending[FindMarkerLine(p.pending, m.begin) + |m.begin|..]),
                              started := true));
    }
  }

  // What the parser may still hold back once the output has started.
  predicate HeldBack(m: Markers, p: Parser) {
    p.started && !p.finished ==>
      |p.pending| <= Keep(m) || (NoBreaks(p.pending) && |p.pending| <= MAX_PENDING_LINE_BYTES)
  }

  lemma {:induction false} SettleHoldsOneLine(m: Markers, p: Parser)
    requires UsableMarkers(m) && p.started
    ensures HeldBack(m, Settle(m, p)) && Settle(m, p).started
    decreases |p.pending|
  {
    hide FindEnd, SplitForEmit, NoBreaks;
    if FindEnd(p.pending, m.end).None? && |p.pending| > Keep(m) {
      var (emit, rest) := SplitForEmit(p.pending, Keep(m));
      SplitJoins(p.pending, Keep(m));
      if emit == "" {
        SplitHoldsLittle(p.pending, Keep(m));
        NoLastBreak(p.pending);
      } else {
        SettleHoldsOneLine(m, p.(out := p.out + emit, pending := rest));
      }
    }
  }

  lemma NoLastBreak(s: string)
    requires LastBreak(s) == -1
    ensures NoBreaks(s)
  {
    forall i | 0 <= i < |s| ensures !IsBreak(s[i]) {
      LastBreakIsLast(s, i);
    }
  }

  /** Output is handed out line by line: whatever is still pending after any chunks of a running command is shorter than
      an end marker with its code, or is one line that has not ended and is at most 64 KiB long. */
  lemma {:induction false} LinesAreHandedOut(m: Markers, chunks: seq<string>)
    requires UsableMarkers(m)
    ensures HeldBack(m, ConsumeAll(m, chunks))
  {
    hide Settle, FindMarkerLine, TrimBreaks, HeldBack;
    if chunks == [] {
      FreshHoldsNothing(m);
    } else {
      var p, chunk := ConsumeAll(m, chunks[..|chunks| - 1]), chunks[|chunks| - 1];
      LinesAreHandedOut(m, chunks[..|chunks| - 1]);
      DrainHoldsOneLine(m, p.(pending := p.pending + chunk));
      hide Drain;
    }
  }

  lemma FreshHoldsNothing(m: Markers)
    ensures HeldBack(m, FRESH)
  {
  }

  lemma DrainHoldsOneLine(m: Markers, p: Parser)
    requires UsableMarkers(m)
    ensures HeldBack(m, Drain(m, p))
  {
    hide Settle, FindMarkerLine, TrimBreaks, KeepTail, NoBreaks;
    if p.started {
      SettleHoldsOneLine(m, p);
    } else if FindMarkerLine(p.pending, m.begin) >= 0 {
      SettleHoldsOneLine(m, p.(pending := TrimBreaks(p.pending[FindMarkerLine(p.pending, m.begin) + |m.begin|..]),
                               started := true));
    }
  }
}
