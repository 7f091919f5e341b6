/** Exactly when the start marker is found however the stream is cut. The marker overlaps itself, the search skips
    overlapping occurrences, and where a chunk ends decides which of them the search still sees. */
module ShellOverlap {
  import opened Text
  import opened ShellScan
  import opened ShellParser
  import opened ShellChunking

  ghost predicate OnlyLine(s: string, marker: string, i: nat) {
    MarkerLineAt(s, marker, i) && forall x: nat :: MarkerLineAt(s, marker, x) ==> x == i
  }

  // ---- a clear marker line always starts the output ----

  lemma {:induction false} SettleKeepsStarted(m: Markers, p: Parser)
    requires MarkersOk(m) && p.started
    ensures Settle(m, p).started
    decreases |p.pending|
  {
    hide FindEnd, SplitForEmit;
    var (emit, rest) := SplitForEmit(p.pending, Keep(m));
    SplitJoins(p.pending, Keep(m));
    if FindEnd(p.pending, m.end).None? && |p.pending| > Keep(m) && emit != "" {
      SettleKeepsStarted(m, p.(out := p.out + emit, pending := rest));
    }
  }

  lemma DrainStartsIff(m: Markers, p: Parser)
    requires MarkersOk(m) && !p.started
    ensures Drain(m, p).started <==> FindMarkerLine(p.pending, m.begin) >= 0
  {
    hide Settle, FindMarkerLine, TrimBreaks;
    var idx := FindMarkerLine(p.pending, m.begin);
    if idx >= 0 {
      SettleKeepsStarted(m, p.(pending := TrimBreaks(p.pending[idx + |m.begin|..]), started := true));
    }
  }

  // Before the marker line has arrived the parser still seeks; afterwards it has started.
  ghost predicate SeeksThenStarts(m: Markers, s: string, i: nat, n: nat, p: Parser) {
    if n <= i + |m.begin| then Seeks(m, s, i, n, p) else p.started
  }

  lemma SeekingDrain(m: Markers, s: string, i: nat, a: nat, n: nat)
    requires MarkersOk(m) && FirstLine(s, m.begin, i) && a <= i && a <= n <= |s|
    ensures SeeksThenStarts(m, s, i, n, Drain(m, FRESH.(pending := s[a..n])))
  {
    SeekInWindow(s, m.begin, i, a, n);
    DrainStartsIff(m, FRESH.(pending := s[a..n]));
    if n <= i + |m.begin| {
      TailSeeks(m, s, i, a, n);
    }
    hide Settle, KeepTail, TrimBreaks, FindMarkerLine, Seeks, FirstLine;
  }

  lemma SeekingChunk(m: Markers, s: string, i: nat, n: nat, p: Parser, chunk: string)
    requires MarkersOk(m) && FirstLine(s, m.begin, i) && Seeks(m, s, i, n, p) && chunk != ""
    requires n + |chunk| <= |s| && chunk == s[n..n + |chunk|]
    ensures SeeksThenStarts(m, s, i, n + |chunk|, Consume(m, p, chunk))
  {
    hide FirstLine, Drain, SeeksThenStarts, Consume;
    var a :| 0 <= a <= n <= |s| && a <= i && p == FRESH.(pending := s[a..n]);
    hide Seeks;
    ConsumeUnfinished(m, p, chunk);
    assert s[a..n] + chunk == s[a..n + |chunk|];
    SeekingDrain(m, s, i, a, n + |chunk|);
  }

  lemma ChunkStarts(m: Markers, s: string, i: nat, n: nat, p: Parser, chunk: string)
    requires MarkersOk(m) && FirstLine(s, m.begin, i) && SeeksThenStarts(m, s, i, n, p)
    requires n + |chunk| <= |s| && chunk == s[n..n + |chunk|]
    ensures SeeksThenStarts(m, s, i, n + |chunk|, Consume(m, p, chunk))
  {
    hide FirstLine, Drain, Seeks;
    if chunk != "" {
      if n <= i + |m.begin| {
        SeekingChunk(m, s, i, n, p, chunk);
      } else {
        StartedDrain(m, p.(pending := p.pending + chunk));
      }
    }
  }

  lemma StartedDrain(m: Markers, p: Parser)
    requires MarkersOk(m) && p.started
    ensures Drain(m, p).started
  {
    SettleKeepsStarted(m, p);
  }

  lemma {:induction false} AlwaysStarts(m: Markers, s: string, i: nat, chunks: seq<string>)
    requires MarkersOk(m) && FirstLine(s, m.begin, i) && Concat(chunks) <= s
    ensures SeeksThenStarts(m, s, i, |Concat(chunks)|, ConsumeAll(m, chunks))
  {
    hide FirstLine, Consume;
    if chunks == [] {
      assert s[0..0] == "";
    } else {
      var before, chunk := chunks[..|chunks| - 1], chunks[|chunks| - 1];
      AlwaysStarts(m, s, i, before);
      hide SeeksThenStarts;
      assert chunk == s[|Concat(before)|..|Concat(before)| + |chunk|];
      ChunkStarts(m, s, i, |Concat(before)|, ConsumeAll(m, before), chunk);
    }
  }

  // ---- an obstructed one does not ----

  lemma FirstChunk(m: Markers, chunk: string)
    requires MarkersOk(m) && chunk != "" && FindMarkerLine(chunk, m.begin) == -1
    ensures Concat([chunk]) == chunk
    ensures ConsumeAll(m, [chunk]) == FRESH.(pending := KeepTail(chunk, |m.begin|))
  {
    hide FindMarkerLine, KeepTail, Settle;
    assert [chunk][..0] == [];
    assert "" + chunk == chunk;
  }

  lemma TwoChunks(m: Markers, first: string, second: string)
    requires MarkersOk(m) && first != "" && second != "" && FindMarkerLine(first, m.begin) == -1
    ensures Concat([first, second]) == first + second
    ensures ConsumeAll(m, [first, second]) == Drain(m, FRESH.(pending := KeepTail(first, |m.begin|) + second))
  {
    FirstChunk(m, first);
    hide FindMarkerLine, KeepTail, Drain;
    assert [first, second][..1] == [first];
  }

  // Cut right after an occurrence at x that the only marker line does not precede: the second chunk is searched
  // from x on.
  lemma CutAfter(m: Markers, s: string, i: nat, x: nat)
    requires MarkersOk(m) && OnlyLine(s, m.begin, i) && x <= i
    ensures var cut := x + |m.begin|;
      && cut < |s| && Concat([s[..cut], s[cut..]]) == s
      && (ConsumeAll(m, [s[..cut], s[cut..]]).started <==> FindMarkerLine(s[x..], m.begin) >= 0)
  {
    hide MarkerLineAt, KeepTail, Drain;
    var cut := x + |m.begin|;
    LineInside(s, m.begin, i);
    assert s[..cut] == s[0..cut];
    var r := FindMarkerLine(s[..cut], m.begin);
    if r >= 0 {
      MarkerLineInWindow(s, m.begin, 0, cut, r);
    }
    TwoChunks(m, s[..cut], s[cut..]);
    TailOfCut(s, x, |m.begin|);
    DrainStartsIff(m, FRESH.(pending := s[x..]));
    assert s[..cut] + s[cut..] == s;
  }

  lemma LineInside(s: string, marker: string, i: nat)
    requires MarkerLineAt(s, marker, i)
    ensures i + |marker| < |s|
  {
  }

  lemma TailOfCut(s: string, x: nat, n: nat)
    requires 0 < n && x + n <= |s|
    ensures KeepTail(s[..x + n], n) + s[x + n..] == s[x..]
  {
    assert KeepTail(s[..x + n], n) == s[x..x + n];
  }

  // From an obstructing occurrence on, the search steps over the marker line.
  lemma SearchStepsOver(m: Markers, s: string, i: nat, k: nat)
    requires MarkersOk(m) && OnlyLine(s, m.begin, i) && OccursAt(s, m.begin, k) && k < i < k + |m.begin|
    ensures FindMarkerLine(s[k..], m.begin) == -1
  {
    var w, n := s[k..], |m.begin|;
    assert w == s[k..|s|];
    OccursInWindow(s, m.begin, w, k, |s|, 0);
    MarkerLineInWindow(s, m.begin, k, |s|, 0);
    FirstIsPassed(w, m.begin);
    hide MarkerLineAt, OccursAt;
    var r := MarkerLineFrom(w, m.begin, n);
    if r >= 0 {
      MarkerLineInWindow(s, m.begin, k, |s|, r);
    }
  }

  lemma FirstIsPassed(w: string, marker: string)
    requires marker != "" && OccursAt(w, marker, 0) && !MarkerLineAt(w, marker, 0)
    ensures FindMarkerLine(w, marker) == MarkerLineFrom(w, marker, |marker|)
  {
  }

  lemma SearchFindsAt(m: Markers, s: string, i: nat)
    requires MarkersOk(m) && MarkerLineAt(s, m.begin, i)
    ensures FindMarkerLine(s[i..], m.begin) == 0
  {
    assert s[i..] == s[i..|s|];
    MarkerLineInWindow(s, m.begin, i, |s|, 0);
  }

  /** With an occurrence at k reaching into the only marker line at i, cutting right after the one at k misses the
      marker line and cutting right after the one at i finds it. */
  lemma ObstructedDependsOnCuts(m: Markers, s: string, i: nat, k: nat)
    requires MarkersOk(m) && OnlyLine(s, m.begin, i) && OccursAt(s, m.begin, k) && k < i < k + |m.begin|
    ensures var x, y := k + |m.begin|, i + |m.begin|;
      && x < y < |s| && Concat([s[..x], s[x..]]) == s && Concat([s[..y], s[y..]]) == s
      && !ConsumeAll(m, [s[..x], s[x..]]).started && ConsumeAll(m, [s[..y], s[y..]]).started
  {
    hide ConsumeAll, Concat, FindMarkerLine;
    CutAfter(m, s, i, k);
    CutAfter(m, s, i, i);
    SearchStepsOver(m, s, i, k);
    SearchFindsAt(m, s, i);
  }

  ghost predicate CutsAgreeOnStart(m: Markers, s: string)
    requires MarkersOk(m)
  {
    forall left, right | Concat(left) == s && Concat(right) == s ::
      ConsumeAll(m, left).started == ConsumeAll(m, right).started
  }

  /** For every stream with one start marker line: all ways of cutting it agree on whether the output starts if and
      only if no other occurrence of the marker reaches into that line's. */
  lemma StartIsCutProofIff(m: Markers, s: string, i: nat)
    requires MarkersOk(m) && OnlyLine(s, m.begin, i)
    ensures CutsAgreeOnStart(m, s) <==> !Obstructed(s, m.begin, i)
  {
    hide ConsumeAll, Concat;
    LineInside(s, m.begin, i);
    if Obstructed(s, m.begin, i) {
      var k :| i - |m.begin| < k < i && OccursAt(s, m.begin, k);
      ObstructedDependsOnCuts(m, s, i, k);
    } else {
      forall chunks | Concat(chunks) == s ensures ConsumeAll(m, chunks).started {
        AlwaysStarts(m, s, i, chunks);
      }
    }
  }

  // ---- the markers in use can be obstructed ----

  // Two start markers that share two underscores, and a line break.
  function Overlapping(id: string): string {
    StartMarker(id) + StartMarker(id)[2..] + "\n"
  }

  lemma OverlappingHasOneLine(id: string)
    requires IsID(id)
    ensures |StartMarker(id)| > 2 && OnlyLine(Overlapping(id), StartMarker(id), |StartMarker(id)| - 2)
    ensures Obstructed(Overlapping(id), StartMarker(id), |StartMarker(id)| - 2)
  {
    var m, s := StartMarker(id), Overlapping(id);
    var n := |m|;
    CommandMarkersOk(id);
    OverlappingParts(id);
    hide StartMarker, Overlapping;
    forall x: nat | MarkerLineAt(s, m, x) ensures x == n - 2 {
      assert IsBreak(s[x + n]);
    }
  }

  lemma OverlappingParts(id: string)
    ensures var m, s, n := StartMarker(id), Overlapping(id), |StartMarker(id)|;
      && n > 2 && |s| == 2 * n - 1 && OccursAt(s, m, 0) && OccursAt(s, m, n - 2) && s[2 * n - 2] == '\n'
      && s[..2 * n - 2] == m + m[2..]
  {
    var m, s := StartMarker(id), Overlapping(id);
    var n := |m|;
    assert m[n - 2] == '_' && m[n - 1] == '_' && m[0] == '_' && m[1] == '_';
    assert s[n - 2..n] == m[..2];
    assert s[n..2 * n - 2] == m[2..];
    assert s[n - 2..n - 2 + n] == m[..2] + m[2..];
    assert s[0..n] == m;
  }

  /** For every command id there is a stream whose start depends on the cuts. */
  lemma OverlapDependsOnCuts(id: string)
    requires IsID(id)
    ensures var m := Markers(StartMarker(id), EndPrefix(id)); MarkersOk(m) && !CutsAgreeOnStart(m, Overlapping(id))
  {
    hide *;
    CommandMarkersOk(id);
    OverlappingHasOneLine(id);
    StartIsCutProofIff(Markers(StartMarker(id), EndPrefix(id)), Overlapping(id), |StartMarker(id)| - 2);
  }
}
