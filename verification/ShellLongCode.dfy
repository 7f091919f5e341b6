/** Exactly when the end marker is recognised however the stream is cut. A line without a break is handed out up to
    the last few bytes once it is longer than 64 KiB, which can cut through an end marker whose exit code is
    followed by much white space. */
module ShellLongCode {
  import opened SeqTools
  import opened ShellScan
  import opened ShellParser
  import opened ShellChunking

  ghost predicate OnlyEnd(body: string, marker: string, j: nat) {
    EndAt(body, marker, j) && forall x: nat :: EndAt(body, marker, x) ==> x == j
  }

  lemma EndFacts(m: Markers, body: string, j: nat)
    requires MarkersOk(m) && OnlyEnd(body, m.end, j)
    ensures UsableMarkers(m) && m.end != "" && ColonEnded(m.end) && EndAt(body, m.end, j)
  {
  }

  lemma OnlyEndIsFound(body: string, marker: string, j: nat)
    requires marker != "" && ColonEnded(marker) && OnlyEnd(body, marker, j)
    ensures FindEnd(body, marker).Some? && FindEnd(body, marker).value.at == j && j + |marker| <= |body|
  {
    hide FindEnd, CodeAt, ColonEnded;
    FindEndIsFirst(body, marker, j);
    FindEndReads(body, marker);
  }

  // ---- the whole stream in one chunk ----

  lemma OneChunk(m: Markers, s: string)
    requires MarkersOk(m) && s != ""
    ensures Concat([s]) == s && ConsumeAll(m, [s]) == Drain(m, FRESH.(pending := s))
  {
    hide Drain;
    assert [s][..0] == [];
    assert "" + s == s;
  }

  lemma DrainOpens(m: Markers, s: string, i: nat, n: nat)
    requires MarkersOk(m) && FirstLine(s, m.begin, i) && i + |m.begin| < n <= |s|
    ensures Drain(m, FRESH.(pending := s[..n])) == Settle(m, Opened(m, s, i, 0, n))
  {
    assert s[0..n] == s[..n];
    SeekInWindow(s, m.begin, i, 0, n);
    hide FindMarkerLine, Settle, TrimBreaks, FirstLine;
  }

  lemma WholeFinishes(m: Markers, s: string, i: nat, j: nat)
    requires MarkersOk(m) && FirstLine(s, m.begin, i) && i + |m.begin| < |s| && OnlyEnd(s[i + |m.begin|..], m.end, j)
    ensures Concat([s]) == s && ConsumeAll(m, [s]).finished
  {
    OneChunk(m, s);
    assert s[..|s|] == s;
    DrainOpens(m, s, i, |s|);
    hide Drain, ConsumeAll, Concat, Settle, Opened, FirstLine;
    OpenedFinishes(m, s, i, j, s[i + |m.begin|..]);
  }

  lemma OpenedFinishes(m: Markers, s: string, i: nat, j: nat, body: string)
    requires MarkersOk(m) && i + |m.begin| < |s| && body == s[i + |m.begin|..] && OnlyEnd(body, m.end, j)
    ensures Settle(m, Opened(m, s, i, 0, |s|)).finished
  {
    hide *;
    EndFacts(m, body, j);
    OnlyEndIsFound(body, m.end, j);
    CompleteArrives(body, m.end, j);
    var t := OpenedTracks(m, s, i, 0, |s|);
    SettleFinishes(m, body, |body|, t, t, Opened(m, s, i, 0, |s|));
  }

  lemma CompleteArrives(body: string, marker: string, j: nat)
    requires EndAt(body, marker, j) && j + |marker| <= |body|
    ensures j + |marker| <= BreakAfter(body, j + |marker|) < |body| && Complete(body, marker, j) <= |body|
  {
    EndHasBreak(body, marker, j);
  }

  // ---- cut at the line break after the exit code ----

  // The only line break a window up to the exit code's line break shows last is the one before the marker's line.
  lemma LastBreakOfWindow(m: Markers, body: string, value: string, c: nat, n: nat, j: nat)
    requires MarkersOk(m) && EndAt(body, m.end, j) && j + |m.end| <= |body| && n == BreakAfter(body, j + |m.end|)
    requires c <= LineStart(body, j) && c <= n && value == body[c..n]
    ensures LastBreak(value) == LineStart(body, j) - 1 - c
  {
    hide *;
    var line := LineStart(body, j);
    forall k | line - c <= k < n - c ensures !IsBreak(value[k]) {
      NoBreakInLine(m, body, n, j, c + k);
    }
    if c < line {
      BreakBeforeLine(body, j);
    }
    LastBreakIs(value, line - 1 - c);
  }

  lemma NoBreakInLine(m: Markers, body: string, n: nat, j: nat, k: nat)
    requires MarkersOk(m) && EndAt(body, m.end, j) && j + |m.end| <= |body| && n == BreakAfter(body, j + |m.end|)
    requires LineStart(body, j) <= k < n
    ensures !IsBreak(body[k])
  {
    hide ColonEnded, EndAt, BreakAfter;
    if k < j {
      LastBreakIsLast(body[..j], k);
      assert body[..j][k] == body[k];
    } else if IsBreak(body[k]) {
      NoBreakBeforeComplete(body, m.end, j, k);
    }
  }

  lemma BreakBeforeLine(body: string, j: nat)
    requires j <= |body| && LineStart(body, j) > 0
    ensures IsBreak(body[LineStart(body, j) - 1])
  {
    LastBreakIsLast(body[..j], 0);
  }

  // A line break with none after it is the last one; -1 stands for none at all.
  lemma LastBreakIs(s: string, b: int)
    requires -1 <= b < |s| && (b >= 0 ==> IsBreak(s[b])) && forall k | b < k < |s| :: !IsBreak(s[k])
    ensures LastBreak(s) == b
  {
    hide LastBreak;
    if LastBreak(s) != b {
      LastBreakIsLast(s, if LastBreak(s) < b then b else LastBreak(s));
    }
  }

  lemma NoEndBeyond(body: string, marker: string, window: string, c: nat, n: nat, j: nat)
    requires marker != "" && OnlyEnd(body, marker, j) && j < c <= n <= |body| && window == body[c..n]
    ensures FindEnd(window, marker).None?
  {
    hide FindEnd, EndAt, CodeAt;
    if FindEnd(window, marker).Some? {
      FindEndReads(window, marker);
      EndInWindow(body, marker, window, c, n, FindEnd(window, marker).value.at);
    }
  }

  // ---- the marker's line is cut through ----

  // Everything from c on of the n body bytes that arrived is pending.
  predicate Pends(body: string, n: nat, c: nat, p: Parser) {
    c <= n <= |body| && p.started && !p.finished && p.pending == body[c..n]
  }

  // One round of Settle without an end marker in sight.
  lemma SettleStep(m: Markers, p: Parser)
    requires UsableMarkers(m) && FindEnd(p.pending, m.end).None?
    ensures var (emit, rest) := SplitForEmit(p.pending, Keep(m));
      Settle(m, p) ==
        if |p.pending| <= Keep(m) || emit == "" then p else Settle(m, p.(out := p.out + emit, pending := rest))
  {
    hide FindEnd, SplitForEmit;
  }

  lemma PendsFacts(body: string, n: nat, c: nat, p: Parser)
    requires Pends(body, n, c, p)
    ensures c <= n <= |body| && p.pending == body[c..n] && |p.pending| == n - c
  {
  }

  lemma EmitPends(body: string, n: nat, c: nat, p: Parser, emit: string, rest: string)
    requires Pends(body, n, c, p) && p.pending == emit + rest
    ensures Pends(body, n, c + |emit|, p.(out := p.out + emit, pending := rest))
  {
    assert rest == p.pending[|emit|..];
    SliceOfWindow(body, c, n, |emit|, n - c);
  }

  // Once the only end marker has been passed nothing finishes the command.
  lemma {:induction false} SettleBeyond(m: Markers, body: string, n: nat, c: nat, j: nat, p: Parser) returns (c': nat)
    requires MarkersOk(m) && OnlyEnd(body, m.end, j) && j < c && Pends(body, n, c, p)
    ensures j < c' && Pends(body, n, c', Settle(m, p))
    decreases n - c
  {
    hide *;
    EndFacts(m, body, j);
    PendsFacts(body, n, c, p);
    NoEndBeyond(body, m.end, p.pending, c, n, j);
    SettleStep(m, p);
    var (emit, rest) := SplitForEmit(p.pending, Keep(m));
    SplitJoins(p.pending, Keep(m));
    c' := c;
    if |p.pending| > Keep(m) && emit != "" {
      EmitPends(body, n, c, p, emit, rest);
      c' := SettleBeyond(m, body, n, c + |emit|, j, p.(out := p.out + emit, pending := rest));
    }
  }

  // What the split does up to the exit code's line break: complete lines go first, then the marker's line.
  lemma SplitOfWindow(m: Markers, body: string, value: string, c: nat, n: nat, j: nat)
    requires MarkersOk(m) && EndAt(body, m.end, j) && j + |m.end| <= |body| && n == BreakAfter(body, j + |m.end|)
    requires c <= LineStart(body, j) && c <= n && value == body[c..n] && !Uncut(body, m.end, j)
    ensures var emit := SplitForEmit(value, Keep(m)).0;
      && |value| > Keep(m) && emit != ""
      && if c < LineStart(body, j) then c + |emit| == LineStart(body, j) else c + |emit| > j
  {
    hide MarkersOk, EndAt, LastBreak, BreakAfter, LineStart;
    LastBreakOfWindow(m, body, value, c, n, j);
  }

  // The first round up to the exit code's line break hands out everything up to the marker's line, or, when that is
  // all there is, more than up to the marker.
  lemma Round(m: Markers, body: string, n: nat, c: nat, j: nat, p: Parser) returns (p': Parser, c': nat)
    requires MarkersOk(m) && OnlyEnd(body, m.end, j) && j + |m.end| <= |body| && n == BreakAfter(body, j + |m.end|)
    requires !Uncut(body, m.end, j) && c <= LineStart(body, j) && Pends(body, n, c, p)
    ensures Settle(m, p) == Settle(m, p') && Pends(body, n, c', p')
    ensures if c < LineStart(body, j) then c' == LineStart(body, j) else c' > j
  {
    hide *;
    EndFacts(m, body, j);
    PendsFacts(body, n, c, p);
    NoEndYet(m, body, p.pending, c, n, j);
    SettleStep(m, p);
    SplitOfWindow(m, body, p.pending, c, n, j);
    var (emit, rest) := SplitForEmit(p.pending, Keep(m));
    SplitJoins(p.pending, Keep(m));
    EmitPends(body, n, c, p, emit, rest);
    p', c' := p.(out := p.out + emit, pending := rest), c + |emit|;
  }

  lemma SettlePasses(m: Markers, body: string, n: nat, c: nat, j: nat, p: Parser) returns (c': nat)
    requires MarkersOk(m) && OnlyEnd(body, m.end, j) && j + |m.end| <= |body| && n == BreakAfter(body, j + |m.end|)
    requires !Uncut(body, m.end, j) && c <= LineStart(body, j) && Pends(body, n, c, p)
    ensures j < c' && Pends(body, n, c', Settle(m, p))
  {
    hide *;
    var p', line := Round(m, body, n, c, j, p);
    c' := line;
    if c < LineStart(body, j) {
      p', c' := Round(m, body, n, line, j, p');
    }
    c' := SettleBeyond(m, body, n, c', j, p');
  }

  lemma NoEndYet(m: Markers, body: string, window: string, c: nat, n: nat, j: nat)
    requires MarkersOk(m) && OnlyEnd(body, m.end, j) && j + |m.end| <= |body| && n == BreakAfter(body, j + |m.end|)
    requires c <= j && c <= n && window == body[c..n]
    ensures FindEnd(window, m.end).None?
  {
    OnlyEndIsFound(body, m.end, j);
    hide FindEnd, EndAt, ColonEnded, BreakAfter;
    FindEndInWindow(body, m.end, window, c, n);
  }

  // Leading line breaks end before the marker's line.
  lemma TrimmedBeforeLine(m: Markers, body: string, t: nat, j: nat)
    requires MarkersOk(m) && EndAt(body, m.end, j) && t <= j <= |body| && AllBreaks(body[..t])
    ensures t <= LineStart(body, j)
  {
    hide EndAt, ColonEnded;
    if t > 0 {
      assert body[..j][t - 1] == body[..t][t - 1];
      LastBreakIsLast(body[..j], t - 1);
    }
  }

  // ---- the two chunks ----

  lemma FirstOfTwo(m: Markers, first: string, second: string)
    requires MarkersOk(m) && first != "" && second != ""
    ensures Concat([first, second]) == first + second
    ensures ConsumeAll(m, [first, second]) == Consume(m, Drain(m, FRESH.(pending := first)), second)
  {
    OneChunk(m, first);
    hide Drain;
    assert [first, second][..1] == [first];
  }

  // Cut right before the exit code's line break: the command never finishes.
  lemma CutNeverFinishes(m: Markers, s: string, i: nat, j: nat, body: string, cut: nat)
    requires MarkersOk(m) && FirstLine(s, m.begin, i) && i + |m.begin| < |s| && body == s[i + |m.begin|..]
    requires OnlyEnd(body, m.end, j) && j + |m.end| <= |body| && !Uncut(body, m.end, j)
    requires cut == i + |m.begin| + BreakAfter(body, j + |m.end|)
    ensures cut <= |s| && Concat([s[..cut], s[cut..]]) == s && !ConsumeAll(m, [s[..cut], s[cut..]]).finished
  {
    hide *;
    EndFacts(m, body, j);
    CompleteArrives(body, m.end, j);
    var n := BreakAfter(body, j + |m.end|);
    CutJoins(s, i + |m.begin|, n);
    FirstOfTwo(m, s[..cut], body[n..]);
    DrainOpens(m, s, i, cut);
    var c := FirstPasses(m, s, i, j, body, n);
    SecondStays(m, body, n, c, j, Settle(m, Opened(m, s, i, 0, cut)), body[n..]);
  }

  lemma CutJoins(s: string, b: nat, n: nat)
    requires b + n < |s| && 0 < b + n
    ensures s[..b + n] != "" && s[b + n..] == s[b..][n..] != "" && s[..b + n] + s[b + n..] == s
  {
  }

  lemma FirstPasses(m: Markers, s: string, i: nat, j: nat, body: string, n: nat) returns (c: nat)
    requires MarkersOk(m) && i + |m.begin| < |s| && body == s[i + |m.begin|..] && OnlyEnd(body, m.end, j)
    requires j + |m.end| <= |body| && !Uncut(body, m.end, j) && n == BreakAfter(body, j + |m.end|) && n <= |body|
    ensures j < c && Pends(body, n, c, Settle(m, Opened(m, s, i, 0, i + |m.begin| + n)))
  {
    hide *;
    EndFacts(m, body, j);
    OnlyEndIsFound(body, m.end, j);
    CompleteArrives(body, m.end, j);
    var p := Opened(m, s, i, 0, i + |m.begin| + n);
    var t := OpenedTracks(m, s, i, 0, i + |m.begin| + n);
    TracksPends(body, n, t, t, p);
    TrimmedBeforeLine(m, body, t, j);
    c := SettlePasses(m, body, n, t, j, p);
  }

  lemma TracksPends(body: string, n: nat, c: nat, t: nat, p: Parser)
    requires Tracks(body, n, c, t, p)
    ensures Pends(body, n, c, p) && t <= |body| && AllBreaks(body[..t])
  {
  }

  lemma SecondStays(m: Markers, body: string, n: nat, c: nat, j: nat, q: Parser, chunk: string)
    requires MarkersOk(m) && OnlyEnd(body, m.end, j) && j < c && Pends(body, n, c, q) && chunk == body[n..] && chunk != ""
    ensures !Consume(m, q, chunk).finished
  {
    assert body[c..n] + chunk == body[c..|body|];
    hide OnlyEnd, Settle, ColonEnded;
    var c' := SettleBeyond(m, body, |body|, c, j, q.(pending := q.pending + chunk));
  }

  ghost predicate CutsAgreeOnEnd(m: Markers, s: string)
    requires MarkersOk(m)
  {
    forall left, right | Concat(left) == s && Concat(right) == s ::
      ConsumeAll(m, left).finished == ConsumeAll(m, right).finished
  }

  /** For every stream with a clear start marker line and one end marker: all ways of cutting it agree on whether the
      command finishes if and only if the end marker's line cannot be cut through. */
  lemma EndIsCutProofIff(m: Markers, s: string, i: nat, body: string, j: nat)
    requires MarkersOk(m) && FirstLine(s, m.begin, i) && i + |m.begin| < |s| && body == s[i + |m.begin|..]
    requires OnlyEnd(body, m.end, j) && j + |m.end| <= |body|
    ensures CutsAgreeOnEnd(m, s) <==> Uncut(body, m.end, j)
  {
    hide *;
    EndFacts(m, body, j);
    if Uncut(body, m.end, j) {
      forall chunks | Concat(chunks) == s ensures ConsumeAll(m, chunks).finished {
        UncutFinishes(m, s, i, body, j, chunks);
      }
      AllFinishAgree(m, s);
    } else {
      var cut := CutThrough(m, s, i, body, j);
      CutsDisagree(m, s, [s], [s[..cut], s[cut..]]);
    }
  }

  lemma AllFinishAgree(m: Markers, s: string)
    requires MarkersOk(m) && forall chunks | Concat(chunks) == s :: ConsumeAll(m, chunks).finished
    ensures CutsAgreeOnEnd(m, s)
  {
    hide ConsumeAll, Concat;
  }

  lemma CutsDisagree(m: Markers, s: string, left: seq<string>, right: seq<string>)
    requires MarkersOk(m) && Concat(left) == s && Concat(right) == s
    requires ConsumeAll(m, left).finished && !ConsumeAll(m, right).finished
    ensures !CutsAgreeOnEnd(m, s)
  {
    hide ConsumeAll, Concat;
  }

  lemma CutThrough(m: Markers, s: string, i: nat, body: string, j: nat) returns (cut: nat)
    requires MarkersOk(m) && FirstLine(s, m.begin, i) && i + |m.begin| < |s| && body == s[i + |m.begin|..]
    requires OnlyEnd(body, m.end, j) && j + |m.end| <= |body| && !Uncut(body, m.end, j)
    ensures Concat([s]) == s && ConsumeAll(m, [s]).finished
    ensures cut <= |s| && Concat([s[..cut], s[cut..]]) == s && !ConsumeAll(m, [s[..cut], s[cut..]]).finished
  {
    hide *;
    EndFacts(m, body, j);
    CompleteArrives(body, m.end, j);
    cut := i + |m.begin| + BreakAfter(body, j + |m.end|);
    WholeFinishes(m, s, i, j);
    CutNeverFinishes(m, s, i, j, body, cut);
  }

  lemma UncutFinishes(m: Markers, s: string, i: nat, body: string, j: nat, chunks: seq<string>)
    requires MarkersOk(m) && FirstLine(s, m.begin, i) && i + |m.begin| < |s| && body == s[i + |m.begin|..]
    requires OnlyEnd(body, m.end, j) && j + |m.end| <= |body| && Uncut(body, m.end, j) && Concat(chunks) == s
    ensures ConsumeAll(m, chunks).finished
  {
    EndFacts(m, body, j);
    hide ConsumeAll, Concat, FirstLine, OnlyEnd, Uncut, ColonEnded, EndAt, FindEnd;
    OnlyEndIsFound(body, m.end, j);
    FinishesOnce(m, chunks, s, i);
  }
}
