/** What a finished command reports: the number printed after its end marker, and the text between its markers. */
module ShellExit {
  import opened Text
  import opened SeqTools
  import opened EventCursor
  import opened ShellScan
  import opened ShellParser
  import opened ShellChunking

  // White space within a line.
  predicate Padding(s: string) {
    forall i | 0 <= i < |s| :: s[i] in ASCII_SPACE && !IsBreak(s[i])
  }

  predicate IsNumber(s: string) {
    s != "" && AllDigits(s)
  }

  // A number alone on the rest of its line, which a line break ends.
  ghost predicate NumberLine(value: string, digits: string) {
    IsNumber(digits) &&
    exists lead, trail, rest :: Padding(lead) && Padding(trail) && rest != "" && IsBreak(rest[0]) &&
      value == lead + digits + trail + rest
  }

  // ---- trimming around a number ----

  lemma {:induction false} TrimLeftKeeps(lead: string, s: string, cutset: set<char>)
    requires forall i | 0 <= i < |lead| :: lead[i] in cutset
    requires s == "" || s[0] !in cutset
    ensures TrimLeft(lead + s, cutset) == s
  {
    if lead == "" {
      assert lead + s == s;
    } else {
      assert (lead + s)[1..] == lead[1..] + s;
      TrimLeftKeeps(lead[1..], s, cutset);
    }
  }

  lemma {:induction false} TrimRightKeeps(s: string, trail: string, cutset: set<char>)
    requires forall i | 0 <= i < |trail| :: trail[i] in cutset
    requires s == "" || s[|s| - 1] !in cutset
    ensures TrimRight(s + trail, cutset) == s
  {
    if trail == "" {
      assert s + trail == s;
    } else {
      assert (s + trail)[..|s + trail| - 1] == s + trail[..|trail| - 1];
      TrimRightKeeps(s, trail[..|trail| - 1], cutset);
    }
  }

  lemma {:induction false} TrimLeftParts(s: string, cutset: set<char>) returns (lead: string)
    ensures s == lead + TrimLeft(s, cutset) && forall i | 0 <= i < |lead| :: lead[i] in cutset
  {
    if s != "" && s[0] in cutset {
      var rest := TrimLeftParts(s[1..], cutset);
      lead := [s[0]] + rest;
    } else {
      lead := "";
    }
  }

  lemma {:induction false} TrimRightParts(s: string, cutset: set<char>) returns (trail: string)
    ensures s == TrimRight(s, cutset) + trail && forall i | 0 <= i < |trail| :: trail[i] in cutset
  {
    if s != "" && s[|s| - 1] in cutset {
      var front := TrimRightParts(s[..|s| - 1], cutset);
      trail := front + [s[|s| - 1]];
    } else {
      trail := "";
    }
  }

  lemma TrimBothKeeps(lead: string, digits: string, trail: string)
    requires Padding(lead) && Padding(trail) && IsNumber(digits)
    ensures TrimBoth(lead + digits + trail) == digits
  {
    assert lead + digits + trail == lead + (digits + trail);
    assert (digits + trail)[0] == digits[0] && IsDigit(digits[0]) && IsDigit(digits[|digits| - 1]);
    TrimLeftKeeps(lead, digits + trail, ASCII_SPACE);
    TrimRightKeeps(digits, trail, ASCII_SPACE);
  }

  lemma {:induction false} FirstBreakIs(line: string, rest: string)
    requires NoBreaks(line) && rest != "" && IsBreak(rest[0])
    ensures FirstBreak(line + rest) == |line|
  {
    if line == "" {
      assert line + rest == rest;
    } else {
      assert (line + rest)[1..] == line[1..] + rest && (line + rest)[0] == line[0];
      FirstBreakIs(line[1..], rest);
    }
  }

  lemma PaddedHasNoBreak(lead: string, digits: string, trail: string)
    requires Padding(lead) && Padding(trail) && AllDigits(digits)
    ensures NoBreaks(lead + digits + trail)
  {
    var line := lead + digits + trail;
    forall i | 0 <= i < |line| ensures !IsBreak(line[i]) {
      if |lead| <= i < |lead| + |digits| {
        assert line[i] == digits[i - |lead|] && IsDigit(digits[i - |lead|]);
      }
    }
  }

  // Trimming blanks and tabs first, as the source does, changes nothing for the space trimmed next.
  lemma {:induction false} BlanksThenSpace(s: string)
    ensures TrimBoth(TrimLeft(s, {' ', '\t'})) == TrimBoth(s)
  {
    if s != "" && s[0] in {' ', '\t'} {
      BlanksThenSpace(s[1..]);
    }
  }

  /** An exit code is read exactly from a number alone on the rest of its line, white space around it or not. */
  lemma CodeIsNumber(value: string, digits: string)
    ensures TakeExitCode(value) == Some(digits) <==> NumberLine(value, digits)
  {
    if NumberLine(value, digits) {
      var lead, trail, rest :| Padding(lead) && Padding(trail) && rest != "" && IsBreak(rest[0]) &&
        value == lead + digits + trail + rest;
      NumberIsRead(lead, digits, trail, rest);
    }
    if TakeExitCode(value) == Some(digits) {
      ReadIsNumber(value, digits);
    }
  }

  lemma NumberIsRead(lead: string, digits: string, trail: string, rest: string)
    requires Padding(lead) && Padding(trail) && IsNumber(digits) && rest != "" && IsBreak(rest[0])
    ensures TakeExitCode(lead + digits + trail + rest) == Some(digits)
  {
    var line := lead + digits + trail;
    var value := line + rest;
    PaddedHasNoBreak(lead, digits, trail);
    FirstBreakIs(line, rest);
    TrimLeftBeforeBreak(value);
    assert value[..|line|] == line;
    BlanksThenSpace(line);
    TrimBothKeeps(lead, digits, trail);
    hide TrimBoth, TrimLeft, FirstBreak;
  }

  lemma ReadIsNumber(value: string, digits: string)
    requires TakeExitCode(value) == Some(digits)
    ensures NumberLine(value, digits)
  {
    var line, rest := LineOfCode(value, digits);
    hide TakeExitCode, TrimLeft, TrimRight, FirstBreak, ASCII_SPACE;
    var lead := TrimLeftParts(line, ASCII_SPACE);
    var trail := TrimRightParts(TrimLeft(line, ASCII_SPACE), ASCII_SPACE);
    assert line == lead + digits + trail;
    PartsArePadding(line, lead, digits, trail);
  }

  lemma LineOfCode(value: string, digits: string) returns (line: string, rest: string)
    requires TakeExitCode(value) == Some(digits)
    ensures value == line + rest && NoBreaks(line) && rest != "" && IsBreak(rest[0])
    ensures IsNumber(digits) && TrimBoth(line) == digits
  {
    hide TrimBoth, TrimLeft;
    var b := FirstBreak(value);
    TrimLeftBeforeBreak(value);
    line, rest := value[..b], value[b..];
    BlanksThenSpace(line);
  }

  lemma PartsArePadding(line: string, lead: string, digits: string, trail: string)
    requires NoBreaks(line) && line == lead + digits + trail
    requires forall i | 0 <= i < |lead| :: lead[i] in ASCII_SPACE
    requires forall i | 0 <= i < |trail| :: trail[i] in ASCII_SPACE
    ensures Padding(lead) && Padding(trail)
  {
    forall i | 0 <= i < |lead| ensures !IsBreak(lead[i]) {
      assert line[i] == lead[i];
    }
    forall i | 0 <= i < |trail| ensures !IsBreak(trail[i]) {
      assert line[|lead + digits| + i] == trail[i];
    }
  }

  // ---- a whole command ----

  // What the shell prints for one command: anything, the start marker, the command's output, the end prefix, a number
  // with white space around it, and the rest from the next line break on.
  datatype Printout = Printout(before: string, output: string, lead: string, digits: string, trail: string, rest: string)

  function CodeText(r: Printout): string {
    r.lead + r.digits + r.trail
  }

  function Body(m: Markers, r: Printout): string {
    r.output + m.end + CodeText(r) + r.rest
  }

  function Stream(m: Markers, r: Printout): string {
    r.before + m.begin + Body(m, r)
  }

  // The start marker stands on a line of its own and is the first one; the output holds no end prefix; and the exit code
  // is short, or the line it ends is.
  predicate WellPrinted(m: Markers, r: Printout) {
    && (r.before == "" || IsBreak(r.before[|r.before| - 1])) && Index(r.before, m.begin) < 0
    && r.output != "" && IsBreak(r.output[0]) && Index(r.output, m.end) < 0
    && Padding(r.lead) && Padding(r.trail) && IsNumber(r.digits) && r.rest != "" && IsBreak(r.rest[0])
    && (|CodeText(r)| <= CODE_BYTES ||
        |r.output| - (LastBreak(r.output) + 1) + |m.end| + |CodeText(r)| <= MAX_PENDING_LINE_BYTES)
  }

  // No occurrence lies within a part that has none.
  lemma NotInFront(s: string, front: string, pat: string, k: nat)
    requires |front| <= |s| && front == s[..|front|] && Index(front, pat) < 0 && k + |pat| <= |front|
    ensures !OccursAt(s, pat, k)
  {
    SliceOfWindow(s, 0, |front|, k, k + |pat|);
    assert s[0..|front|] == front && !OccursAt(front, pat, k);
  }

  lemma StreamParts(m: Markers, r: Printout, s: string)
    requires r.output != "" && s == Stream(m, r)
    ensures var i, n := |r.before|, |m.begin|;
      && i + n < |s| && s[..i] == r.before && OccursAt(s, m.begin, i)
      && s[i + n..] == Body(m, r) && s[i + n] == r.output[0]
  {
    var i, n := |r.before|, |m.begin|;
    assert s[i + n..] == Body(m, r);
    assert s[i..i + n] == m.begin;
    assert s[i + n] == Body(m, r)[0] == r.output[0];
  }

  lemma StartsAt(m: Markers, r: Printout, s: string)
    requires MarkersOk(m) && WellPrinted(m, r) && s == Stream(m, r)
    ensures var i := |r.before|;
      FirstLine(s, m.begin, i) && i + |m.begin| < |s| && s[i + |m.begin|..] == Body(m, r)
  {
    StreamParts(m, r, s);
    hide Stream, Body, ColonEnded, Padding, IsNumber, LastBreak;
    FirstOfFront(s, r.before, m.begin);
  }

  lemma FirstOfFront(s: string, before: string, marker: string)
    requires marker != "" && NoBreaks(marker) && |before| <= |s| && before == s[..|before|] && Index(before, marker) < 0
    requires (before == "" || IsBreak(before[|before| - 1])) && MarkerLineAt(s, marker, |before|)
    ensures FirstLine(s, marker, |before|)
  {
    var i := |before|;
    LineStartIsClear(s, marker, i);
    forall k | 0 <= k < i ensures !MarkerLineAt(s, marker, k) {
      if OccursAt(s, marker, k) {
        NoBreakInside(s, marker, k, i - 1);
        NotInFront(s, before, marker, k);
      }
    }
  }

  lemma BodyParts(m: Markers, r: Printout, body: string)
    requires body == Body(m, r)
    ensures var j, e := |r.output|, |r.output| + |m.end|;
      e <= |body| && body[..j] == r.output && OccursAt(body, m.end, j) && body[e..] == CodeText(r) + r.rest
  {
    var j, e := |r.output|, |r.output| + |m.end|;
    assert body[j..e] == m.end;
    assert body[e..] == CodeText(r) + r.rest;
  }

  lemma CodeParts(r: Printout)
    requires Padding(r.lead) && Padding(r.trail) && IsNumber(r.digits) && r.rest != "" && IsBreak(r.rest[0])
    ensures var value := CodeText(r) + r.rest;
      TakeExitCode(value) == Some(r.digits) && FirstBreak(value) == |CodeText(r)|
  {
    NumberIsRead(r.lead, r.digits, r.trail, r.rest);
    PaddedHasNoBreak(r.lead, r.digits, r.trail);
    FirstBreakIs(CodeText(r), r.rest);
  }

  lemma BodyEnd(m: Markers, r: Printout, body: string)
    requires WellPrinted(m, r) && body == Body(m, r)
    ensures var j, e := |r.output|, |r.output| + |m.end|;
      && e <= |body| && body[..j] == r.output && EndAt(body, m.end, j) && CodeAt(body, e) == Some(r.digits)
      && BreakAfter(body, e) == e + |CodeText(r)|
  {
    hide *;
    PrintedFacts(m, r);
    BodyParts(m, r, body);
    CodeParts(r);
    EndFromRest(body, m.end, |r.output|, CodeText(r) + r.rest, r.digits);
  }

  lemma PrintedFacts(m: Markers, r: Printout)
    requires WellPrinted(m, r)
    ensures Padding(r.lead) && Padding(r.trail) && IsNumber(r.digits) && r.rest != "" && IsBreak(r.rest[0])
    ensures Index(r.output, m.end) < 0
  {
  }

  lemma EndFromRest(body: string, marker: string, j: nat, value: string, digits: string)
    requires OccursAt(body, marker, j) && j + |marker| <= |body| && body[j + |marker|..] == value
    requires TakeExitCode(value) == Some(digits) && FirstBreak(value) >= 0
    ensures EndAt(body, marker, j) && CodeAt(body, j + |marker|) == Some(digits)
    ensures BreakAfter(body, j + |marker|) == j + |marker| + FirstBreak(value)
  {
    hide TakeExitCode, FirstBreak, OccursAt;
  }

  lemma EndsAt(m: Markers, r: Printout, body: string)
    requires MarkersOk(m) && WellPrinted(m, r) && body == Body(m, r)
    ensures m.end != "" && FindEnd(body, m.end) == Some(End(|r.output|, r.digits))
  {
    hide *;
    MarkerFacts(m);
    BodyEnd(m, r, body);
    FirstEndIs(body, m.end, r.output, r.digits);
    PrintedFacts(m, r);
  }

  lemma FirstEndIs(body: string, marker: string, output: string, digits: string)
    requires ColonEnded(marker) && marker != "" && |output| + |marker| <= |body| && body[..|output|] == output
    requires EndAt(body, marker, |output|) && CodeAt(body, |output| + |marker|) == Some(digits)
    ensures Index(output, marker) < 0 ==> FindEnd(body, marker) == Some(End(|output|, digits))
  {
    hide FindEnd, CodeAt, ColonEnded, OccursAt;
    FindEndIsFirst(body, marker, |output|);
    FindEndReads(body, marker);
    var at := FindEnd(body, marker).value.at;
    if at < |output| && Index(output, marker) < 0 {
      NoOverlap(body, marker, at, |output|);
      NotInFront(body, output, marker, at);
    }
  }

  lemma CannotBeCut(m: Markers, r: Printout, body: string)
    requires MarkersOk(m) && WellPrinted(m, r) && body == Body(m, r)
    ensures m.end != "" && EndUncut(body, m.end)
  {
    hide *;
    MarkerFacts(m);
    EndsAt(m, r, body);
    BodyEnd(m, r, body);
    ShortLine(m, r);
    UncutHere(body, m.end, r.output, r.digits, |CodeText(r)|);
  }

  lemma ShortLine(m: Markers, r: Printout)
    requires WellPrinted(m, r)
    ensures |CodeText(r)| <= CODE_BYTES ||
      |r.output| - (LastBreak(r.output) + 1) + |m.end| + |CodeText(r)| <= MAX_PENDING_LINE_BYTES
  {
  }

  lemma UncutHere(body: string, marker: string, output: string, digits: string, n: nat)
    requires marker != "" && |output| + |marker| <= |body| && body[..|output|] == output
    requires FindEnd(body, marker) == Some(End(|output|, digits))
    requires BreakAfter(body, |output| + |marker|) == |output| + |marker| + n
    requires n <= CODE_BYTES || |output| - (LastBreak(output) + 1) + |marker| + n <= MAX_PENDING_LINE_BYTES
    ensures EndUncut(body, marker)
  {
    hide FindEnd, BreakAfter, LastBreak;
  }

  lemma Reported(digits: string)
    requires IsNumber(digits)
    ensures AllDigits(digits)
    ensures ExitCode(digits) == if DecimalValue(digits) > MAX_INT then MAX_INT else DecimalValue(digits)
  {
  }

  /** For every cut of the stream: the command finishes once and reports the number printed after the end prefix, or the
      largest int when that is out of range; what it handed out is the text between the markers, up to leading line
      breaks. */
  lemma RunReports(m: Markers, r: Printout, chunks: seq<string>)
    requires MarkersOk(m) && WellPrinted(m, r) && Concat(chunks) == Stream(m, r)
    ensures UsableMarkers(m) && AllDigits(r.digits)
    ensures var p, n := ConsumeAll(m, chunks), DecimalValue(r.digits);
      && p.finished && p.results == [if n > MAX_INT then MAX_INT else n] && TrimBreaks(p.out) == TrimBreaks(r.output)
  {
    hide *;
    MarkerFacts(m);
    PrintedFacts(m, r);
    Reported(r.digits);
    StartsAt(m, r, Stream(m, r));
    EndsAt(m, r, Body(m, r));
    BodyEnd(m, r, Body(m, r));
    CannotBeCut(m, r, Body(m, r));
    FinishesOnce(m, chunks, Stream(m, r), |r.before|);
  }

  /** A command that exits with n reports n, for every command id, every 64-bit n that is not negative and every cut. */
  lemma CommandReports(id: string, r: Printout, n: nat, chunks: seq<string>)
    requires IsID(id) && n <= MAX_INT && r.digits == Decimal(n)
    requires var m := Markers(StartMarker(id), EndPrefix(id)); WellPrinted(m, r) && Concat(chunks) == Stream(m, r)
    ensures var m := Markers(StartMarker(id), EndPrefix(id));
      && MarkersOk(m)
      && var p := ConsumeAll(m, chunks);
         p.finished && p.results == [n] && TrimBreaks(p.out) == TrimBreaks(r.output)
  {
    hide *;
    CommandMarkersOk(id);
    DecimalRoundTrip(n);
    RunReports(Markers(StartMarker(id), EndPrefix(id)), r, chunks);
  }
}
