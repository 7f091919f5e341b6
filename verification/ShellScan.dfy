/** The pure and searching helpers of the long-shell output parser. A char stands for one byte. */
module ShellScan {
  import opened Text
  import opened EventCursor

  const BREAKS: set<char> := {'\r', '\n'}
  const MAX_PENDING_LINE_BYTES: nat := 64 * 1024
  const CODE_BYTES: nat := 16

  predicate IsBreak(c: char) {
    c == '\r' || c == '\n'
  }

  predicate NoBreaks(s: string) {
    forall i | 0 <= i < |s| :: !IsBreak(s[i])
  }

  predicate AllBreaks(s: string) {
    forall i | 0 <= i < |s| :: IsBreak(s[i])
  }

  // strings.IndexAny(s, "\r\n") and strings.LastIndexAny(s, "\r\n")
  function FirstBreak(s: string): (r: int)
    ensures r == -1 || (0 <= r < |s| && IsBreak(s[r]))
    ensures NoBreaks(if r == -1 then s else s[..r])
  {
    if s == "" then -1
    else if IsBreak(s[0]) then 0
    else
      var r := FirstBreak(s[1..]);
      if r == -1 then -1 else r + 1
  }

  function LastBreak(s: string): (r: int)
    ensures -1 <= r < |s|
  {
    if s == "" then -1
    else if IsBreak(s[|s| - 1]) then |s| - 1
    else LastBreak(s[..|s| - 1])
  }

  lemma {:induction false} LastBreakIsLast(s: string, k: nat)
    requires k < |s|
    ensures LastBreak(s) >= 0 ==> IsBreak(s[LastBreak(s)])
    ensures LastBreak(s) < k ==> !IsBreak(s[k])
  {
    if |s| > 1 && !IsBreak(s[|s| - 1]) {
      LastBreakIsLast(s[..|s| - 1], if k < |s| - 1 then k else 0);
    }
  }

  function KeepTail(value: string, max: nat): string {
    if max == 0 || |value| <= max then value else value[|value| - max..]
  }

  function TrimBreaks(s: string): string {
    TrimLeft(s, BREAKS)
  }

  function SplitForEmit(value: string, keep: nat): (string, string) {
    var b := LastBreak(value);
    if b >= 0 then (value[..b + 1], value[b + 1..])
    else
      var cut := |value| - keep;
      if cut <= 0 || |value| <= MAX_PENDING_LINE_BYTES then ("", value) else (value[..cut], value[cut..])
  }

  // ---- start marker ----

  // The marker followed by a line break.
  predicate MarkerLineAt(v: string, marker: string, i: int) {
    OccursAt(v, marker, i) && i + |marker| < |v| && IsBreak(v[i + |marker|])
  }

  function MarkerLineFrom(v: string, marker: string, offset: nat): (r: int)
    requires marker != "" && offset <= |v|
    ensures r == -1 || (offset <= r && MarkerLineAt(v, marker, r))
    decreases |v| - offset
  {
    var idx := IndexFrom(v, marker, offset);
    if idx < 0 then -1
    else if idx + |marker| < |v| && IsBreak(v[idx + |marker|]) then idx
    else MarkerLineFrom(v, marker, idx + |marker|)
  }

  function FindMarkerLine(v: string, marker: string): (r: int)
    requires marker != ""
    ensures r == -1 || MarkerLineAt(v, marker, r)
  {
    MarkerLineFrom(v, marker, 0)
  }

  // The search walks the offsets of non-overlapping occurrences.
  method SearchMarkerLine(value: string, marker: string) returns (r: int)
    requires marker != ""
    ensures r == FindMarkerLine(value, marker)
  {
    var offset := 0;
    while offset < |value|
      invariant 0 <= offset <= |value|
      invariant FindMarkerLine(value, marker) == MarkerLineFrom(value, marker, offset)
      decreases |value| - offset
    {
      var idx := IndexFrom(value, marker, offset);
      if idx < 0 {
        return -1;
      }
      var after := idx + |marker|;
      if after < |value| && IsBreak(value[after]) {
        return idx;
      }
      offset := after;
    }
    r := -1;
  }

  // Another occurrence reaches over the start of the one at i.
  predicate Obstructed(v: string, marker: string, i: int) {
    exists k | i - |marker| < k < i :: OccursAt(v, marker, k)
  }

  /** A marker line that no other occurrence reaches into is found from every earlier offset, if no marker line
      precedes it: the occurrences the search skips all end before it. */
  lemma {:induction false} ClearLineIsFound(v: string, marker: string, offset: nat, i: nat)
    requires marker != "" && MarkerLineAt(v, marker, i) && !Obstructed(v, marker, i)
    requires forall k | 0 <= k < i :: !MarkerLineAt(v, marker, k)
    requires offset <= i
    ensures MarkerLineFrom(v, marker, offset) == i
    decreases i - offset
  {
    var idx := IndexFrom(v, marker, offset);
    if idx < i {
      assert idx <= i - |marker|;
      ClearLineIsFound(v, marker, idx + |marker|, i);
    }
  }

  /** A marker at the start of a line is clear: an occurrence reaching into it would hold the line break. */
  lemma LineStartIsClear(v: string, marker: string, i: nat)
    requires NoBreaks(marker) && OccursAt(v, marker, i) && (i == 0 || IsBreak(v[i - 1]))
    ensures !Obstructed(v, marker, i)
  {
    forall k | i - |marker| < k < i ensures !OccursAt(v, marker, k) {
      if OccursAt(v, marker, k) {
        NoBreakInside(v, marker, k, i - 1);
      }
    }
  }

  lemma NoBreakInside(v: string, marker: string, at: nat, k: nat)
    requires NoBreaks(marker) && OccursAt(v, marker, at) && k < |v|
    ensures at <= k < at + |marker| ==> !IsBreak(v[k])
  {
    OccursChar(v, marker, at, k);
  }

  // ---- end marker ----

  // The digits between the end marker and its line break.
  function TakeExitCode(value: string): (r: Option<string>)
    ensures r.Some? ==> AllDigits(r.value)
  {
    var v := TrimLeft(value, {' ', '\t'});
    var end := FirstBreak(v);
    if end < 0 then None
    else
      var code := TrimBoth(v[..end]);
      if code == "" || !AllDigits(code) then None else Some(code)
  }

  // strings.TrimSpace on bytes of ASCII text.
  const ASCII_SPACE: set<char> := {' ', '\t', '\n', '\U{000B}', '\U{000C}', '\r'}

  function TrimBoth(s: string): string {
    TrimRight(TrimLeft(s, ASCII_SPACE), ASCII_SPACE)
  }

  // strconv.Atoi of digits with its error ignored: out of range gives the largest int.
  function ExitCode(code: string): int
    requires AllDigits(code)
  {
    var n := DecimalValue(code);
    if n > MAX_INT then MAX_INT else n
  }

  // The exit code read from position `at` on.
  function CodeAt(v: string, at: nat): (r: Option<string>)
    requires at <= |v|
    ensures r.Some? ==> AllDigits(r.value)
  {
    TakeExitCode(v[at..])
  }

  // The position of the first line break at or after `at`, or -1.
  function BreakAfter(v: string, at: nat): (r: int)
    requires at <= |v|
    ensures r == -1 || (at <= r < |v| && IsBreak(v[r]))
  {
    var r := FirstBreak(v[at..]);
    if r == -1 then -1 else at + r
  }

  datatype End = End(at: nat, code: string)

  predicate EndAt(v: string, marker: string, j: int) {
    OccursAt(v, marker, j) && CodeAt(v, j + |marker|).Some?
  }

  function EndFrom(v: string, marker: string, offset: nat): (r: Option<End>)
    requires marker != "" && offset <= |v|
    ensures r.Some? ==> offset <= r.value.at <= |v| - |marker| && AllDigits(r.value.code)
    decreases |v| - offset
  {
    var idx := IndexFrom(v, marker, offset);
    if idx < 0 then None
    else
      var code := CodeAt(v, idx + |marker|);
      if code.Some? then Some(End(idx, code.value)) else EndFrom(v, marker, idx + |marker|)
  }

  function FindEnd(v: string, marker: string): (r: Option<End>)
    requires marker != ""
    ensures r.Some? ==> r.value.at <= |v| - |marker| && AllDigits(r.value.code)
  {
    EndFrom(v, marker, 0)
  }

  method SearchEnd(value: string, marker: string) returns (idx: int, code: string, ok: bool)
    requires marker != ""
    ensures ok == FindEnd(value, marker).Some? == (idx >= 0)
    ensures ok ==> End(idx, code) == FindEnd(value, marker).value
  {
    hide CodeAt, OccursAt;
    var offset := 0;
    while offset < |value|
      invariant 0 <= offset <= |value|
      invariant FindEnd(value, marker) == EndFrom(value, marker, offset)
      decreases |value| - offset
    {
      idx := IndexFrom(value, marker, offset);
      if idx < 0 {
        return -1, "", false;
      }
      var taken := CodeAt(value, idx + |marker|);
      if taken.Some? {
        return idx, taken.value, true;
      }
      offset := idx + |marker|;
    }
    return -1, "", false;
  }

  // ---- exit codes depend only on the text up to the line break ----

  lemma {:induction false} TrimLeftBeforeBreak(value: string)
    ensures var v := TrimLeft(value, {' ', '\t'});
      && (FirstBreak(value) == -1 <==> FirstBreak(v) == -1)
      && (FirstBreak(value) >= 0 ==>
            v[..FirstBreak(v)] == TrimLeft(value[..FirstBreak(value)], {' ', '\t'}))
  {
    if value != "" && value[0] in {' ', '\t'} {
      TrimLeftBeforeBreak(value[1..]);
      FirstBreakLater(value);
      hide FirstBreak;
      if FirstBreak(value) >= 0 {
        assert value[..FirstBreak(value)][1..] == value[1..][..FirstBreak(value[1..])];
      }
    } else if FirstBreak(value) > 0 {
      assert value[..FirstBreak(value)][0] == value[0];
    }
  }

  lemma FirstBreakLater(s: string)
    requires s != "" && !IsBreak(s[0])
    ensures FirstBreak(s) == if FirstBreak(s[1..]) == -1 then -1 else FirstBreak(s[1..]) + 1
  {
  }

  lemma {:induction false} FirstBreakOfPrefix(s: string, n: nat)
    requires n <= |s|
    ensures FirstBreak(s[..n]) == if FirstBreak(s) < n then FirstBreak(s) else -1
  {
    if n > 0 && !IsBreak(s[0]) {
      FirstBreakOfPrefix(s[1..], n - 1);
      assert s[..n][1..] == s[1..][..n - 1];
    }
  }

  /** Cutting the text after the exit code changes nothing once the line break has arrived, and before that
      there is no exit code. */
  lemma ExitCodeOfPrefix(value: string, n: nat)
    requires n <= |value|
    ensures TakeExitCode(value[..n]) == if FirstBreak(value) < n then TakeExitCode(value) else None
  {
    hide TrimBoth, AllDigits, TrimLeft;
    FirstBreakOfPrefix(value, n);
    TrimLeftBeforeBreak(value);
    TrimLeftBeforeBreak(value[..n]);
    var b := FirstBreak(value);
    if 0 <= b < n {
      assert value[..n][..b] == value[..b];
    }
  }

  // ---- the first end marker ----

  // No line breaks, and a colon at the end only, so that two occurrences never overlap.
  predicate ColonEnded(marker: string) {
    && marker != "" && NoBreaks(marker) && marker[|marker| - 1] == ':'
    && forall i | 0 <= i < |marker| - 1 :: marker[i] != ':'
  }

  lemma NoOverlap(v: string, marker: string, a: nat, b: nat)
    requires ColonEnded(marker) && OccursAt(v, marker, a) && OccursAt(v, marker, b) && a < b
    ensures a + |marker| <= b
  {
    OccursChar(v, marker, a, a + |marker| - 1);
    OccursChar(v, marker, b, a + |marker| - 1);
  }

  lemma {:induction false} EndFromReads(v: string, marker: string, offset: nat)
    requires marker != "" && offset <= |v| && EndFrom(v, marker, offset).Some?
    ensures var end := EndFrom(v, marker, offset).value;
      OccursAt(v, marker, end.at) && CodeAt(v, end.at + |marker|) == Some(end.code)
    decreases |v| - offset
  {
    hide CodeAt, OccursAt;
    var idx := IndexFrom(v, marker, offset);
    if CodeAt(v, idx + |marker|).None? {
      EndFromReads(v, marker, idx + |marker|);
    }
  }

  /** The search finds the first end marker with an exit code, and misses none. */
  lemma {:induction false} FirstEnd(v: string, marker: string, offset: nat, j: nat)
    requires ColonEnded(marker) && offset <= |v|
    ensures offset <= j && EndAt(v, marker, j) ==>
      EndFrom(v, marker, offset).Some? && EndFrom(v, marker, offset).value.at <= j
    decreases |v| - offset
  {
    hide CodeAt;
    var idx := IndexFrom(v, marker, offset);
    if offset <= j && EndAt(v, marker, j) && idx != j {
      NoOverlap(v, marker, idx, j);
      FirstEnd(v, marker, idx + |marker|, j);
    }
  }

  lemma FindEndReads(v: string, marker: string)
    requires marker != "" && FindEnd(v, marker).Some?
    ensures var end := FindEnd(v, marker).value;
      && OccursAt(v, marker, end.at) && EndAt(v, marker, end.at)
      && CodeAt(v, end.at + |marker|) == Some(end.code)
  {
    hide CodeAt, OccursAt, EndFrom;
    EndFromReads(v, marker, 0);
  }

  lemma FindEndIsFirst(v: string, marker: string, j: nat)
    requires ColonEnded(marker) && EndAt(v, marker, j)
    ensures FindEnd(v, marker).Some? && FindEnd(v, marker).value.at <= j
  {
    FirstEnd(v, marker, 0, j);
  }
}
