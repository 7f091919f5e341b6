/** Replacing the block a tool manages inside a file the user also edits. */
module ManagedBlock {
  import opened Text
  import opened SeqTools

  const FEED: set<char> := {'\n'}

  // strings.ReplaceAll(s, "\r\n", "\n")
  function UnixLines(s: string): string {
    if s == "" then ""
    else if |s| >= 2 && s[0] == '\r' && s[1] == '\n' then "\n" + UnixLines(s[2..])
    else [s[0]] + UnixLines(s[1..])
  }

  // The text without its first managed block.
  function Cut(text: string, begin: string, end: string): string {
    var start := Index(text, begin);
    if start < 0 then text
    else
      var stop := Index(text[start..], end);
      if stop < 0 then text
      else TrimRight(text[..start], FEED) + "\n\n" + TrimLeft(text[start + stop + |end|..], FEED)
  }

  function Outside(existing: string, begin: string, end: string): string {
    Cut(TrimRight(UnixLines(existing), FEED), begin, end)
  }

  function Append(text: string, block: string): string {
    var b := TrimRight(block, FEED);
    if Blank(text) then b + "\n" else TrimRight(text, FEED) + "\n\n" + b + "\n"
  }

  function Replaced(existing: string, block: string, begin: string, end: string): string {
    Append(Outside(existing, begin, end), block)
  }

  method ReplaceManagedBlock(existing: string, block: string, begin: string, end: string) returns (result: string)
    ensures result == Replaced(existing, block, begin, end)
  {
    var text := TrimRight(UnixLines(existing), FEED);
    var start := Index(text, begin);
    if start >= 0 {
      var stop := Index(text[start..], end);
      if stop >= 0 {
        stop := stop + start + |end|;
        text := TrimRight(text[..start], FEED) + "\n\n" + TrimLeft(text[stop..], FEED);
      }
    }
    var trimmed := TrimRight(block, FEED);
    if TrimSpace(text) == "" {
      return trimmed + "\n";
    }
    return TrimRight(text, FEED) + "\n\n" + trimmed + "\n";
  }

  // ---- markers and blocks ----

  predicate OneLine(s: string) {
    '\n' !in s && '\r' !in s
  }

  predicate MarkersOk(begin: string, end: string) {
    && begin != "" && end != "" && OneLine(begin) && OneLine(end)
    && !Contains(end, begin) && !Contains(begin, end)
  }

  predicate Contains(s: string, pat: string) {
    Index(s, pat) >= 0
  }

  // A block as its builders write it: the markers are its ends and occur nowhere else in it.
  ghost predicate WellFormed(block: string, begin: string, end: string) {
    var b := TrimRight(block, FEED);
    && '\r' !in b && |b| >= |begin| + |end|
    && (forall i :: OccursAt(b, begin, i) <==> i == 0)
    && (forall i :: OccursAt(b, end, i) <==> i == |b| - |end|)
  }

  // ---- trimming ----

  lemma {:induction false} TrimRightIs(s: string)
    ensures var t := TrimRight(s, FEED);
      && |t| <= |s| && t == s[..|t|] && (t != "" ==> t[|t| - 1] != '\n')
      && forall i | |t| <= i < |s| :: s[i] == '\n'
  {
    if s != "" && s[|s| - 1] in FEED {
      TrimRightIs(s[..|s| - 1]);
    }
  }

  lemma {:induction false} TrimLeftIs(s: string)
    ensures var t := TrimLeft(s, FEED);
      && |t| <= |s| && t == s[|s| - |t|..] && (t != "" ==> t[0] != '\n')
      && forall i | 0 <= i < |s| - |t| :: s[i] == '\n'
  {
    if s != "" && s[0] in FEED {
      TrimLeftIs(s[1..]);
    }
  }

  // Text that ends in no line feed, followed by line feeds only, trims back to itself.
  lemma TrimRightOf(s: string, feeds: string)
    requires s == "" || s[|s| - 1] != '\n'
    requires forall i | 0 <= i < |feeds| :: feeds[i] == '\n'
    ensures TrimRight(s + feeds, FEED) == s
  {
    var t := TrimRight(s + feeds, FEED);
    TrimRightIs(s + feeds);
    assert (s + feeds)[..|s|] == s;
  }

  lemma {:induction false} TrimSpaceLeftBlank(s: string)
    ensures TrimLeftSpace(s) == "" <==> forall i | 0 <= i < |s| :: IsSpace(s[i])
    ensures TrimLeftSpace(s) != "" ==> !IsSpace(TrimLeftSpace(s)[0])
  {
    if s != "" && IsSpace(s[0]) {
      TrimSpaceLeftBlank(s[1..]);
    }
  }

  lemma {:induction false} TrimSpaceRightBlank(s: string)
    requires s != "" && !IsSpace(s[0])
    ensures TrimRightSpace(s) != ""
  {
    if IsSpace(s[|s| - 1]) {
      assert s[..|s| - 1][0] == s[0];
      TrimSpaceRightBlank(s[..|s| - 1]);
    }
  }

  lemma BlankIsAllSpace(s: string)
    ensures Blank(s) <==> forall i | 0 <= i < |s| :: IsSpace(s[i])
  {
    TrimSpaceLeftBlank(s);
    if TrimLeftSpace(s) != "" {
      TrimSpaceRightBlank(TrimLeftSpace(s));
    }
  }

  // Line feeds at the end do not matter for being blank.
  lemma BlankWithoutFeeds(s: string)
    ensures Blank(TrimRight(s, FEED)) == Blank(s)
  {
    TrimRightIs(s);
    BlankIsAllSpace(s);
    BlankIsAllSpace(TrimRight(s, FEED));
  }

  // ---- line endings ----

  predicate CRLFAt(s: string, i: int) {
    0 <= i < |s| - 1 && s[i] == '\r' && s[i + 1] == '\n'
  }

  ghost predicate HasCRLF(s: string) {
    exists i :: CRLFAt(s, i)
  }

  lemma {:induction false} UnixLinesStay(s: string)
    requires !HasCRLF(s)
    ensures UnixLines(s) == s
  {
    if s != "" {
      if HasCRLF(s[1..]) {
        var i :| CRLFAt(s[1..], i);
        assert CRLFAt(s, i + 1);
      }
      assert !CRLFAt(s, 0);
      UnixLinesStay(s[1..]);
    }
  }

  /** Every CRLF becomes one line feed and nothing else changes: this and UnixLinesStay fix the result. */
  lemma {:induction false} UnixLinesAt(a: string, b: string)
    ensures UnixLines(a + "\r\n" + b) == UnixLines(a) + "\n" + UnixLines(b)
  {
    hide UnixLines;
    var s := a + "\r\n" + b;
    UnixLinesStep(s);
    UnixLinesStep(a);
    if a == "" {
      assert s == "\r\n" + b && s[2..] == b;
    } else if |a| >= 2 && a[0] == '\r' && a[1] == '\n' {
      UnixLinesAt(a[2..], b);
      assert s[2..] == a[2..] + "\r\n" + b;
    } else {
      UnixLinesAt(a[1..], b);
      assert s[1..] == a[1..] + "\r\n" + b;
      assert s[0] == a[0] && (|a| == 1 ==> s[1] == '\r');
    }
  }

  lemma UnixLinesStep(s: string)
    ensures UnixLines(s) ==
      if s == "" then ""
      else if |s| >= 2 && s[0] == '\r' && s[1] == '\n' then "\n" + UnixLines(s[2..])
      else [s[0]] + UnixLines(s[1..])
  {
  }

  function Returns(s: string): nat {
    if s == "" then 0 else (if s[0] == '\r' then 1 else 0) + Returns(s[1..])
  }

  lemma {:induction false} ReturnsOfJoin(a: string, b: string)
    ensures Returns(a + b) == Returns(a) + Returns(b)
  {
    if a == "" {
      assert a + b == b;
    } else {
      assert (a + b)[1..] == a[1..] + b;
      ReturnsOfJoin(a[1..], b);
    }
  }

  lemma {:induction false} NoReturns(s: string)
    requires '\r' !in s
    ensures Returns(s) == 0
  {
    if s != "" {
      NoReturns(s[1..]);
    }
  }

  lemma {:induction false} UnixLinesLoseReturns(s: string)
    ensures Returns(UnixLines(s)) <= Returns(s)
    ensures HasCRLF(s) ==> Returns(UnixLines(s)) < Returns(s)
  {
    if s != "" {
      if |s| >= 2 && s[0] == '\r' && s[1] == '\n' {
        UnixLinesLoseReturns(s[2..]);
        assert s[1..][1..] == s[2..];
        assert ("\n" + UnixLines(s[2..]))[1..] == UnixLines(s[2..]);
      } else {
        UnixLinesLoseReturns(s[1..]);
        assert ([s[0]] + UnixLines(s[1..]))[1..] == UnixLines(s[1..]);
        if HasCRLF(s) {
          var i :| CRLFAt(s, i);
          assert CRLFAt(s[1..], i - 1);
        }
      }
    }
  }

  lemma ReturnsOfPart(s: string, from: nat, to: nat)
    requires from <= to <= |s|
    ensures Returns(s[from..to]) <= Returns(s)
  {
    assert s == s[..from] + s[from..to] + s[to..];
    ReturnsOfJoin(s[..from] + s[from..to], s[to..]);
    ReturnsOfJoin(s[..from], s[from..to]);
  }

  // ---- a second replacement, when the text outside is clean ----

  // What the first replacement leaves in front of its block.
  function Kept(existing: string, begin: string, end: string): string {
    TrimRight(Outside(existing, begin, end), FEED)
  }

  lemma NoFeedInside(s: string, pat: string, j: int, k: int)
    requires OneLine(pat) && OccursAt(s, pat, j) && 0 <= k < |s| && s[k] == '\n'
    ensures k < j || j + |pat| <= k
  {
    assert s[j..j + |pat|] == pat;
  }

  // In clean text followed by a block, the first begin marker is the block's.
  lemma BlockBegins(c: string, block: string, begin: string, end: string)
    requires MarkersOk(begin, end) && WellFormed(block, begin, end) && !Contains(c, begin)
    ensures Index(c + "\n\n" + TrimRight(block, FEED), begin) == |c| + 2
  {
    var b := TrimRight(block, FEED);
    var text := c + "\n\n" + b;
    assert OccursAt(b, begin, 0);
    assert text[|c| + 2..|c| + 2 + |begin|] == b[0..|begin|];
    assert OccursAt(text, begin, |c| + 2);
    forall j | 0 <= j < |c| + 2 ensures !OccursAt(text, begin, j) {
      if OccursAt(text, begin, j) {
        NoFeedInside(text, begin, j, |c|);
        NoFeedInside(text, begin, j, |c| + 1);
        assert text[j..j + |begin|] == c[j..j + |begin|];
        assert OccursAt(c, begin, j);
      }
    }
  }

  lemma BlockEnds(block: string, begin: string, end: string)
    requires MarkersOk(begin, end) && WellFormed(block, begin, end)
    ensures var b := TrimRight(block, FEED); Index(b, end) == |b| - |end|
  {
    var b := TrimRight(block, FEED);
    assert OccursAt(b, end, |b| - |end|);
  }

  lemma CutBlock(c: string, block: string, begin: string, end: string)
    requires MarkersOk(begin, end) && WellFormed(block, begin, end) && !Contains(c, begin)
    requires c == "" || c[|c| - 1] != '\n'
    ensures Cut(c + "\n\n" + TrimRight(block, FEED), begin, end) == c + "\n\n"
  {
    var b := TrimRight(block, FEED);
    var text := c + "\n\n" + b;
    BlockBegins(c, block, begin, end);
    BlockEnds(block, begin, end);
    assert text[|c| + 2..] == b && text[..|c| + 2] == c + "\n\n";
    TrimRightOf(c, "\n\n");
    assert text[|c| + 2 + |b|..] == "";
  }

  // What the caller can check before replacing: nothing but white space is left outside the block, or the
  // text left outside has no CRLF (not even across its end) and no begin marker.
  ghost predicate CleanOutside(existing: string, begin: string, end: string) {
    var kept := Kept(existing, begin, end);
    Blank(kept) || (!HasCRLF(kept + "\n") && !Contains(kept, begin))
  }

  lemma ResultShape(existing: string, block: string, begin: string, end: string)
    ensures var kept, b := Kept(existing, begin, end), TrimRight(block, FEED);
      && (kept == "" || kept[|kept| - 1] != '\n')
      && Replaced(existing, block, begin, end) == if Blank(kept) then b + "\n" else kept + "\n\n" + b + "\n"
  {
    var outside := Outside(existing, begin, end);
    TrimRightIs(outside);
    BlankWithoutFeeds(outside);
  }

  // A well-formed block does not end in a line feed, and appending one is undone by trimming.
  lemma TrimAfterBlock(front: string, block: string, begin: string, end: string)
    requires MarkersOk(begin, end) && WellFormed(block, begin, end)
    ensures var b := TrimRight(block, FEED); b != "" && TrimRight(front + b + "\n", FEED) == front + b
  {
    var b := TrimRight(block, FEED);
    assert OccursAt(b, end, |b| - |end|);
    assert b[|b| - 1] == end[|end| - 1];
    assert (front + b)[|front + b| - 1] == end[|end| - 1];
    TrimRightOf(front + b, "\n");
  }

  lemma NoCRLFWithBlock(kept: string, block: string, begin: string, end: string)
    requires WellFormed(block, begin, end) && !HasCRLF(kept + "\n")
    ensures !HasCRLF(kept + "\n\n" + TrimRight(block, FEED) + "\n")
  {
    var b := TrimRight(block, FEED);
    var text := kept + "\n\n" + b + "\n";
    forall i ensures CRLFAt(text, i) ==> CRLFAt(kept + "\n", i) {
    }
  }

  lemma OutsideOfBlock(block: string, begin: string, end: string)
    requires MarkersOk(begin, end) && WellFormed(block, begin, end)
    ensures Outside(TrimRight(block, FEED) + "\n", begin, end) == "\n\n"
  {
    var b := TrimRight(block, FEED);
    NoReturnNoCRLF(b + "\n");
    UnixLinesStay(b + "\n");
    TrimAfterBlock("", block, begin, end);
    assert "" + b + "\n" == b + "\n" && "" + b == b;
    BlockAlone(block, begin, end);
    hide Cut, UnixLines, TrimRight, WellFormed;
  }

  lemma OutsideOfText(kept: string, block: string, begin: string, end: string)
    requires MarkersOk(begin, end) && WellFormed(block, begin, end) && (kept == "" || kept[|kept| - 1] != '\n')
    requires !HasCRLF(kept + "\n") && !Contains(kept, begin)
    ensures Outside(kept + "\n\n" + TrimRight(block, FEED) + "\n", begin, end) == kept + "\n\n"
  {
    NoCRLFWithBlock(kept, block, begin, end);
    UnixLinesStay(kept + "\n\n" + TrimRight(block, FEED) + "\n");
    TrimAfterBlock(kept + "\n\n", block, begin, end);
    CutBlock(kept, block, begin, end);
    hide Cut, UnixLines, TrimRight, WellFormed, HasCRLF, Contains;
  }

  lemma SecondOutside(existing: string, block: string, begin: string, end: string)
    requires MarkersOk(begin, end) && WellFormed(block, begin, end) && CleanOutside(existing, begin, end)
    ensures var kept := Kept(existing, begin, end);
      Kept(Replaced(existing, block, begin, end), begin, end) == if Blank(kept) then "" else kept
  {
    var kept := Kept(existing, begin, end);
    ResultShape(existing, block, begin, end);
    hide Outside, TrimRight, Replaced, WellFormed, Blank, HasCRLF, Contains;
    if Blank(kept) {
      OutsideOfBlock(block, begin, end);
      TrimRightOf("", "\n\n");
      assert "" + "\n\n" == "\n\n";
    } else {
      OutsideOfText(kept, block, begin, end);
      TrimRightOf(kept, "\n\n");
    }
  }

  lemma NoReturnNoCRLF(s: string)
    requires '\r' !in s
    ensures !HasCRLF(s)
  {
  }

  lemma BlockAlone(block: string, begin: string, end: string)
    requires MarkersOk(begin, end) && WellFormed(block, begin, end)
    ensures Cut(TrimRight(block, FEED), begin, end) == "\n\n"
  {
    var b := TrimRight(block, FEED);
    assert OccursAt(b, begin, 0);
    assert Index(b, begin) == 0;
    BlockEnds(block, begin, end);
    assert b[0..] == b && b[..0] == "" && b[|b|..] == "";
  }

  /** On clean text the last writer wins: replacing twice is replacing once with the second block. */
  lemma LastWriterWins(existing: string, first: string, second: string, begin: string, end: string)
    requires MarkersOk(begin, end) && WellFormed(first, begin, end) && CleanOutside(existing, begin, end)
    ensures Replaced(Replaced(existing, first, begin, end), second, begin, end) == Replaced(existing, second, begin, end)
  {
    SecondOutside(existing, first, begin, end);
    ResultShape(existing, second, begin, end);
    ResultShape(Replaced(existing, first, begin, end), second, begin, end);
    BlankIsAllSpace("");
  }

  // ---- otherwise some pair of blocks shows the difference ----

  // A block with n empty lines between its markers.
  function Padding(n: nat): string {
    seq(n, _ => '\n')
  }

  function Sample(begin: string, end: string, n: nat): string {
    begin + Padding(n) + end
  }

  lemma OccursInPart(s: string, pat: string, i: int, from: nat, to: nat)
    requires from <= to <= |s| && from <= i && i + |pat| <= to && OccursAt(s, pat, i)
    ensures OccursAt(s[from..to], pat, i - from)
  {
    var part := s[from..to];
    forall k | 0 <= k < |pat| ensures part[i - from..i - from + |pat|][k] == pat[k] {
      assert s[i..i + |pat|][k] == s[i + k];
    }
  }

  lemma SampleIsWellFormed(begin: string, end: string, n: nat)
    requires MarkersOk(begin, end) && n > 0
    ensures WellFormed(Sample(begin, end, n), begin, end)
    ensures TrimRight(Sample(begin, end, n), FEED) == Sample(begin, end, n)
  {
    var b := Sample(begin, end, n);
    assert b[|b| - 1] == end[|end| - 1];
    TrimRightOf(b, "");
    assert b + "" == b;
    forall i ensures OccursAt(b, begin, i) <==> i == 0 {
      if OccursAt(b, begin, i) {
        BeginInSample(begin, end, n, i);
      }
    }
    forall i ensures OccursAt(b, end, i) <==> i == |b| - |end| {
      if OccursAt(b, end, i) {
        EndInSample(begin, end, n, i);
      }
    }
  }

  lemma BeginInSample(begin: string, end: string, n: nat, i: nat)
    requires MarkersOk(begin, end) && n > 0 && OccursAt(Sample(begin, end, n), begin, i)
    ensures i == 0
  {
    var b := Sample(begin, end, n);
    assert b[|begin| + n..|b|] == end;
    NoFeedInside(b, begin, i, |begin|);
    if |begin| <= i < |begin| + n {
      NoFeedInside(b, begin, i, i);
    } else if i > 0 {
      OccursInPart(b, begin, i, |begin| + n, |b|);
    }
  }

  lemma EndInSample(begin: string, end: string, n: nat, i: nat)
    requires MarkersOk(begin, end) && n > 0 && OccursAt(Sample(begin, end, n), end, i)
    ensures i == |begin| + n
  {
    var b := Sample(begin, end, n);
    assert b[0..|begin|] == begin;
    NoFeedInside(b, end, i, |begin|);
    if |begin| <= i < |begin| + n {
      NoFeedInside(b, end, i, i);
    } else if i < |begin| {
      OccursInPart(b, end, i, 0, |begin|);
    }
  }

  lemma ReturnsOfEnds(text: string, start: nat, e: nat)
    requires start <= e <= |text|
    ensures Returns(text[..start]) + Returns(text[e..]) <= Returns(text)
  {
    assert text == text[..start] + text[start..e] + text[e..];
    ReturnsOfJoin(text[..start] + text[start..e], text[e..]);
    ReturnsOfJoin(text[..start], text[start..e]);
  }

  lemma ReturnsOfTrims(s: string)
    ensures Returns(TrimRight(s, FEED)) <= Returns(s) && Returns(TrimLeft(s, FEED)) <= Returns(s)
  {
    var r, l := TrimRight(s, FEED), TrimLeft(s, FEED);
    TrimRightIs(s);
    TrimLeftIs(s);
    assert s == s[..|r|] + s[|r|..];
    ReturnsOfJoin(s[..|r|], s[|r|..]);
    assert s == s[..|s| - |l|] + s[|s| - |l|..];
    ReturnsOfJoin(s[..|s| - |l|], s[|s| - |l|..]);
  }

  lemma ReturnsOfCut(text: string, begin: string, end: string)
    ensures Returns(Cut(text, begin, end)) <= Returns(text)
  {
    hide TrimRight, TrimLeft, Returns;
    var start := Index(text, begin);
    if start >= 0 && Index(text[start..], end) >= 0 {
      var e := start + Index(text[start..], end) + |end|;
      var front, back := TrimRight(text[..start], FEED), TrimLeft(text[e..], FEED);
      ReturnsOfTrims(text[..start]);
      ReturnsOfTrims(text[e..]);
      ReturnsOfEnds(text, start, e);
      ReturnsOfJoin(front + "\n\n", back);
      ReturnsOfJoin(front, "\n\n");
      NoReturns("\n\n");
    }
  }

  lemma ReturnsOfKept(existing: string, begin: string, end: string)
    ensures Returns(Kept(existing, begin, end)) <= Returns(UnixLines(existing))
  {
    var text := TrimRight(UnixLines(existing), FEED);
    TrimRightIs(UnixLines(existing));
    ReturnsOfPart(UnixLines(existing), 0, |text|);
    ReturnsOfCut(text, begin, end);
    var outside := Outside(existing, begin, end);
    TrimRightIs(outside);
    ReturnsOfPart(outside, 0, |TrimRight(outside, FEED)|);
  }

  lemma ReturnsOfResult(existing: string, block: string, begin: string, end: string)
    requires WellFormed(block, begin, end)
    ensures var kept := Kept(existing, begin, end);
      Returns(Replaced(existing, block, begin, end)) == if Blank(kept) then 0 else Returns(kept)
  {
    var kept, b := Kept(existing, begin, end), TrimRight(block, FEED);
    ResultShape(existing, block, begin, end);
    NoReturns(b + "\n");
    NoReturns("\n\n" + b + "\n");
    ReturnsOfJoin(kept, "\n\n" + b + "\n");
    assert kept + "\n\n" + b + "\n" == kept + ("\n\n" + b + "\n");
  }

  // A CRLF left outside: the second replacement shortens it.
  lemma CRLFShows(existing: string, first: string, second: string, begin: string, end: string)
    requires MarkersOk(begin, end) && WellFormed(first, begin, end) && WellFormed(second, begin, end)
    requires var kept := Kept(existing, begin, end); !Blank(kept) && HasCRLF(kept + "\n")
    ensures Replaced(Replaced(existing, first, begin, end), second, begin, end) != Replaced(existing, second, begin, end)
  {
    var kept := Kept(existing, begin, end);
    var once := Replaced(existing, first, begin, end);
    ResultShape(existing, first, begin, end);
    var i :| CRLFAt(kept + "\n", i);
    assert CRLFAt(once, i);
    UnixLinesLoseReturns(once);
    ReturnsOfKept(once, begin, end);
    ReturnsOfResult(existing, first, begin, end);
    ReturnsOfResult(existing, second, begin, end);
    ReturnsOfResult(once, second, begin, end);
  }

  // The second replacement starts to cut at the first begin marker outside.
  lemma EarlierMarker(c: string, b: string, begin: string)
    requires begin != "" && OneLine(begin) && Contains(c, begin)
    ensures Index(c + "\n\n" + b, begin) == Index(c, begin)
    ensures 0 <= Index(c, begin) < |c|
  {
    var text, p := c + "\n\n" + b, Index(c, begin);
    assert text[p..p + |begin|] == c[p..p + |begin|];
    assert OccursAt(text, begin, p);
    assert text[0..|c|] == c;
    forall j | 0 <= j < p ensures !OccursAt(text, begin, j) {
      if OccursAt(text, begin, j) {
        NoFeedInside(text, begin, j, |c|);
        OccursInPart(text, begin, j, 0, |c|);
      }
    }
  }

  // An end marker in text followed by a block is in the text, or it is the block's own.
  lemma EndMarkerPlace(c: string, block: string, begin: string, end: string, q: nat)
    requires MarkersOk(begin, end) && WellFormed(block, begin, end)
    requires OccursAt(c + "\n\n" + TrimRight(block, FEED), end, q)
    ensures q + |end| <= |c| || q + |end| == |c| + 2 + |TrimRight(block, FEED)|
  {
    var b := TrimRight(block, FEED);
    var text := c + "\n\n" + b;
    NoFeedInside(text, end, q, |c|);
    NoFeedInside(text, end, q, |c| + 1);
    if q > |c| + 1 {
      OccursInPart(text, end, q, |c| + 2, |text|);
      assert text[|c| + 2..|text|] == b;
    }
  }

  // And it takes the first end marker from there on.
  lemma EarlierStop(c: string, block: string, begin: string, end: string, p: nat)
    requires MarkersOk(begin, end) && WellFormed(block, begin, end) && p <= |c|
    ensures var text := c + "\n\n" + TrimRight(block, FEED);
      && Index(text[p..], end) >= 0
      && var e := p + Index(text[p..], end) + |end|; e == |text| || e <= |c|
  {
    var b := TrimRight(block, FEED);
    var text := c + "\n\n" + b;
    assert |b| >= |end| && OccursAt(b, end, |b| - |end|);
    hide WellFormed, TrimRight, MarkersOk;
    OwnEnd(c + "\n\n", b, end, p);
    var q := Index(text[p..], end);
    SliceOfTail(text, p, q, q + |end|);
    EndMarkerPlace(c, block, begin, end, p + q);
  }

  lemma OwnEnd(front: string, b: string, end: string, p: nat)
    requires |b| >= |end| && OccursAt(b, end, |b| - |end|) && p <= |front|
    ensures Index((front + b)[p..], end) >= 0
  {
    var tail := (front + b)[p..];
    assert tail[|tail| - |end|..|tail|] == b[|b| - |end|..|b|];
    assert OccursAt(tail, end, |tail| - |end|);
  }

  lemma TrimLeftKeepsBlock(front: string, b: string)
    requires b != "" && b[0] != '\n'
    ensures |TrimLeft(front + b, FEED)| >= |b| && HasSuffix(TrimLeft(front + b, FEED), b)
  {
    var s := front + b;
    var t := TrimLeft(s, FEED);
    TrimLeftIs(s);
    hide TrimLeft;
    assert s[|front|] == b[0];
    var k := |s| - |t|;
    DropTwice(s, k, |front| - k);
    assert s[|front|..] == b;
  }

  // An orphan begin marker outside: the second replacement cuts from there, and the result is shorter when it
  // cuts the first block away, and longer when it does not.
  lemma MarkerShows(existing: string, first: string, second: string, begin: string, end: string)
    requires MarkersOk(begin, end) && WellFormed(first, begin, end) && WellFormed(second, begin, end)
    requires var kept := Kept(existing, begin, end);
      && !Blank(kept) && !HasCRLF(kept + "\n") && Contains(kept, begin) && |TrimRight(first, FEED)| > |kept|
    ensures Replaced(Replaced(existing, first, begin, end), second, begin, end) != Replaced(existing, second, begin, end)
  {
    var kept, b := Kept(existing, begin, end), TrimRight(first, FEED);
    var once := Replaced(existing, first, begin, end);
    ResultShape(existing, first, begin, end);
    NoCRLFWithBlock(kept, first, begin, end);
    UnixLinesStay(once);
    TrimAfterBlock(kept + "\n\n", first, begin, end);
    MarkerCut(kept, first, begin, end);
    ResultShape(existing, second, begin, end);
    ResultShape(once, second, begin, end);
  }

  lemma MarkerCut(c: string, block: string, begin: string, end: string)
    requires MarkersOk(begin, end) && WellFormed(block, begin, end) && Contains(c, begin)
    requires |TrimRight(block, FEED)| > |c|
    ensures |TrimRight(Cut(c + "\n\n" + TrimRight(block, FEED), begin, end), FEED)| != |c|
  {
    var b := TrimRight(block, FEED);
    var text, p := c + "\n\n" + b, Index(c, begin);
    EarlierMarker(c, b, begin);
    hide *;
    EarlierStop(c, block, begin, end, p);
    var e := p + Index(text[p..], end) + |end|;
    CutAt(text, begin, end, p);
    PartsOfText(c, b, p, e);
    if e == |text| {
      CutsBlockAway(c[..p]);
    } else {
      CutsBefore(c[..p], c[e..] + "\n\n", block, begin, end);
    }
  }

  lemma PartsOfText(c: string, b: string, p: nat, e: nat)
    requires p <= |c| && e <= |c| + 2 + |b|
    ensures var text := c + "\n\n" + b;
      && text[..p] == c[..p] && (e == |text| ==> text[e..] == "")
      && (e <= |c| ==> text[e..] == (c[e..] + "\n\n") + b)
  {
  }

  lemma CutAt(text: string, begin: string, end: string, p: nat)
    requires p == Index(text, begin) && Index(text[p..], end) >= 0
    ensures Cut(text, begin, end) ==
      TrimRight(text[..p], FEED) + "\n\n" + TrimLeft(text[p + Index(text[p..], end) + |end|..], FEED)
  {
    hide TrimRight, TrimLeft;
  }

  lemma CutsBlockAway(front: string)
    ensures |TrimRight(TrimRight(front, FEED) + "\n\n" + TrimLeft("", FEED), FEED)| <= |front|
  {
    var f := TrimRight(front, FEED);
    TrimRightIs(front);
    assert f + "\n\n" + "" == f + "\n\n";
    TrimRightOf(f, "\n\n");
  }

  lemma CutsBefore(front: string, middle: string, block: string, begin: string, end: string)
    requires MarkersOk(begin, end) && WellFormed(block, begin, end)
    ensures var b := TrimRight(block, FEED);
      |TrimRight(TrimRight(front, FEED) + "\n\n" + TrimLeft(middle + b, FEED), FEED)| >= |b|
  {
    var b := TrimRight(block, FEED);
    assert OccursAt(b, begin, 0) && OccursAt(b, end, |b| - |end|);
    assert b[0] == begin[0] && b[|b| - 1] == end[|end| - 1];
    TrimLeftKeepsBlock(middle, b);
    var back := TrimLeft(middle + b, FEED);
    var cut := TrimRight(front, FEED) + "\n\n" + back;
    assert back[|back| - |b|..][|b| - 1] == back[|back| - 1];
    assert cut[|cut| - 1] == back[|back| - 1] == b[|b| - 1];
    hide TrimRight, TrimLeft, WellFormed;
    TrimRightOf(cut, "");
    assert cut + "" == cut;
  }

  // Whatever two blocks are written one after the other, the file is as if only the second had been written.
  ghost predicate LastWins(existing: string, begin: string, end: string) {
    forall first, second | WellFormed(first, begin, end) && WellFormed(second, begin, end) ::
      Replaced(Replaced(existing, first, begin, end), second, begin, end) == Replaced(existing, second, begin, end)
  }

  /** Last writer wins, for every pair of blocks, exactly when nothing but white space is left outside the
      block or the text left outside has no CRLF and no begin marker. */
  lemma LastWriterWinsIff(existing: string, begin: string, end: string)
    requires MarkersOk(begin, end)
    ensures CleanOutside(existing, begin, end) <==> LastWins(existing, begin, end)
  {
    if CleanOutside(existing, begin, end) {
      forall first, second | WellFormed(first, begin, end) && WellFormed(second, begin, end)
        ensures Replaced(Replaced(existing, first, begin, end), second, begin, end) ==
          Replaced(existing, second, begin, end)
      {
        LastWriterWins(existing, first, second, begin, end);
      }
    } else {
      var kept := Kept(existing, begin, end);
      var first, second := Sample(begin, end, |kept| + 1), Sample(begin, end, 1);
      SampleIsWellFormed(begin, end, |kept| + 1);
      SampleIsWellFormed(begin, end, 1);
      if HasCRLF(kept + "\n") {
        CRLFShows(existing, first, second, begin, end);
      } else {
        MarkerShows(existing, first, second, begin, end);
      }
    }
  }

  // ---- files as users have them ----

  // Unix line ends, and at most one begin marker, which a complete block follows.
  ghost predicate PlainFile(existing: string, begin: string, end: string) {
    && '\r' !in existing
    && (forall i, j | OccursAt(existing, begin, i) && OccursAt(existing, begin, j) :: i == j)
    && (Contains(existing, begin) ==> Contains(existing[Index(existing, begin)..], end))
  }

  lemma OccursInWhole(s: string, pat: string, from: nat, to: nat, i: int)
    requires from <= to <= |s| && OccursAt(s[from..to], pat, i)
    ensures OccursAt(s, pat, from + i)
  {
    forall k | 0 <= k < |pat| ensures s[from + i..from + i + |pat|][k] == pat[k] {
      assert s[from..to][i..i + |pat|][k] == s[from..to][i + k] == s[from + (i + k)];
    }
  }

  // A marker cannot reach across the empty line between what was before the block and what was after it.
  lemma MarkerInCut(front: string, back: string, pat: string, i: int)
    requires pat != "" && OneLine(pat) && OccursAt(front + "\n\n" + back, pat, i)
    ensures OccursAt(front, pat, i) || OccursAt(back, pat, i - |front| - 2)
  {
    var s := front + "\n\n" + back;
    NoFeedInside(s, pat, i, |front|);
    NoFeedInside(s, pat, i, |front| + 1);
    if i < |front| {
      OccursInPart(s, pat, i, 0, |front|);
      assert s[0..|front|] == front;
    } else {
      OccursInPart(s, pat, i, |front| + 2, |s|);
      assert s[|front| + 2..|s|] == back;
    }
  }

  lemma TrimmedIsPart(s: string)
    ensures |TrimRight(s, FEED)| <= |s| && TrimRight(s, FEED) == s[0..|TrimRight(s, FEED)|]
    ensures |TrimLeft(s, FEED)| <= |s| && TrimLeft(s, FEED) == s[|s| - |TrimLeft(s, FEED)|..|s|]
  {
    TrimRightIs(s);
    TrimLeftIs(s);
  }

  // The only begin marker is at p, and the block found there is cut out: none is left.
  lemma NoMarkerLeft(text: string, begin: string, end: string, p: nat, i: int)
    requires begin != "" && OneLine(begin) && end != "" && p == Index(text, begin) && Index(text[p..], end) >= 0
    requires forall k | OccursAt(text, begin, k) :: k == p
    ensures !OccursAt(Cut(text, begin, end), begin, i)
  {
    var e := p + Index(text[p..], end) + |end|;
    var front, back := TrimRight(text[..p], FEED), TrimLeft(text[e..], FEED);
    CutAt(text, begin, end, p);
    TrimmedIsPart(text[..p]);
    TrimmedIsPart(text[e..]);
    assert front == text[0..|front|];
    assert back == text[|text| - |back|..|text|];
    hide *;
    NoMarkerInEnds(text, front, back, begin, p, i);
  }

  lemma NoMarkerInEnds(text: string, front: string, back: string, begin: string, p: nat, i: int)
    requires begin != "" && OneLine(begin) && |front| <= p && p + |back| < |text|
    requires front == text[0..|front|] && back == text[|text| - |back|..|text|]
    requires forall k | OccursAt(text, begin, k) :: k == p
    ensures !OccursAt(front + "\n\n" + back, begin, i)
  {
    if OccursAt(front + "\n\n" + back, begin, i) {
      MarkerInCut(front, back, begin, i);
      if OccursAt(front, begin, i) {
        OccursInWhole(text, begin, 0, |front|, i);
      } else {
        OccursInWhole(text, begin, |text| - |back|, |text|, i - |front| - 2);
      }
    }
  }

  lemma NoReturnLeft(text: string, begin: string, end: string)
    requires '\r' !in text
    ensures '\r' !in TrimRight(Cut(text, begin, end), FEED)
  {
    ReturnsOfCut(text, begin, end);
    ReturnsOfTrims(Cut(text, begin, end));
    NoReturns(text);
    ReturnsCount(TrimRight(Cut(text, begin, end), FEED));
  }

  lemma {:induction false} ReturnsCount(s: string)
    ensures Returns(s) == 0 ==> '\r' !in s
  {
    if s != "" {
      ReturnsCount(s[1..]);
      assert s == [s[0]] + s[1..];
    }
  }

  /** In a file with Unix line ends and at most one begin marker, which belongs to a complete block, the last
      writer wins, so writing the same block again changes nothing. */
  lemma PlainFileIsClean(existing: string, begin: string, end: string)
    requires MarkersOk(begin, end) && PlainFile(existing, begin, end)
    ensures CleanOutside(existing, begin, end)
  {
    var text := TrimRight(existing, FEED);
    NoReturnNoCRLF(existing);
    UnixLinesStay(existing);
    TrimmedIsPart(existing);
    NoReturnLeft(text, begin, end);
    var kept := Kept(existing, begin, end);
    NoReturnNoCRLF(kept + "\n");
    forall i ensures !OccursAt(kept, begin, i) {
      if OccursAt(kept, begin, i) {
        KeptMarker(existing, begin, end, i);
      }
    }
  }

  lemma KeptMarker(existing: string, begin: string, end: string, i: int)
    requires MarkersOk(begin, end) && PlainFile(existing, begin, end)
    ensures !OccursAt(Kept(existing, begin, end), begin, i)
  {
    var text := TrimRight(existing, FEED);
    NoReturnNoCRLF(existing);
    UnixLinesStay(existing);
    TrimmedIsPart(existing);
    var cut := Cut(text, begin, end);
    TrimmedIsPart(cut);
    if OccursAt(Kept(existing, begin, end), begin, i) {
      OccursInWhole(cut, begin, 0, |TrimRight(cut, FEED)|, i);
    }
    if Index(text, begin) >= 0 {
      OnlyMarker(existing, begin);
      EndStaysInText(existing, end, Index(text, begin));
      NoMarkerLeft(text, begin, end, Index(text, begin), i);
    }
  }

  // Trimming line feeds off the end moves no marker.
  lemma OnlyMarker(existing: string, begin: string)
    requires begin != "" && OneLine(begin) && Contains(TrimRight(existing, FEED), begin)
    requires forall i, j | OccursAt(existing, begin, i) && OccursAt(existing, begin, j) :: i == j
    ensures var text := TrimRight(existing, FEED);
      Index(text, begin) == Index(existing, begin) && forall k | OccursAt(text, begin, k) :: k == Index(text, begin)
  {
    var text := TrimRight(existing, FEED);
    TrimmedIsPart(existing);
    var p := Index(text, begin);
    OccursInWhole(existing, begin, 0, |text|, p);
    forall k | OccursAt(text, begin, k) ensures k == p {
      OccursInWhole(existing, begin, 0, |text|, k);
    }
  }

  // No end marker lies in the trimmed line feeds.
  lemma EndStaysInText(existing: string, end: string, p: nat)
    requires end != "" && OneLine(end) && p <= |TrimRight(existing, FEED)| <= |existing| && Contains(existing[p..], end)
    ensures Contains(TrimRight(existing, FEED)[p..], end)
  {
    var text := TrimRight(existing, FEED);
    TrimRightIs(existing);
    var q := Index(existing[p..], end);
    assert existing[p..|existing|] == existing[p..];
    OccursInWhole(existing, end, p, |existing|, q);
    if p + q + |end| > |text| {
      NoFeedInside(existing, end, p + q, p + q + |end| - 1);
    }
    OccursInPart(existing, end, p + q, p, |text|);
    assert existing[p..|text|] == text[p..];
  }

  lemma RewritingIsIdempotent(existing: string, block: string, begin: string, end: string)
    requires MarkersOk(begin, end) && WellFormed(block, begin, end) && PlainFile(existing, begin, end)
    ensures var once := Replaced(existing, block, begin, end); Replaced(once, block, begin, end) == once
  {
    PlainFileIsClean(existing, begin, end);
    LastWriterWins(existing, block, block, begin, end);
  }

  // ---- what the file holds besides the block ----

  // The text before and the text after a block, without the line feeds at its old place and at the end.
  function Joined(front: string, back: string): string {
    var f, b := TrimRight(front, FEED), TrimRight(TrimLeft(back, FEED), FEED);
    if b == "" then f else f + "\n\n" + b
  }

  // A begin marker and an end marker after it.
  predicate HasBlock(existing: string, begin: string, end: string) {
    Contains(existing, begin) && Contains(existing[Index(existing, begin)..], end)
  }

  // Where the first block of a file ends.
  function BlockStop(existing: string, begin: string, end: string): int
    requires HasBlock(existing, begin, end)
  {
    Index(existing, begin) + Index(existing[Index(existing, begin)..], end) + |end|
  }

  lemma {:induction false} TrimLeftOfJoin(s: string, feeds: string)
    requires s != "" && s[|s| - 1] != '\n'
    ensures TrimLeft(s + feeds, FEED) == TrimLeft(s, FEED) + feeds && TrimLeft(s, FEED) != ""
    ensures TrimLeft(s, FEED)[|TrimLeft(s, FEED)| - 1] != '\n'
  {
    if s[0] == '\n' {
      TrimLeftOfJoin(s[1..], feeds);
      assert (s + feeds)[1..] == s[1..] + feeds;
    }
  }

  // Trimming the end of the file first gives the same text after the block.
  lemma JoinedParts(front: string, back: string, feeds: string)
    requires back == "" || back[|back| - 1] != '\n'
    requires forall i | 0 <= i < |feeds| :: feeds[i] == '\n'
    ensures TrimRight(TrimRight(front, FEED) + "\n\n" + TrimLeft(back, FEED), FEED) == Joined(front, back + feeds)
  {
    var f, l := TrimRight(front, FEED), TrimLeft(back, FEED);
    TrimRightIs(front);
    if back == "" {
      TrimLeftIs(feeds);
      assert back + feeds == feeds && TrimLeft(feeds, FEED) == "";
      TrimRightOf(f, "\n\n");
      assert f + "\n\n" + "" == f + "\n\n";
    } else {
      TrimLeftOfJoin(back, feeds);
      TrimRightOf(l, feeds);
      var whole := f + "\n\n" + l;
      TrimRightOf(whole, "");
      assert whole + "" == whole;
    }
  }

  lemma IndexInPrefix(s: string, pat: string, n: nat)
    requires n <= |s| && Contains(s[..n], pat)
    ensures Index(s[..n], pat) == Index(s, pat)
  {
    assert s[..n] == s[0..n];
    OccursInWhole(s, pat, 0, n, Index(s[..n], pat));
    OccursInPart(s, pat, Index(s, pat), 0, n);
  }

  // Trimming the end of a plain file moves neither end of its block.
  lemma BlockStays(existing: string, begin: string, end: string)
    requires MarkersOk(begin, end) && HasBlock(existing, begin, end)
    ensures var text := TrimRight(existing, FEED);
      && HasBlock(text, begin, end) && Index(text, begin) == Index(existing, begin)
      && BlockStop(text, begin, end) == BlockStop(existing, begin, end)
  {
    hide TrimRight;
    var text, p := TrimRight(existing, FEED), Index(existing, begin);
    TrimRightIs(existing);
    MarkerStays(existing, begin, text);
    EndStaysInText(existing, end, p);
    assert existing[p..][..|text| - p] == text[p..];
    IndexInPrefix(existing[p..], end, |text| - p);
  }

  // The text of a file with Unix line ends outside its first block; all of it when there is no complete block.
  function TextOutside(existing: string, begin: string, end: string): string {
    if HasBlock(existing, begin, end)
    then Joined(existing[..Index(existing, begin)], existing[BlockStop(existing, begin, end)..])
    else TrimRight(existing, FEED)
  }

  lemma CutOfTrimmed(existing: string, begin: string, end: string)
    requires MarkersOk(begin, end)
    ensures TrimRight(Cut(TrimRight(existing, FEED), begin, end), FEED) == TextOutside(existing, begin, end)
  {
    if HasBlock(existing, begin, end) {
      BlockStays(existing, begin, end);
      TextBesideBlock(existing, begin, end, TrimRight(existing, FEED));
    } else {
      NoBlockInText(existing, begin, end, TrimRight(existing, FEED));
      TrimRightTwice(existing);
    }
    hide TrimRight, TrimLeft, OccursAt, Joined;
  }

  lemma NoBlockInText(existing: string, begin: string, end: string, text: string)
    requires MarkersOk(begin, end) && text == TrimRight(existing, FEED) && !HasBlock(existing, begin, end)
    ensures Cut(text, begin, end) == text
  {
    hide TrimRight, TrimLeft, OccursAt;
    TrimRightIs(existing);
    if Contains(existing, begin) {
      MarkerStays(existing, begin, text);
      NotInPrefix(existing, end, Index(existing, begin), |text|);
    } else {
      NoMarkerInText(existing, begin);
    }
  }

  /** What stays of a file is its text before and after its first complete block, with CRLF replaced; only line feeds
      next to the block and at the end of the file go. */
  lemma OutsideIsText(existing: string, begin: string, end: string)
    requires MarkersOk(begin, end)
    ensures Kept(existing, begin, end) == TextOutside(UnixLines(existing), begin, end)
  {
    CutOfTrimmed(UnixLines(existing), begin, end);
    hide TextOutside, TrimRight, Cut, UnixLines;
  }

  /** Whatever the file and the block are: the result is the file's own text outside its first complete block, an empty
      line and the block, or only the block when nothing but white space is left. */
  lemma ReplaceMeans(existing: string, block: string, begin: string, end: string)
    requires MarkersOk(begin, end)
    ensures var text, b := TextOutside(UnixLines(existing), begin, end), TrimRight(block, FEED);
      Replaced(existing, block, begin, end) == if Blank(text) then b + "\n" else text + "\n\n" + b + "\n"
  {
    ResultShape(existing, block, begin, end);
    OutsideIsText(existing, begin, end);
    hide TextOutside, Kept, Replaced, Blank, UnixLines;
  }

  lemma TextBesideBlock(existing: string, begin: string, end: string, text: string)
    requires text == TrimRight(existing, FEED) && HasBlock(text, begin, end) && HasBlock(existing, begin, end)
    requires Index(text, begin) == Index(existing, begin) && BlockStop(text, begin, end) == BlockStop(existing, begin, end)
    ensures TrimRight(Cut(text, begin, end), FEED) ==
      Joined(existing[..Index(existing, begin)], existing[BlockStop(existing, begin, end)..])
  {
    hide TrimRight, TrimLeft, OccursAt, Joined;
    TrimRightIs(existing);
    var p, e, feeds := Index(text, begin), BlockStop(text, begin, end), existing[|text|..];
    CutAt(text, begin, end, p);
    assert existing[..p] == text[..p] && existing[e..] == text[e..] + feeds;
    JoinedParts(text[..p], text[e..], feeds);
  }

  lemma TrimRightTwice(s: string)
    ensures TrimRight(TrimRight(s, FEED), FEED) == TrimRight(s, FEED)
  {
    TrimRightIs(s);
    TrimRightOf(TrimRight(s, FEED), "");
    assert TrimRight(s, FEED) + "" == TrimRight(s, FEED);
  }

  lemma NoMarkerInText(existing: string, begin: string)
    requires !Contains(existing, begin)
    ensures !Contains(TrimRight(existing, FEED), begin)
  {
    TrimmedIsPart(existing);
    if Contains(TrimRight(existing, FEED), begin) {
      OccursInWhole(existing, begin, 0, |TrimRight(existing, FEED)|, Index(TrimRight(existing, FEED), begin));
    }
  }

  /** And a later replacement keeps of the result exactly that text, if the file was a plain one. */
  lemma OutsideIsKept(existing: string, block: string, begin: string, end: string)
    requires MarkersOk(begin, end) && WellFormed(block, begin, end) && PlainFile(existing, begin, end)
    ensures var text := TextOutside(existing, begin, end);
      Kept(Replaced(existing, block, begin, end), begin, end) == if Blank(text) then "" else text
  {
    NoReturnNoCRLF(existing);
    UnixLinesStay(existing);
    PlainFileIsClean(existing, begin, end);
    SecondOutside(existing, block, begin, end);
    OutsideIsText(existing, begin, end);
  }

  // ---- files on which the last writer does not win ----

  const PROVIDER_BEGIN := "# BEGIN MINDFS API PROVIDER"
  const PROVIDER_END := "# END MINDFS API PROVIDER"

  lemma ProviderMarkersDiffer()
    ensures !Contains(PROVIDER_BEGIN, PROVIDER_END)
  {
    assert PROVIDER_END[0] == '#' && PROVIDER_BEGIN[0] == '#' && PROVIDER_BEGIN[1] == ' ' && PROVIDER_BEGIN[2] == 'B';
    forall i ensures !OccursAt(PROVIDER_BEGIN, PROVIDER_END, i) {
      if OccursAt(PROVIDER_BEGIN, PROVIDER_END, i) {
        OccursChar(PROVIDER_BEGIN, PROVIDER_END, i, i);
        OccursChar(PROVIDER_BEGIN, PROVIDER_END, i, i + 2);
      }
    }
  }

  lemma ProviderMarkersOk()
    ensures MarkersOk(PROVIDER_BEGIN, PROVIDER_END)
  {
    ProviderMarkersDiffer();
    hide OccursAt;
  }

  /** A begin marker without its end: the second write takes the user's text for part of the block. */
  lemma OrphanMarkerFails(existing: string, begin: string, end: string)
    requires MarkersOk(begin, end) && !Blank(begin) && '\r' !in existing
    requires Contains(existing, begin) && !Contains(existing[Index(existing, begin)..], end)
    ensures !LastWins(existing, begin, end)
  {
    OrphanStays(existing, begin, end);
    MarkerIsNotBlank(TrimRight(existing, FEED), begin, Index(existing, begin));
    LastWriterWinsIff(existing, begin, end);
    hide TrimRight, Outside, Blank, LastWins, HasCRLF, UnixLines;
  }

  lemma OrphanStays(existing: string, begin: string, end: string)
    requires MarkersOk(begin, end) && '\r' !in existing && Contains(existing, begin) && !HasBlock(existing, begin, end)
    ensures Kept(existing, begin, end) == TrimRight(existing, FEED)
    ensures OccursAt(TrimRight(existing, FEED), begin, Index(existing, begin))
  {
    NoReturnNoCRLF(existing);
    UnixLinesStay(existing);
    OutsideIsText(existing, begin, end);
    MarkerStays(existing, begin, TrimRight(existing, FEED));
    hide TrimRight, UnixLines, Kept;
  }

  // A marker is not touched when the line feeds at the end go.
  lemma MarkerStays(existing: string, begin: string, text: string)
    requires begin != "" && OneLine(begin) && Contains(existing, begin) && text == TrimRight(existing, FEED)
    ensures |text| <= |existing| && Contains(text, begin) && Index(text, begin) == Index(existing, begin)
  {
    hide TrimRight;
    TrimRightIs(existing);
    EndStaysInText(existing, begin, 0);
    assert existing[0..] == existing && text[0..] == text;
    IndexInPrefix(existing, begin, |text|);
  }

  lemma NotInPrefix(s: string, pat: string, p: nat, n: nat)
    requires p <= n <= |s| && !Contains(s[p..], pat)
    ensures !Contains(s[..n][p..], pat)
  {
    assert s[..n][p..] == s[p..][..n - p];
    if Contains(s[p..][..n - p], pat) {
      IndexInPrefix(s[p..], pat, n - p);
    }
  }

  lemma MarkerIsNotBlank(text: string, begin: string, p: nat)
    requires OccursAt(text, begin, p) && !Blank(begin)
    ensures !Blank(text)
  {
    BlankIsAllSpace(begin);
    BlankIsAllSpace(text);
    var k :| 0 <= k < |begin| && !IsSpace(begin[k]);
    OccursChar(text, begin, p, p + k);
  }

  lemma {:induction false} UnixLinesAfter(a: string, rest: string)
    requires '\r' !in a
    ensures UnixLines(a + rest) == a + UnixLines(rest)
  {
    if a == "" {
      assert a + rest == rest;
    } else {
      UnixLinesAfter(a[1..], rest);
      assert (a + rest)[1..] == a[1..] + rest;
    }
  }

  // A carriage return that stays before a line feed, or at the end of the file, makes a CRLF.
  lemma ReturnStays(existing: string, a: string, begin: string, end: string)
    requires MarkersOk(begin, end) && !Blank(a) && !Contains(UnixLines(existing), begin)
    requires HasPrefix(UnixLines(existing), a + "\r")
    requires |UnixLines(existing)| > |a| + 1 ==> UnixLines(existing)[|a| + 1] == '\n'
    ensures !LastWins(existing, begin, end)
  {
    var s := UnixLines(existing);
    var text := TrimRight(s, FEED);
    TrimRightIs(s);
    NoMarkerInText(s, begin);
    TrimRightTwice(s);
    assert s[..|a| + 1][|a|] == s[|a|] == '\r';
    assert CRLFAt(text + "\n", |a|);
    BlankIsAllSpace(a);
    BlankIsAllSpace(text);
    var k :| 0 <= k < |a| && !IsSpace(a[k]);
    assert s[..|a| + 1][k] == a[k] == text[k];
    LastWriterWinsIff(existing, begin, end);
  }

  /** A carriage return too many at the end of any line: replacing CRLF once leaves a CRLF, which the second write
      replaces. */
  lemma DoubleReturnFails(a: string, b: string, begin: string, end: string)
    requires MarkersOk(begin, end) && '\r' !in a && '\r' !in b && !Blank(a) && !Contains(a, begin) && !Contains(b, begin)
    ensures !LastWins(a + "\r\r\n" + b, begin, end)
  {
    var existing, s := a + "\r\r\n" + b, a + "\r\n" + b;
    assert existing == a + ("\r\r\n" + b) && s == a + ("\r\n" + b);
    UnixLinesAfter(a, "\r\r\n" + b);
    ReturnThenCRLF(b);
    NoMarkerAcross(a, "\r\n", b, begin);
    assert s[..|a| + 1] == a + "\r";
    ReturnStays(existing, a, begin, end);
  }

  lemma ReturnThenCRLF(b: string)
    requires '\r' !in b
    ensures UnixLines("\r\r\n" + b) == "\r\n" + b
  {
    var t := "\r\r\n" + b;
    NoReturnNoCRLF(b);
    UnixLinesStay(b);
    assert t[1..] == "\r\n" + b && t[1..][2..] == b;
  }

  // A marker cannot reach over a line end.
  lemma MarkerBesideLineEnd(a: string, lineEnd: string, b: string, pat: string, i: int)
    requires pat != "" && OneLine(pat) && OccursAt(a + lineEnd + b, pat, i)
    requires lineEnd != "" && forall k | 0 <= k < |lineEnd| :: lineEnd[k] in {'\r', '\n'}
    ensures OccursAt(a, pat, i) || OccursAt(b, pat, i - |a| - |lineEnd|)
  {
    var s := a + lineEnd + b;
    var k := if i < |a| then |a| else i;
    if k < |a| + |lineEnd| && k < i + |pat| {
      assert s[k] == lineEnd[k - |a|];
      OccursChar(s, pat, i, k);
    } else if i < |a| {
      OccursInPart(s, pat, i, 0, |a|);
      assert s[0..|a|] == a;
    } else {
      OccursInPart(s, pat, i, |a| + |lineEnd|, |s|);
      assert s[|a| + |lineEnd|..|s|] == b;
    }
  }

  lemma NoMarkerAcross(a: string, lineEnd: string, b: string, begin: string)
    requires begin != "" && OneLine(begin) && !Contains(a, begin) && !Contains(b, begin)
    requires lineEnd != "" && forall k | 0 <= k < |lineEnd| :: lineEnd[k] in {'\r', '\n'}
    ensures !Contains(a + lineEnd + b, begin)
  {
    if Contains(a + lineEnd + b, begin) {
      MarkerBesideLineEnd(a, lineEnd, b, begin, Index(a + lineEnd + b, begin));
    }
  }

  /** A carriage return at the very end of the file: the first write puts a line feed behind it. */
  lemma LastReturnFails(a: string, begin: string, end: string)
    requires MarkersOk(begin, end) && '\r' !in a && !Blank(a) && !Contains(a, begin)
    ensures !LastWins(a + "\r", begin, end)
  {
    UnixLinesAfter(a, "\r");
    LoneReturn();
    assert !Contains("", begin);
    NoMarkerAcross(a, "\r", "", begin);
    assert a + "\r" + "" == a + "\r";
    assert (a + "\r")[..|a| + 1] == a + "\r";
    ReturnStays(a + "\r", a, begin, end);
  }

  lemma LoneReturn()
    ensures UnixLines("\r") == "\r"
  {
    NoCRLFInReturn();
    UnixLinesStay("\r");
  }

  lemma NoCRLFInReturn()
    ensures !HasCRLF("\r")
  {
  }

  /** The same for the markers in use. */
  lemma ProviderOrphanFails(existing: string)
    requires '\r' !in existing && Contains(existing, PROVIDER_BEGIN)
    requires !Contains(existing[Index(existing, PROVIDER_BEGIN)..], PROVIDER_END)
    ensures !LastWins(existing, PROVIDER_BEGIN, PROVIDER_END)
  {
    ProviderMarkersOk();
    BlankIsAllSpace(PROVIDER_BEGIN);
    assert !IsSpace(PROVIDER_BEGIN[0]);
    OrphanMarkerFails(existing, PROVIDER_BEGIN, PROVIDER_END);
  }

  lemma ProviderReturnFails(a: string, b: string)
    requires '\r' !in a && '\r' !in b && !Blank(a) && !Contains(a, PROVIDER_BEGIN) && !Contains(b, PROVIDER_BEGIN)
    ensures !LastWins(a + "\r\r\n" + b, PROVIDER_BEGIN, PROVIDER_END)
    ensures !LastWins(a + "\r", PROVIDER_BEGIN, PROVIDER_END)
  {
    hide *;
    ProviderMarkersOk();
    DoubleReturnFails(a, b, PROVIDER_BEGIN, PROVIDER_END);
    LastReturnFails(a, PROVIDER_BEGIN, PROVIDER_END);
  }
}
