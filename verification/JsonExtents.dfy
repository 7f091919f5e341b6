/** Where comments and strings end, in the text's own terms, and what the comment pass makes of each of them. */
module JsonExtents {
  import opened JsonLike
  import opened JsonQuotes

  // ---- comments ----

  /** A line comment ends before the first line feed, or with the text. */
  lemma {:induction false} LineEndsAtFeed(s: string)
    ensures forall k | 0 <= k < LineLength(s) :: s[k] != '\n'
    ensures LineLength(s) < |s| ==> s[LineLength(s)] == '\n'
  {
    if s != "" && s[0] != '\n' {
      LineEndsAtFeed(s[1..]);
    }
  }

  /** A block comment ends with the first "*" followed by "/", or with the text. */
  lemma {:induction false} BlockEndsAtClose(s: string, i: nat)
    requires i + 2 <= |s| && s[i] == '*' && s[i + 1] == '/'
    requires forall k | 0 <= k < i :: !(s[k] == '*' && s[k + 1] == '/')
    ensures BlockLength(s) == i + 2
  {
    if i > 0 {
      BlockEndsAtClose(s[1..], i - 1);
    }
  }

  lemma {:induction false} OpenBlockEndsTheText(s: string)
    requires forall k | 0 <= k < |s| - 1 :: !(s[k] == '*' && s[k + 1] == '/')
    ensures BlockLength(s) == |s|
  {
    if |s| >= 2 {
      OpenBlockEndsTheText(s[1..]);
    }
  }

  /** A block comment goes with everything up to its close. */
  lemma BlockCommentGoes(body: string, rest: string)
    requires forall k | 0 <= k < |body| - 1 :: !(body[k] == '*' && body[k + 1] == '/')
    ensures Strip("/*" + body + "*/" + rest) == Strip(rest)
  {
    var s, tail := "/*" + body + "*/" + rest, body + "*/" + rest;
    assert s[2..] == tail;
    BlockEndsAtClose(tail, |body|);
    assert s[CommentLength(s)..] == rest;
  }

  /** A line comment goes up to its line feed, which stays. */
  lemma LineCommentGoes(body: string, rest: string)
    requires '\n' !in body
    ensures Strip("//" + body + "\n" + rest) == "\n" + Strip(rest)
  {
    var s, tail := "//" + body + "\n" + rest, body + "\n" + rest;
    assert s[2..] == tail;
    LineEndsAtFeed(tail);
    assert tail[|body|] == '\n';
    assert forall k | 0 <= k < |body| :: tail[k] == body[k];
    assert LineLength(tail) == |body|;
    var left := s[CommentLength(s)..];
    assert left == "\n" + rest;
    LineFeedStep(left);
    assert left[1..] == rest;
  }

  /** Any other text outside strings stays. */
  lemma PlainTextStays(c: char, rest: string)
    requires c != '"' && c != '\'' && !(c == '/' && rest != "" && rest[0] in {'/', '*'})
    ensures Strip([c] + rest) == [c] + Strip(rest)
  {
    assert ([c] + rest)[1..] == rest;
  }

  // ---- strings ----

  // The number of backslashes directly before position k.
  function Slashes(s: string, k: nat): nat
    requires k <= |s|
  {
    if k == 0 || s[k - 1] != '\\' then 0 else 1 + Slashes(s, k - 1)
  }

  // Position k is escaped, the text starting right after a backslash or not.
  predicate EscapedAt(s: string, k: nat, escaped: bool)
    requires k <= |s|
  {
    if k == 0 then escaped else s[k - 1] == '\\' && !EscapedAt(s, k - 1, escaped)
  }

  lemma {:induction false} EscapedIsOdd(s: string, k: nat)
    requires k <= |s|
    ensures EscapedAt(s, k, false) <==> Slashes(s, k) % 2 == 1
  {
    if k > 0 {
      EscapedIsOdd(s, k - 1);
    }
  }

  lemma {:induction false} EscapedLater(s: string, k: nat, escaped: bool)
    requires 0 < k <= |s|
    ensures EscapedAt(s[1..], k - 1, s[0] == '\\' && !escaped) == EscapedAt(s, k, escaped)
  {
    if k > 1 {
      EscapedLater(s, k - 1, escaped);
    }
  }

  predicate ClosesAt(s: string, quote: char, escaped: bool, k: nat)
    requires k < |s|
  {
    s[k] == quote && !EscapedAt(s, k, escaped)
  }

  lemma {:induction false} ContentEnds(s: string, quote: char, escaped: bool, n: nat)
    requires quote != '\\' && n <= |s| && (n < |s| ==> ClosesAt(s, quote, escaped, n))
    requires forall k | 0 <= k < n :: !ClosesAt(s, quote, escaped, k)
    ensures ContentLength(s, quote, escaped) == if n < |s| then n + 1 else |s|
  {
    if n > 0 {
      var rest, later := s[1..], s[0] == '\\' && !escaped;
      assert !ClosesAt(s, quote, escaped, 0);
      forall k | 0 <= k < |rest| ensures ClosesAt(rest, quote, later, k) == ClosesAt(s, quote, escaped, k + 1) {
        EscapedLater(s, k + 1, escaped);
      }
      ContentEnds(rest, quote, later, n - 1);
    }
  }

  /** A string ends at the first of its quotes with an even number of backslashes before it, or with the text. */
  lemma StringEnds(s: string, quote: char, n: nat)
    requires IsQuote(quote) && n <= |s| && (n < |s| ==> s[n] == quote && Slashes(s, n) % 2 == 0)
    requires forall k | 0 <= k < n :: !(s[k] == quote && Slashes(s, k) % 2 == 0)
    ensures ContentLength(s, quote, false) == if n < |s| then n + 1 else |s|
  {
    forall k | 0 <= k < |s| ensures ClosesAt(s, quote, false, k) <==> s[k] == quote && Slashes(s, k) % 2 == 0 {
      EscapedIsOdd(s, k);
    }
    ContentEnds(s, quote, false, n);
  }

  lemma {:induction false} SlashesInFront(a: string, b: string, k: nat)
    requires k <= |a|
    ensures Slashes(a + b, k) == Slashes(a, k)
  {
    if k > 0 {
      SlashesInFront(a, b, k - 1);
    }
  }

  /** A string stays byte for byte, whatever it holds, with its quotes. */
  lemma StringStays(quote: char, content: string, rest: string)
    requires IsQuote(quote) && Slashes(content, |content|) % 2 == 0
    requires forall k | 0 <= k < |content| :: !(content[k] == quote && Slashes(content, k) % 2 == 0)
    ensures Strip([quote] + content + [quote] + rest) == [quote] + content + [quote] + Strip(rest)
  {
    var s, tail, closing := [quote] + content + [quote] + rest, content + [quote] + rest, [quote] + rest;
    assert tail == content + closing && s[1..] == tail;
    forall k | 0 <= k <= |content| ensures Slashes(tail, k) == Slashes(content, k) {
      SlashesInFront(content, closing, k);
    }
    assert forall k | 0 <= k < |content| :: tail[k] == content[k];
    StringEnds(tail, quote, |content|);
    StripLiteral(s);
    var n := |content| + 2;
    assert s[..n] == [quote] + content + [quote] && s[n..] == rest;
    hide Strip, ContentLength;
  }

  // ---- escapes in rewritten strings ----

  // Position k is escaped in the text, counted from its start.
  lemma {:induction false} EscapedInFront(a: string, b: string, k: nat)
    requires k <= |a|
    ensures EscapedAt(a + b, k, false) == EscapedAt(a, k, false)
  {
    if k > 0 {
      EscapedInFront(a, b, k - 1);
    }
  }

  lemma {:induction false} EscapedBehind(a: string, b: string, k: nat)
    requires k <= |b| && !EscapedAt(a, |a|, false)
    ensures EscapedAt(a + b, |a| + k, false) == EscapedAt(b, k, false)
  {
    if k == 0 {
      EscapedInFront(a, b, |a|);
    } else {
      EscapedBehind(a, b, k - 1);
    }
  }

  ghost predicate NoEscapedQuote(s: string) {
    forall k | 0 <= k < |s| && s[k] == '\'' :: !EscapedAt(s, k, false)
  }

  lemma PieceKeepsFree(piece: string, rest: string)
    requires NoEscapedQuote(piece) && !EscapedAt(piece, |piece|, false) && NoEscapedQuote(rest)
    ensures NoEscapedQuote(piece + rest)
  {
    var s := piece + rest;
    forall k | 0 <= k < |s| && s[k] == '\'' ensures !EscapedAt(s, k, false) {
      if k < |piece| {
        EscapedInFront(piece, rest, k);
      } else {
        EscapedBehind(piece, rest, k - |piece|);
      }
    }
  }

  lemma PieceIsFree(ch: char, escaped: bool)
    ensures var piece := SingleByte(ch, escaped);
      NoEscapedQuote(piece) && !EscapedAt(piece, |piece|, false)
  {
    var piece := SingleByte(ch, escaped);
    assert !EscapedAt(piece, 0, false);
    if |piece| == 2 {
      assert piece[0] == '\\' && piece[1] != '\'';
      assert EscapedAt(piece, 1, false);
    } else {
      assert piece == "" || piece[0] != '\\';
    }
  }

  /** JSON knows no escape for a single quote: whatever the source string escapes, the rewritten one holds its single
      quotes bare. */
  lemma {:induction false} RewrittenFreesQuotes(t: string, escaped: bool)
    ensures NoEscapedQuote(Rewritten(t, escaped))
  {
    hide NoEscapedQuote, SingleByte, Rewritten, EscapedAt;
    if t == "" {
      NothingIsFree(t, escaped);
    } else {
      RewriteStep(t, escaped);
      RewrittenFreesQuotes(t[1..], !escaped && t[0] == '\\');
      PieceIsFree(t[0], escaped);
      PieceKeepsFree(SingleByte(t[0], escaped), Rewritten(t[1..], !escaped && t[0] == '\\'));
    }
  }

  lemma NothingIsFree(t: string, escaped: bool)
    requires t == ""
    ensures NoEscapedQuote(Rewritten(t, escaped))
  {
  }
}
