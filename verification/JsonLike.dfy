/** The two hand-written passes that turn JSON-like configuration text into JSON: dropping comments and
    rewriting single-quoted strings. A char stands for one byte. */
module JsonLike {
  import opened SeqTools

  predicate IsQuote(c: char) {
    c == '"' || c == '\''
  }

  // How far a string literal goes when its content starts at s: past its closing quote, or to the end.
  function ContentLength(s: string, quote: char, escaped: bool): (n: nat)
    ensures n <= |s|
  {
    if s == "" then 0
    else if escaped then 1 + ContentLength(s[1..], quote, false)
    else if s[0] == '\\' then 1 + ContentLength(s[1..], quote, true)
    else if s[0] == quote then 1
    else 1 + ContentLength(s[1..], quote, false)
  }

  // The closing quote is there.
  predicate Closed(s: string, quote: char, escaped: bool) {
    s != "" &&
    if escaped then Closed(s[1..], quote, false)
    else if s[0] == '\\' then Closed(s[1..], quote, true)
    else s[0] == quote || Closed(s[1..], quote, false)
  }

  function LiteralLength(s: string): (n: nat)
    requires s != "" && IsQuote(s[0])
    ensures 0 < n <= |s|
  {
    1 + ContentLength(s[1..], s[0], false)
  }

  predicate OpensComment(s: string) {
    |s| >= 2 && s[0] == '/' && (s[1] == '/' || s[1] == '*')
  }

  // The number of bytes before the first line feed.
  function LineLength(s: string): (n: nat)
    ensures n <= |s|
  {
    if s == "" || s[0] == '\n' then 0 else 1 + LineLength(s[1..])
  }

  // The number of bytes up to and including the first "*/", or all.
  function BlockLength(s: string): (n: nat)
    ensures n <= |s|
  {
    if |s| < 2 then |s| else if s[0] == '*' && s[1] == '/' then 2 else 1 + BlockLength(s[1..])
  }

  function CommentLength(s: string): (n: nat)
    requires OpensComment(s)
    ensures 0 < n <= |s|
  {
    if s[1] == '/' then 2 + LineLength(s[2..]) else 2 + BlockLength(s[2..])
  }

  // ---- comments ----

  function Strip(s: string): string
    decreases |s|
  {
    if s == "" then ""
    else if IsQuote(s[0]) then s[..LiteralLength(s)] + Strip(s[LiteralLength(s)..])
    else if OpensComment(s) then Strip(s[CommentLength(s)..])
    else [s[0]] + Strip(s[1..])
  }

  // What is still to be written when the scan stands at s, inside a string or not.
  function StripRest(s: string, inString: bool, quote: char, escaped: bool): string {
    if inString then
      var n := ContentLength(s, quote, escaped);
      s[..n] + Strip(s[n..])
    else Strip(s)
  }

  lemma ContentSteps(s: string, quote: char, escaped: bool)
    requires s != ""
    ensures ContentLength(s, quote, escaped) ==
      if !escaped && s[0] != '\\' && s[0] == quote then 1
      else 1 + ContentLength(s[1..], quote, !escaped && s[0] == '\\')
  {
  }

  // A literal of 1 + n bytes, taken apart after its first byte.
  lemma CutAfterFirst(s: string, rest: string, n: nat)
    requires s != "" && rest == s[1..] && n <= |rest|
    ensures s[..1 + n] == [s[0]] + rest[..n] && s[1 + n..] == rest[n..]
    ensures s[..1 + n] + Strip(s[1 + n..]) == [s[0]] + (rest[..n] + Strip(rest[n..]))
  {
    hide Strip;
    assert s[..1 + n] == [s[0]] + rest[..n];
    assert s[1 + n..] == rest[n..];
  }

  lemma InsideString(s: string, quote: char, escaped: bool)
    requires s != ""
    ensures StripRest(s, true, quote, escaped) ==
      [s[0]] + if escaped then StripRest(s[1..], true, quote, false)
               else if s[0] == '\\' then StripRest(s[1..], true, quote, true)
               else if s[0] == quote then StripRest(s[1..], false, quote, false)
               else StripRest(s[1..], true, quote, false)
  {
    hide Strip, ContentLength;
    var rest, closes := s[1..], !escaped && s[0] != '\\' && s[0] == quote;
    ContentSteps(s, quote, escaped);
    CutAfterFirst(s, rest, if closes then 0 else ContentLength(rest, quote, !escaped && s[0] == '\\'));
    if closes {
      assert rest[..0] + Strip(rest[0..]) == Strip(rest) by {
        assert rest[0..] == rest;
      }
    }
  }

  lemma IntoString(s: string)
    requires s != "" && IsQuote(s[0])
    ensures Strip(s) == [s[0]] + StripRest(s[1..], true, s[0], false)
  {
    StripLiteral(s);
    hide Strip, ContentLength;
    CutAfterFirst(s, s[1..], ContentLength(s[1..], s[0], false));
  }

  lemma StripLiteral(s: string)
    requires s != "" && IsQuote(s[0])
    ensures Strip(s) == s[..LiteralLength(s)] + Strip(s[LiteralLength(s)..])
  {
    hide LiteralLength;
  }

  lemma PlainStep(s: string)
    requires s != "" && !IsQuote(s[0]) && !OpensComment(s)
    ensures Strip(s) == [s[0]] + Strip(s[1..])
  {
  }

  lemma CommentStep(s: string)
    requires OpensComment(s)
    ensures Strip(s) == Strip(s[CommentLength(s)..])
  {
  }

  lemma Assoc(a: string, b: string, c: string)
    ensures a + (b + c) == (a + b) + c
  {
  }

  method StripJSONLikeComments(input: string) returns (output: string)
    ensures output == Strip(input)
  {
    hide Strip, StripRest, ContentLength, LiteralLength, CommentLength;
    output := "";
    var inString, quote, escaped := false, ' ', false;
    var i := 0;
    Outside(input, quote);
    assert input[0..] == input;
    while i < |input|
      invariant 0 <= i <= |input|
      invariant !inString ==> !escaped
      invariant output + StripRest(input[i..], inString, quote, escaped) == Strip(input)
      decreases |input| - i
    {
      ghost var rest := input[i..];
      var ch := input[i];
      assert rest[1..] == input[i + 1..];
      if inString {
        InsideString(rest, quote, escaped);
        ghost var before := output;
        output := output + [ch];
        if escaped {
          escaped := false;
        } else if ch == '\\' {
          escaped := true;
        } else if ch == quote {
          inString := false;
        }
        i := i + 1;
        Assoc(before, [ch], StripRest(input[i..], inString, quote, escaped));
        continue;
      }
      Outside(rest, quote);
      if ch == '"' || ch == '\'' {
        IntoString(rest);
        inString, quote := true, ch;
        Assoc(output, [ch], StripRest(rest[1..], true, ch, false));
        output := output + [ch];
        i := i + 1;
        continue;
      }
      if ch == '/' && i + 1 < |input| && input[i + 1] == '/' {
        CommentStep(rest);
        DropTwice(input, i, CommentLength(rest));
        i := SkipLine(input, i);
        if i < |input| {
          LineFeedStep(input[i..]);
          assert input[i..][1..] == input[i + 1..];
          Assoc(output, [input[i]], Strip(input[i + 1..]));
          output := output + [input[i]];
          i := i + 1;
        }
        Outside(input[i..], quote);
        continue;
      }
      if ch == '/' && i + 1 < |input| && input[i + 1] == '*' {
        CommentStep(rest);
        DropTwice(input, i, CommentLength(rest));
        i := SkipBlock(input, i);
        Outside(input[i..], quote);
        continue;
      }
      PlainStep(rest);
      Outside(rest[1..], quote);
      Assoc(output, [ch], Strip(rest[1..]));
      output := output + [ch];
      i := i + 1;
    }
    NothingLeft(inString, quote, escaped);
    assert input[i..] == "";
  }

  lemma Outside(s: string, quote: char)
    ensures StripRest(s, false, quote, false) == Strip(s)
  {
  }

  lemma LineFeedStep(s: string)
    requires s != "" && s[0] == '\n'
    ensures Strip(s) == [s[0]] + Strip(s[1..])
  {
  }

  lemma NothingLeft(inString: bool, quote: char, escaped: bool)
    ensures StripRest("", inString, quote, escaped) == ""
  {
  }

  lemma LineStep(input: string, i: nat)
    requires i <= |input|
    ensures LineLength(input[i..]) ==
      if i == |input| || input[i] == '\n' then 0 else 1 + LineLength(input[i + 1..])
  {
    if i < |input| {
      DropTwice(input, i, 1);
    }
  }

  lemma BlockStep(input: string, i: nat)
    requires i <= |input|
    ensures BlockLength(input[i..]) ==
      if i + 2 > |input| then |input| - i
      else if input[i] == '*' && input[i + 1] == '/' then 2
      else 1 + BlockLength(input[i + 1..])
  {
    if i < |input| {
      DropTwice(input, i, 1);
    }
  }

  // A comment's length counted from its third byte on.
  lemma CommentParts(input: string, start: nat)
    requires start <= |input| && OpensComment(input[start..])
    ensures CommentLength(input[start..]) == 2 +
      if input[start + 1] == '/' then LineLength(input[start + 2..]) else BlockLength(input[start + 2..])
  {
    DropTwice(input, start, 2);
  }

  // The inner loop of a line comment; it stops at the line feed.
  method SkipLine(input: string, start: nat) returns (i: nat)
    requires start + 1 < |input| && input[start] == '/' && input[start + 1] == '/'
    ensures i == start + CommentLength(input[start..]) <= |input|
    ensures i < |input| ==> input[i] == '\n'
  {
    CommentParts(input, start);
    LineStep(input, start);
    LineStep(input, start + 1);
    hide LineLength, CommentLength;
    i := start;
    while i < |input| && input[i] != '\n'
      invariant start <= i <= |input|
      invariant i + LineLength(input[i..]) == start + LineLength(input[start..])
    {
      LineStep(input, i);
      i := i + 1;
    }
    LineStep(input, i);
  }

  method SkipBlock(input: string, start: nat) returns (i: nat)
    requires start + 1 < |input| && input[start] == '/' && input[start + 1] == '*'
    ensures i == start + CommentLength(input[start..]) <= |input|
  {
    CommentParts(input, start);
    hide BlockLength, CommentLength;
    i := start + 2;
    while i + 1 < |input| && !(input[i] == '*' && input[i + 1] == '/')
      invariant start + 2 <= i <= |input|
      invariant i + BlockLength(input[i..]) == start + 2 + BlockLength(input[start + 2..])
    {
      BlockStep(input, i);
      i := i + 1;
    }
    BlockStep(input, i);
    i := if i + 2 <= |input| then i + 2 else |input|;
  }
}
