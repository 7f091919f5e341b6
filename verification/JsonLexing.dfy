/** What comment stripping means: the tokens of the text without its comments. */
module JsonLexing {
  import opened JsonLike

  datatype Token = Plain(c: char) | Literal(text: string) | Comment(text: string)

  function Lex(s: string): (tokens: seq<Token>)
    decreases |s|
  {
    if s == "" then []
    else if IsQuote(s[0]) then [Literal(s[..LiteralLength(s)])] + Lex(s[LiteralLength(s)..])
    else if OpensComment(s) then [Comment(s[..CommentLength(s)])] + Lex(s[CommentLength(s)..])
    else [Plain(s[0])] + Lex(s[1..])
  }

  function Written(t: Token): string {
    match t
    case Plain(c) => [c]
    case Literal(text) => text
    case Comment(text) => text
  }

  function Unlex(tokens: seq<Token>): string {
    if tokens == [] then "" else Written(tokens[0]) + Unlex(tokens[1..])
  }

  function WithoutComments(tokens: seq<Token>): (r: seq<Token>)
    ensures forall t | t in r :: !t.Comment?
  {
    if tokens == [] then []
    else (if tokens[0].Comment? then [] else [tokens[0]]) + WithoutComments(tokens[1..])
  }

  predicate NoComments(s: string) {
    forall t | t in Lex(s) :: !t.Comment?
  }

  // The tokens of a text that is put together from a first token and the rest.
  lemma LexHead(s: string)
    requires s != ""
    ensures var n := |Written(Lex(s)[0])|;
      Lex(s) != [] && 0 < n <= |s| && Written(Lex(s)[0]) == s[..n] && Lex(s)[1..] == Lex(s[n..])
  {
    hide LiteralLength, CommentLength;
    if IsQuote(s[0]) {
      assert Lex(s)[1..] == Lex(s[LiteralLength(s)..]);
    } else if OpensComment(s) {
      assert Lex(s)[1..] == Lex(s[CommentLength(s)..]);
    } else {
      assert Lex(s)[1..] == Lex(s[1..]);
    }
  }

  /** Nothing is lost in the tokens. */
  lemma {:induction false} LexIsFaithful(s: string)
    ensures Unlex(Lex(s)) == s
    decreases |s|
  {
    if s != "" {
      LexHead(s);
      hide Lex, Written;
      var n := |Written(Lex(s)[0])|;
      LexIsFaithful(s[n..]);
      assert s[..n] + s[n..] == s;
    }
  }

  lemma StripHead(s: string)
    requires s != ""
    ensures Lex(s) != [] && |Written(Lex(s)[0])| <= |s|
    ensures var first := Lex(s)[0];
      Strip(s) == (if first.Comment? then "" else Written(first)) + Strip(s[|Written(first)|..])
  {
    hide LiteralLength, CommentLength;
  }

  /** Stripping writes out every token but the comments, so strings are copied byte for byte. */
  lemma {:induction false} StripDropsComments(s: string)
    ensures Strip(s) == Unlex(WithoutComments(Lex(s)))
    decreases |s|
  {
    if s != "" {
      LexHead(s);
      StripHead(s);
      hide Lex, Written, Strip;
      var first := Lex(s)[0];
      StripDropsComments(s[|Written(first)|..]);
      assert ([first] + WithoutComments(Lex(s)[1..]))[1..] == WithoutComments(Lex(s)[1..]);
      assert [] + WithoutComments(Lex(s)[1..]) == WithoutComments(Lex(s)[1..]);
      assert "" + Strip(s[|Written(first)|..]) == Strip(s[|Written(first)|..]);
    } else {
      assert Lex(s) == [];
    }
  }

  // ---- the tokens of stripped text ----

  // What follows a closed literal does not change how long it is.
  lemma {:induction false} ContentOfPrefix(s: string, quote: char, escaped: bool, rest: string)
    requires ContentLength(s, quote, escaped) == |s| && (Closed(s, quote, escaped) || rest == "")
    ensures ContentLength(s + rest, quote, escaped) == |s|
  {
    if s == "" {
      assert s + rest == "";
    } else {
      assert (s + rest)[1..] == s[1..] + rest;
      if escaped {
        ContentOfPrefix(s[1..], quote, false, rest);
      } else if s[0] == '\\' {
        ContentOfPrefix(s[1..], quote, true, rest);
      } else if s[0] != quote {
        ContentOfPrefix(s[1..], quote, false, rest);
      }
    }
  }

  // A literal's content is closed, or it is all that is left.
  lemma {:induction false} ContentIsClosed(s: string, quote: char, escaped: bool)
    ensures var n := ContentLength(s, quote, escaped);
      && ContentLength(s[..n], quote, escaped) == n
      && (Closed(s[..n], quote, escaped) || n == |s|)
  {
    var n := ContentLength(s, quote, escaped);
    if s != "" {
      assert s[..n][1..] == s[1..][..n - 1];
      if escaped {
        ContentIsClosed(s[1..], quote, false);
      } else if s[0] == '\\' {
        ContentIsClosed(s[1..], quote, true);
      } else if s[0] != quote {
        ContentIsClosed(s[1..], quote, false);
      }
    }
  }

  // A whole literal: its content ends with it.
  predicate WholeLiteral(text: string, rest: string) {
    && text != "" && IsQuote(text[0])
    && ContentLength(text[1..], text[0], false) == |text| - 1
    && (Closed(text[1..], text[0], false) || rest == "")
  }

  lemma LexLiteral(text: string, rest: string)
    requires WholeLiteral(text, rest)
    ensures Lex(text + rest) == [Literal(text)] + Lex(rest)
  {
    assert (text + rest)[1..] == text[1..] + rest;
    ContentOfPrefix(text[1..], text[0], false, rest);
    hide ContentLength;
    assert (text + rest)[..|text|] == text && (text + rest)[|text|..] == rest;
  }

  lemma LiteralIsWhole(s: string)
    requires s != "" && IsQuote(s[0])
    ensures WholeLiteral(s[..LiteralLength(s)], s[LiteralLength(s)..])
  {
    ContentIsClosed(s[1..], s[0], false);
    assert s[..LiteralLength(s)][1..] == s[1..][..LiteralLength(s) - 1];
    hide ContentLength;
  }

  lemma LexPlain(c: char, rest: string)
    requires !IsQuote(c) && (c == '/' && rest != "" ==> rest[0] != '/' && rest[0] != '*')
    ensures Lex([c] + rest) == [Plain(c)] + Lex(rest)
  {
    assert ([c] + rest)[1..] == rest;
  }

  // Stripping keeps the byte a text starts with, unless it starts with a comment.
  lemma StripKeepsFirst(s: string)
    requires s == "" || s[0] != '/'
    ensures s == "" ==> Strip(s) == ""
    ensures s != "" ==> Strip(s) != "" && Strip(s)[0] == s[0]
  {
    hide LiteralLength;
  }

  /** The stripped text has the tokens of the original without the comments: no comment opener is left
      outside strings, not even one made by joining what a comment separated. */
  lemma {:induction false} LexOfStrip(s: string)
    ensures Lex(Strip(s)) == WithoutComments(Lex(s)) && NoComments(Strip(s))
    decreases |s|
  {
    if s == "" {
      assert Lex(s) == [];
    } else {
      LexHead(s);
      StripHead(s);
      var first := Lex(s)[0];
      var rest := s[|Written(first)|..];
      LexOfStrip(rest);
      if first.Literal? {
        LiteralCase(s);
      } else if first.Plain? {
        PlainCase(s);
      }
      hide Lex, Strip, Written;
      assert WithoutComments(Lex(s)) == (if first.Comment? then [] else [first]) + WithoutComments(Lex(rest));
      assert "" + Strip(rest) == Strip(rest) && [] + WithoutComments(Lex(rest)) == WithoutComments(Lex(rest));
    }
  }

  lemma LiteralCase(s: string)
    requires s != "" && IsQuote(s[0])
    ensures Lex(Strip(s)) == [Literal(s[..LiteralLength(s)])] + Lex(Strip(s[LiteralLength(s)..]))
  {
    LiteralIsWhole(s);
    StripLiteral(s);
    if s[LiteralLength(s)..] == "" {
      assert Strip("") == "";
    }
    hide Strip, LiteralLength, Lex;
    ClosedStaysWhole(s[..LiteralLength(s)], s[LiteralLength(s)..]);
    LexLiteral(s[..LiteralLength(s)], Strip(s[LiteralLength(s)..]));
  }

  lemma ClosedStaysWhole(text: string, rest: string)
    requires WholeLiteral(text, rest) && (rest == "" ==> Strip(rest) == "")
    ensures WholeLiteral(text, Strip(rest))
  {
  }

  lemma PlainCase(s: string)
    requires s != "" && !IsQuote(s[0]) && !OpensComment(s)
    ensures Lex(Strip(s)) == [Plain(s[0])] + Lex(Strip(s[1..]))
  {
    if s[0] == '/' {
      StripKeepsFirst(s[1..]);
    }
    PlainStep(s);
    hide Strip;
    LexPlain(s[0], Strip(s[1..]));
  }

  lemma {:induction false} StripLeavesCleanText(s: string)
    requires NoComments(s)
    ensures Strip(s) == s
    decreases |s|
  {
    if s != "" {
      LexHead(s);
      StripHead(s);
      hide Lex, Strip, Written;
      var first := Lex(s)[0];
      var rest := s[|Written(first)|..];
      assert forall t | t in Lex(rest) :: t in Lex(s)[1..];
      StripLeavesCleanText(rest);
      assert first in Lex(s);
      assert s[..|Written(first)|] + rest == s;
    }
  }

  /** Stripping comments twice is stripping them once. */
  lemma StripIsIdempotent(s: string)
    ensures Strip(Strip(s)) == Strip(s)
  {
    LexOfStrip(s);
    StripLeavesCleanText(Strip(s));
  }
}
