/** What the two passes guarantee, one by one and together. */
module JsonNormal {
  import opened JsonLike
  import opened JsonLexing
  import opened JsonQuotes

  // The tokens of a text whose comments do not matter.
  function Quotes(s: string): seq<Token>
    decreases |s|
  {
    if s == "" then []
    else if IsQuote(s[0]) then [Literal(s[..LiteralLength(s)])] + Quotes(s[LiteralLength(s)..])
    else [Plain(s[0])] + Quotes(s[1..])
  }

  function RequotedToken(t: Token): Token {
    if t.Literal? && t.text != "" then Literal(Requoted(t.text)) else t
  }

  function RequotedTokens(tokens: seq<Token>): (r: seq<Token>)
    ensures |r| == |tokens|
  {
    if tokens == [] then [] else [RequotedToken(tokens[0])] + RequotedTokens(tokens[1..])
  }

  // ---- string extents ----

  // A rewritten string ends where the single-quoted one ended, at its closing quote or with the input.
  lemma {:induction false} RewrittenIsWhole(t: string, escaped: bool)
    requires ContentLength(t, '\'', escaped) == |t|
    ensures var w := Rewritten(t, escaped);
      ContentLength(w, '"', false) == |w| && (Closed(t, '\'', escaped) ==> Closed(w, '"', false))
  {
    if t != "" {
      ContentSteps(t, '\'', escaped);
      RewriteStep(t, escaped);
      var tail := Rewritten(t[1..], !escaped && t[0] == '\\');
      if escaped || t[0] != '\'' {
        RewrittenIsWhole(t[1..], !escaped && t[0] == '\\');
        hide Rewritten;
        WrittenByteCounts(t[0], escaped, tail);
      } else {
        NothingRewritten(t[1..]);
      }
    }
  }

  lemma WrittenByteCounts(ch: char, escaped: bool, tail: string)
    requires escaped || ch != '\''
    requires ContentLength(tail, '"', false) == |tail|
    ensures var w := SingleByte(ch, escaped) + tail;
      ContentLength(w, '"', false) == |w| && Closed(w, '"', false) == Closed(tail, '"', false)
  {
    var out := SingleByte(ch, escaped);
    if |out| == 2 {
      assert (out + tail)[1..] == [out[1]] + tail && ([out[1]] + tail)[1..] == tail;
    } else if |out| == 1 {
      assert (out + tail)[1..] == tail;
    } else {
      assert out + tail == tail;
    }
  }

  lemma RequotedIsWhole(text: string, rest: string)
    requires WholeLiteral(text, rest)
    ensures WholeLiteral(Requoted(text), Requote(rest)) && Requoted(text)[0] == '"'
  {
    if text[0] == '\'' {
      RewrittenIsWhole(text[1..], false);
    }
  }

  lemma QuotesOfLiteral(text: string, rest: string)
    requires WholeLiteral(text, rest)
    ensures Quotes(text + rest) == [Literal(text)] + Quotes(rest)
  {
    assert (text + rest)[1..] == text[1..] + rest;
    ContentOfPrefix(text[1..], text[0], false, rest);
    hide ContentLength;
    assert (text + rest)[..|text|] == text && (text + rest)[|text|..] == rest;
  }

  predicate DoubleOnly(tokens: seq<Token>) {
    forall t | t in tokens :: (t.Plain? ==> t.c != '\'') && (t.Literal? ==> t.text != "" && t.text[0] == '"')
  }

  lemma DoubleOnlyJoins(t: Token, tokens: seq<Token>)
    requires DoubleOnly([t]) && DoubleOnly(tokens)
    ensures DoubleOnly([t] + tokens)
  {
    assert t in [t];
  }

  /** Rewriting keeps the extent of every string: the tokens of the result are those of the input, each
      literal rewritten on its own, and no single quote is left outside double-quoted strings. */
  lemma {:induction false} RequoteKeepsTokens(s: string)
    ensures Quotes(Requote(s)) == RequotedTokens(Quotes(s)) && DoubleOnly(Quotes(Requote(s)))
    decreases |s|
  {
    if s == "" {
      assert Quotes(s) == [];
    } else if IsQuote(s[0]) {
      var text, rest := s[..LiteralLength(s)], s[LiteralLength(s)..];
      RequoteKeepsTokens(rest);
      LiteralIsWhole(s);
      RequotedIsWhole(text, rest);
      QuotesOfLiteral(Requoted(text), Requote(rest));
      assert Requote(s) == Requoted(text) + Requote(rest) && Quotes(s) == [Literal(text)] + Quotes(rest);
      hide Requote, Quotes, Requoted;
      TokensOfHead(Literal(text), Quotes(rest));
      DoubleOnlyJoins(Literal(Requoted(text)), Quotes(Requote(rest)));
    } else {
      RequoteKeepsTokens(s[1..]);
      PlainByte(s);
      QuotesOfPlain(s[0], Requote(s[1..]));
      assert Quotes(s) == [Plain(s[0])] + Quotes(s[1..]);
      hide Requote, Quotes;
      TokensOfHead(Plain(s[0]), Quotes(s[1..]));
      DoubleOnlyJoins(Plain(s[0]), Quotes(Requote(s[1..])));
    }
  }

  lemma TokensOfHead(t: Token, tokens: seq<Token>)
    ensures RequotedTokens([t] + tokens) == [RequotedToken(t)] + RequotedTokens(tokens)
  {
    assert ([t] + tokens)[1..] == tokens;
  }

  lemma QuotesOfPlain(c: char, rest: string)
    requires !IsQuote(c)
    ensures Quotes([c] + rest) == [Plain(c)] + Quotes(rest)
  {
    assert ([c] + rest)[1..] == rest;
  }

  lemma {:induction false} RequoteLeavesDouble(s: string)
    requires DoubleOnly(Quotes(s))
    ensures Requote(s) == s
    decreases |s|
  {
    if s != "" {
      var n := if IsQuote(s[0]) then LiteralLength(s) else 1;
      var rest := s[n..];
      var first := if IsQuote(s[0]) then Literal(s[..n]) else Plain(s[0]);
      assert Quotes(s) == [first] + Quotes(rest);
      assert first in Quotes(s) && forall t | t in Quotes(rest) :: t in Quotes(s);
      RequoteLeavesDouble(rest);
      assert s[..n] + rest == s;
    }
  }

  /** Rewriting twice is rewriting once. */
  lemma RequoteIsIdempotent(s: string)
    ensures Requote(Requote(s)) == Requote(s)
  {
    RequoteKeepsTokens(s);
    RequoteLeavesDouble(Requote(s));
  }

  // ---- what a string says ----

  // An escaped quote says the same as the bare quote; a backslash with nothing after it says nothing.
  datatype Unit = Char(c: char) | Escape(c: char)

  function Units(t: string, quote: char, escaped: bool): seq<Unit> {
    if t == "" then []
    else if escaped then [if IsQuote(t[0]) then Char(t[0]) else Escape(t[0])] + Units(t[1..], quote, false)
    else if t[0] == '\\' then Units(t[1..], quote, true)
    else if t[0] == quote then []
    else [Char(t[0])] + Units(t[1..], quote, false)
  }

  lemma {:induction false} RewrittenSaysTheSame(t: string, escaped: bool)
    ensures Units(Rewritten(t, escaped), '"', false) == Units(t, '\'', escaped)
  {
    if t != "" {
      RewriteStep(t, escaped);
      var tail := Rewritten(t[1..], !escaped && t[0] == '\\');
      RewrittenSaysTheSame(t[1..], !escaped && t[0] == '\\');
      hide Rewritten;
      UnitsOfByte(t[0], escaped, tail);
    }
  }

  lemma UnitsOfByte(ch: char, escaped: bool, tail: string)
    ensures Units(SingleByte(ch, escaped) + tail, '"', false) ==
      if escaped then [if IsQuote(ch) then Char(ch) else Escape(ch)] + Units(tail, '"', false)
      else if ch == '\\' then Units(tail, '"', false)
      else if ch == '\'' then [] else [Char(ch)] + Units(tail, '"', false)
  {
    var out := SingleByte(ch, escaped);
    if |out| == 2 {
      assert (out + tail)[1..] == [out[1]] + tail && ([out[1]] + tail)[1..] == tail;
    } else if |out| == 1 {
      assert (out + tail)[1..] == tail;
    } else {
      assert out + tail == tail;
    }
  }

  /** A rewritten string says what the single-quoted one said. */
  lemma RequotedSaysTheSame(literal: string)
    requires literal != "" && IsQuote(literal[0])
    ensures Units(Requoted(literal)[1..], Requoted(literal)[0], false) == Units(literal[1..], literal[0], false)
  {
    if literal[0] == '\'' {
      RewrittenSaysTheSame(literal[1..], false);
      assert Requoted(literal)[1..] == Rewritten(literal[1..], false);
    }
  }

  // ---- the passes together ----

  lemma RequoteKeepsFirst(s: string)
    requires s != "" && s[0] != '\''
    ensures Requote(s) != "" && Requote(s)[0] == s[0]
  {
  }

  lemma RequoteOfEmpty(s: string)
    ensures s == "" ==> Requote(s) == ""
    ensures s != "" && s[0] == '\'' ==> Requote(s) != "" && Requote(s)[0] == '"'
  {
  }

  lemma LexOfRequotedPlain(s: string)
    requires s != "" && !IsQuote(s[0]) && !OpensComment(s)
    ensures Lex(Requote(s)) == [Plain(s[0])] + Lex(Requote(s[1..]))
  {
    PlainByte(s);
    var rest := s[1..];
    RequoteOfEmpty(rest);
    if rest != "" && rest[0] != '\'' {
      RequoteKeepsFirst(rest);
    }
    hide Requote, Lex;
    LexPlain(s[0], Requote(rest));
  }

  lemma {:induction false} RequoteAddsNoComment(s: string)
    requires NoComments(s)
    ensures NoComments(Requote(s)) && Lex(Requote(s)) == RequotedTokens(Lex(s))
    decreases |s|
  {
    if s == "" {
      assert Lex(s) == [];
    } else {
      var first := Lex(s)[0];
      LexHead(s);
      var rest := s[|Written(first)|..];
      assert first in Lex(s) && forall t | t in Lex(rest) :: t in Lex(s)[1..];
      RequoteAddsNoComment(rest);
      if IsQuote(s[0]) {
        LiteralIsWhole(s);
        RequotedIsWhole(s[..LiteralLength(s)], rest);
        LexLiteral(Requoted(s[..LiteralLength(s)]), Requote(rest));
      } else {
        LexOfRequotedPlain(s);
      }
      hide Requote, Lex, Requoted, LiteralLength;
      TokensOfHead(first, Lex(rest));
      assert [first] + Lex(rest) == Lex(s);
    }
  }

  // The string-aware part of normalizeJSONLikeConfig.
  function Normal(s: string): string {
    Requote(Strip(s))
  }

  /** The passes together are a fixed point: the second run changes nothing, neither as a whole nor in
      either pass, because rewriting strings reintroduces no comment. */
  lemma NormalIsFixed(s: string)
    ensures Strip(Normal(s)) == Normal(s) && Requote(Normal(s)) == Normal(s) && Normal(Normal(s)) == Normal(s)
  {
    LexOfStrip(s);
    RequoteAddsNoComment(Strip(s));
    StripLeavesCleanText(Normal(s));
    RequoteIsIdempotent(Strip(s));
  }

  /** The normal form has the tokens of the original without its comments, its single-quoted strings rewritten. */
  lemma NormalTokens(s: string)
    ensures Lex(Normal(s)) == RequotedTokens(WithoutComments(Lex(s)))
  {
    LexOfStrip(s);
    RequoteAddsNoComment(Strip(s));
  }
}
