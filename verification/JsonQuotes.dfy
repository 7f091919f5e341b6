/** Rewriting single-quoted strings into double-quoted ones. */
module JsonQuotes {
  import opened JsonLike

  // The content of a single-quoted string, with its closing quote if there is one, as the pass writes it.
  // A backslash is held back until the byte after it is known.
  function Rewritten(t: string, escaped: bool): string {
    if t == "" then ""
    else if escaped then (if t[0] == '\'' then "'" else "\\" + [t[0]]) + Rewritten(t[1..], false)
    else if t[0] == '\\' then Rewritten(t[1..], true)
    else if t[0] == '"' then "\\\"" + Rewritten(t[1..], false)
    else if t[0] == '\'' then "\"" + Rewritten(t[1..], false)
    else [t[0]] + Rewritten(t[1..], false)
  }

  function Requoted(literal: string): string
    requires literal != ""
  {
    if literal[0] == '\'' then "\"" + Rewritten(literal[1..], false) else literal
  }

  function Requote(s: string): string
    decreases |s|
  {
    if s == "" then ""
    else if IsQuote(s[0]) then Requoted(s[..LiteralLength(s)]) + Requote(s[LiteralLength(s)..])
    else [s[0]] + Requote(s[1..])
  }

  // What is still to be written when the scan stands at s.
  function RequoteRest(s: string, inSingle: bool, inDouble: bool, escaped: bool): string {
    if inDouble then
      var n := ContentLength(s, '"', escaped);
      s[..n] + Requote(s[n..])
    else if inSingle then
      var n := ContentLength(s, '\'', escaped);
      Rewritten(s[..n], escaped) + Requote(s[n..])
    else Requote(s)
  }

  lemma CutContent(s: string, rest: string, n: nat)
    requires s != "" && rest == s[1..] && n <= |rest|
    ensures s[..1 + n] == [s[0]] + rest[..n] && s[..1 + n][1..] == rest[..n] && s[1 + n..] == rest[n..]
  {
  }

  lemma InsideDouble(s: string, escaped: bool)
    requires s != ""
    ensures RequoteRest(s, false, true, escaped) ==
      [s[0]] + if !escaped && s[0] == '"' then RequoteRest(s[1..], false, false, false)
               else RequoteRest(s[1..], false, true, !escaped && s[0] == '\\')
  {
    hide Requote, ContentLength;
    var rest, closes := s[1..], !escaped && s[0] == '"';
    var n := if closes then 0 else ContentLength(rest, '"', !escaped && s[0] == '\\');
    ContentSteps(s, '"', escaped);
    CutContent(s, rest, n);
    Assoc([s[0]], rest[..n], Requote(rest[n..]));
    if closes {
      assert rest[..0] + Requote(rest[0..]) == Requote(rest) by {
        assert rest[0..] == rest;
      }
    }
  }

  // The bytes written for one byte inside a single-quoted string.
  function SingleByte(ch: char, escaped: bool): string {
    if escaped then (if ch == '\'' then "'" else "\\" + [ch])
    else if ch == '\\' then "" else if ch == '"' then "\\\"" else if ch == '\'' then "\"" else [ch]
  }

  lemma InsideSingle(s: string, escaped: bool)
    requires s != ""
    ensures RequoteRest(s, true, false, escaped) ==
      SingleByte(s[0], escaped) +
      if !escaped && s[0] == '\'' then RequoteRest(s[1..], false, false, false)
      else RequoteRest(s[1..], true, false, !escaped && s[0] == '\\')
  {
    hide Requote, ContentLength, Rewritten;
    var rest, closes := s[1..], !escaped && s[0] == '\'';
    var n := if closes then 0 else ContentLength(rest, '\'', !escaped && s[0] == '\\');
    ContentSteps(s, '\'', escaped);
    CutContent(s, rest, n);
    RewriteStep(s[..1 + n], escaped);
    Assoc(SingleByte(s[0], escaped), Rewritten(rest[..n], !escaped && s[0] == '\\'), Requote(rest[n..]));
    if closes {
      NothingRewritten(rest[..0]);
      assert rest[0..] == rest && "" + Requote(rest) == Requote(rest);
    }
  }

  lemma RewriteStep(t: string, escaped: bool)
    requires t != ""
    ensures Rewritten(t, escaped) == SingleByte(t[0], escaped) + Rewritten(t[1..], !escaped && t[0] == '\\')
  {
    assert "" + Rewritten(t[1..], true) == Rewritten(t[1..], true);
  }

  lemma NothingRewritten(t: string)
    requires t == ""
    ensures Rewritten(t, false) == ""
  {
  }

  lemma IntoLiteral(s: string)
    requires s != "" && IsQuote(s[0])
    ensures Requote(s) == "\"" + RequoteRest(s[1..], s[0] == '\'', s[0] == '"', false)
  {
    hide *;
    var rest, n := s[1..], ContentLength(s[1..], s[0], false);
    RequoteLiteral(s);
    CutContent(s, rest, n);
    QuoteBecomes(s[0], rest[..n]);
    AfterOpening(rest, s[0]);
    Assoc("\"", if s[0] == '\'' then Rewritten(rest[..n], false) else rest[..n], Requote(rest[n..]));
  }

  lemma QuoteBecomes(quote: char, content: string)
    requires IsQuote(quote)
    ensures Requoted([quote] + content) == "\"" + if quote == '\'' then Rewritten(content, false) else content
  {
    assert ([quote] + content)[1..] == content;
  }

  lemma AfterOpening(rest: string, quote: char)
    requires IsQuote(quote)
    ensures var n := ContentLength(rest, quote, false);
      RequoteRest(rest, quote == '\'', quote == '"', false) ==
      (if quote == '\'' then Rewritten(rest[..n], false) else rest[..n]) + Requote(rest[n..])
  {
    hide Requote, ContentLength, Rewritten;
  }

  lemma RequoteLiteral(s: string)
    requires s != "" && IsQuote(s[0])
    ensures var n := 1 + ContentLength(s[1..], s[0], false);
      Requote(s) == Requoted(s[..n]) + Requote(s[n..])
  {
    hide ContentLength, Requoted;
  }

  lemma PlainByte(s: string)
    requires s != "" && !IsQuote(s[0])
    ensures Requote(s) == [s[0]] + Requote(s[1..])
  {
  }

  lemma EndOfInput(s: string, inSingle: bool, inDouble: bool, escaped: bool)
    requires s == ""
    ensures RequoteRest(s, inSingle, inDouble, escaped) == ""
  {
  }

  lemma BetweenLiterals(s: string)
    ensures RequoteRest(s, false, false, false) == Requote(s)
  {
  }

  method ReplaceSingleQuotedStrings(input: string) returns (output: string)
    ensures output == Requote(input)
  {
    hide Requote, RequoteRest, ContentLength, LiteralLength;
    output := "";
    var inSingle, inDouble, escaped := false, false, false;
    var i := 0;
    BetweenLiterals(input);
    assert input[0..] == input;
    while i < |input|
      invariant 0 <= i <= |input| && !(inSingle && inDouble) && (!inSingle && !inDouble ==> !escaped)
      invariant output + RequoteRest(input[i..], inSingle, inDouble, escaped) == Requote(input)
      decreases |input| - i
    {
      ghost var rest, before, wasEscaped := input[i..], output, escaped;
      var ch := input[i];
      i := i + 1;
      assert rest[1..] == input[i..];
      if inDouble {
        InsideDouble(rest, escaped);
        output := output + [ch];
        if escaped {
          escaped := false;
        } else if ch == '\\' {
          escaped := true;
        } else if ch == '"' {
          inDouble := false;
        }
        Assoc(before, [ch], RequoteRest(input[i..], inSingle, inDouble, escaped));
        continue;
      }
      if !inSingle {
        BetweenLiterals(rest);
        if ch == '"' {
          IntoLiteral(rest);
          inDouble := true;
          output := output + [ch];
        } else if ch == '\'' {
          IntoLiteral(rest);
          inSingle := true;
          output := output + "\"";
        } else {
          PlainByte(rest);
          BetweenLiterals(rest[1..]);
          output := output + [ch];
        }
        Assoc(before, output[|before|..], RequoteRest(input[i..], inSingle, inDouble, escaped));
        continue;
      }
      InsideSingle(rest, escaped);
      if escaped {
        if ch == '\'' {
          output := output + "'";
        } else {
          output := output + "\\";
          output := output + [ch];
        }
        escaped := false;
      } else if ch == '\\' {
        escaped := true;
      } else if ch == '"' {
        output := output + "\\\"";
      } else if ch == '\'' {
        inSingle := false;
        output := output + "\"";
      } else {
        output := output + [ch];
      }
      assert output == before + SingleByte(ch, wasEscaped);
      Assoc(before, SingleByte(ch, wasEscaped), RequoteRest(input[i..], inSingle, inDouble, escaped));
    }
    EndOfInput(input[i..], inSingle, inDouble, escaped);
  }
}
