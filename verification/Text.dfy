/** The string helpers of Go's strings package that the modelled code uses. */
module Text {

  datatype Option<+T> = None | Some(value: T)

  // The code points Go's unicode.IsSpace accepts.
  predicate IsSpace(c: char) {
    || '\t' <= c <= '\r' || c == ' ' || c == '\U{85}' || c == '\U{A0}' || c == '\U{1680}'
    || '\U{2000}' <= c <= '\U{200A}' || c == '\U{2028}' || c == '\U{2029}' || c == '\U{202F}'
    || c == '\U{205F}' || c == '\U{3000}'
  }

  function TrimLeftSpace(s: string): string {
    if s != "" && IsSpace(s[0]) then TrimLeftSpace(s[1..]) else s
  }

  function TrimRightSpace(s: string): string {
    if s != "" && IsSpace(s[|s| - 1]) then TrimRightSpace(s[..|s| - 1]) else s
  }

  // strings.TrimSpace
  function TrimSpace(s: string): string {
    TrimRightSpace(TrimLeftSpace(s))
  }

  // strings.TrimLeft and strings.TrimRight
  function TrimLeft(s: string, cutset: set<char>): string {
    if s != "" && s[0] in cutset then TrimLeft(s[1..], cutset) else s
  }

  function TrimRight(s: string, cutset: set<char>): string {
    if s != "" && s[|s| - 1] in cutset then TrimRight(s[..|s| - 1], cutset) else s
  }

  predicate Blank(s: string) {
    TrimSpace(s) == ""
  }

  predicate HasPrefix(s: string, prefix: string) {
    |prefix| <= |s| && s[..|prefix|] == prefix
  }

  predicate HasSuffix(s: string, suffix: string) {
    |suffix| <= |s| && s[|s| - |suffix|..] == suffix
  }

  // pat occurs in s at position i.
  predicate OccursAt(s: string, pat: string, i: int) {
    0 <= i <= |s| - |pat| && s[i..i + |pat|] == pat
  }

  // strings.Index: the first position at or after `from` where pat occurs, or -1.
  function IndexFrom(s: string, pat: string, from: nat): (r: int)
    requires from <= |s|
    ensures r == -1 || (from <= r <= |s| - |pat| && OccursAt(s, pat, r))
    ensures forall j | from <= j && (r == -1 || j < r) :: !OccursAt(s, pat, j)
    decreases |s| - from
  {
    if OccursAt(s, pat, from) then from
    else if from == |s| then -1
    else IndexFrom(s, pat, from + 1)
  }

  function Index(s: string, pat: string): (r: int)
    ensures r == -1 || OccursAt(s, pat, r)
    ensures forall j | 0 <= j && (r == -1 || j < r) :: !OccursAt(s, pat, j)
  {
    IndexFrom(s, pat, 0)
  }

  lemma {:induction false} TrimRightSpaceCuts(s: string) returns (trail: string)
    ensures s == TrimRightSpace(s) + trail && forall i | 0 <= i < |trail| :: IsSpace(trail[i])
    ensures TrimRightSpace(s) == "" || !IsSpace(TrimRightSpace(s)[|TrimRightSpace(s)| - 1])
  {
    if s != "" && IsSpace(s[|s| - 1]) {
      var rest := TrimRightSpaceCuts(s[..|s| - 1]);
      trail := rest + [s[|s| - 1]];
    } else {
      trail := "";
    }
  }

  lemma {:induction false} TrimLeftSpaceCuts(s: string) returns (lead: string)
    ensures s == lead + TrimLeftSpace(s) && forall i | 0 <= i < |lead| :: IsSpace(lead[i])
    ensures TrimLeftSpace(s) == "" || !IsSpace(TrimLeftSpace(s)[0])
  {
    if s != "" && IsSpace(s[0]) {
      var rest := TrimLeftSpaceCuts(s[1..]);
      lead := [s[0]] + rest;
    } else {
      lead := "";
    }
  }

  /** Trimming cuts exactly the white space at both ends. */
  lemma TrimSpaceCuts(s: string) returns (lead: string, trail: string)
    ensures var t := TrimSpace(s);
      && s == lead + t + trail && (forall i | 0 <= i < |lead| :: IsSpace(lead[i]))
      && (forall i | 0 <= i < |trail| :: IsSpace(trail[i]))
      && (t == "" || (!IsSpace(t[0]) && !IsSpace(t[|t| - 1])))
  {
    lead := TrimLeftSpaceCuts(s);
    trail := TrimRightSpaceCuts(TrimLeftSpace(s));
  }

  lemma TrimSpaceKeepsTight(s: string)
    requires s != [] ==> !IsSpace(s[0]) && !IsSpace(s[|s| - 1])
    ensures TrimSpace(s) == s
  {
  }

  lemma OccursChar(s: string, pat: string, at: int, k: int)
    requires OccursAt(s, pat, at) && 0 <= k < |s|
    ensures at <= k < at + |pat| ==> s[k] == pat[k - at]
  {
    if at <= k < at + |pat| {
      assert s[at..at + |pat|][k - at] == s[k];
    }
  }

  // A case mapping of single runes: unicode.ToLower, or the representative of a rune's simple-folding orbit.
  // The tables are not modelled; what is proved holds for every mapping.
  type CaseMap = char -> char

  function Mapped(s: string, f: CaseMap): string {
    if s == "" then "" else [f(s[0])] + Mapped(s[1..], f)
  }

  lemma {:induction false} MappedAt(s: string, f: CaseMap)
    ensures |Mapped(s, f)| == |s| && forall k | 0 <= k < |s| :: Mapped(s, f)[k] == f(s[k])
  {
    if s != "" {
      MappedAt(s[1..], f);
    }
  }

  // strings.EqualFold
  predicate EqualFold(a: string, b: string, fold: CaseMap) {
    Mapped(a, fold) == Mapped(b, fold)
  }

  // len(s): the bytes of the UTF-8 encoding.
  function ByteLength(s: string): nat {
    if s == "" then 0 else ByteLength(s[..|s| - 1]) + RuneBytes(s[|s| - 1])
  }

  function RuneBytes(c: char): nat {
    if c < '\U{80}' then 1 else if c < '\U{800}' then 2 else if c < '\U{10000}' then 3 else 4
  }
}
