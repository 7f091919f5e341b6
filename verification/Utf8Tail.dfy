/** The longest valid UTF-8 suffix of a byte tail. */
module Utf8Tail {
  import opened Text
  import opened SeqTools
  import opened ByteRing

  predicate Cont(b: Byte) {
    0x80 <= b <= 0xBF
  }

  // The allowed second bytes after each lead byte (section 4 of RFC 3629).
  predicate SecondOk(lead: Byte, b: Byte) {
    if lead == 0xE0 then 0xA0 <= b <= 0xBF
    else if lead == 0xED then 0x80 <= b <= 0x9F
    else if lead == 0xF0 then 0x90 <= b <= 0xBF
    else if lead == 0xF4 then 0x80 <= b <= 0x8F
    else Cont(b)
  }

  function LeadLength(b: Byte): nat {
    if b <= 0x7F then 1
    else if 0xC2 <= b <= 0xDF then 2
    else if 0xE0 <= b <= 0xEF then 3
    else if 0xF0 <= b <= 0xF4 then 4
    else 0
  }

  // The length of the encoded character p starts with, 0 when it starts with none.
  function RuneLength(p: seq<Byte>): (n: nat)
    ensures n <= |p| && n <= 4
  {
    if p == [] then 0
    else
      var n := LeadLength(p[0]);
      if n <= |p| && (n >= 2 ==> SecondOk(p[0], p[1])) && (n >= 3 ==> Cont(p[2])) && (n >= 4 ==> Cont(p[3])) then n
      else 0
  }

  // utf8.Valid
  predicate Valid(p: seq<Byte>)
    decreases |p|
  {
    p == [] || (RuneLength(p) > 0 && Valid(p[RuneLength(p)..]))
  }

  // The size utf8.DecodeRune reports: one byte for anything malformed.
  function DecodeSize(p: seq<Byte>): nat {
    if p == [] then 0 else if RuneLength(p) > 0 then RuneLength(p) else 1
  }

  // ---- the trimmer ----

  ghost predicate NoValidBefore(p: seq<Byte>, k: nat)
    requires k <= |p|
  {
    forall i | 0 <= i < k :: !Valid(p[i..])
  }

  // No valid text starts inside an encoded character.
  lemma InsideIsInvalid(p: seq<Byte>, j: nat)
    requires 0 < j < RuneLength(p)
    ensures !Valid(p[j..])
  {
    assert p[j..][0] == p[j];
    assert Cont(p[j]);
  }

  // The specification: the least number of bytes after which the rest is valid.
  function Start(p: seq<Byte>): (k: nat)
    ensures k <= |p|
  {
    if Valid(p) then 0 else 1 + Start(p[1..])
  }

  function Tail(p: seq<Byte>): seq<Byte> {
    p[Start(p)..]
  }

  /** The tail is valid, and no valid suffix is longer. */
  lemma {:induction false} TailIsLongest(p: seq<Byte>, k: nat)
    requires k <= |p| && Valid(p[k..])
    ensures Valid(Tail(p)) && Start(p) <= k
    ensures NoValidBefore(p, k) ==> Start(p) == k
  {
    if Valid(p) {
      assert p[0..] == p;
      ValidFromStart(p, k);
    } else {
      assert k > 0 by {
        assert p[0..] == p;
      }
      assert p[1..][k - 1..] == p[k..];
      TailIsLongest(p[1..], k - 1);
      assert Tail(p) == Tail(p[1..]);
      if NoValidBefore(p, k) {
        assert forall i | 0 <= i < k - 1 :: p[1..][i..] == p[i + 1..];
      }
    }
  }

  lemma ValidFromStart(p: seq<Byte>, k: nat)
    requires Valid(p) && k <= |p|
    ensures NoValidBefore(p, k) ==> k == 0
  {
    assert p == p[0..];
    assert Valid(p[0..]);
  }

  method ValidUTF8Tail(p: seq<Byte>) returns (tail: seq<Byte>)
    ensures exists k :: 0 <= k <= |p| && tail == p[k..] && NoValidBefore(p, k)
    ensures tail == Tail(p) && Valid(tail)
  {
    if |p| == 0 || Valid(p) {
      assert p == p[0..];
      return p;
    }
    var rest := p;
    ghost var k := 0;
    while |rest| > 0 && !Valid(rest)
      invariant 0 <= k <= |p| && rest == p[k..] && NoValidBefore(p, k)
      decreases |rest|
    {
      var size := DecodeSize(rest);
      if size <= 0 || size > |rest| {
        assert false;
        return [];
      }
      forall i | k <= i < k + size ensures !Valid(p[i..]) {
        assert p[i..] == rest[i - k..];
        if i > k {
          InsideIsInvalid(rest, i - k);
        }
      }
      rest, k := rest[size..], k + size;
    }
    TailIsLongest(p, k);
    tail := rest;
  }

  /** From any valid text, cutting off a prefix loses at most three bytes more. */
  lemma {:induction false} DropsAtMostThree(lost: seq<Byte>, p: seq<Byte>)
    requires Valid(lost + p)
    ensures |p| - |Tail(p)| <= 3
    decreases |lost|
  {
    if lost == [] {
      assert lost + p == p;
    } else {
      var n := RuneLength(lost + p);
      if n <= |lost| {
        assert (lost + p)[n..] == lost[n..] + p;
        DropsAtMostThree(lost[n..], p);
      } else {
        assert (lost + p)[n..] == p[n - |lost|..];
        TailIsLongest(p, n - |lost|);
      }
    }
  }

  // One encoded character goes from position k to the end.
  predicate WholeFrom(p: seq<Byte>, k: int) {
    0 <= k < |p| && RuneLength(p[k..]) == |p| - k
  }

  // The text ends in a whole encoded character, which its last four bytes tell.
  predicate EndsWhole(p: seq<Byte>) {
    exists k | |p| - 4 <= k < |p| :: WholeFrom(p, k)
  }

  // The last character of a valid text is a suffix of it.
  lemma {:induction false} LastRune(p: seq<Byte>) returns (k: nat)
    requires Valid(p) && p != []
    ensures WholeFrom(p, k)
    decreases |p|
  {
    var n := RuneLength(p);
    if n == |p| {
      assert p[0..] == p;
      k := 0;
    } else {
      var rest := LastRune(p[n..]);
      DropTwice(p, n, rest);
      k := n + rest;
    }
  }

  /** The trimmer keeps something exactly when its input ends in a whole character: one cut character at the
      very end takes all the text before it along. */
  lemma KeepsTextIff(p: seq<Byte>)
    ensures Tail(p) != [] <==> EndsWhole(p)
  {
    assert p[|p|..] == [];
    TailIsLongest(p, |p|);
    if Tail(p) != [] {
      var k := LastRune(Tail(p));
      DropTwice(p, Start(p), k);
      assert WholeFrom(p, Start(p) + k);
    }
    forall k | WholeFrom(p, k) ensures Start(p) < |p| {
      WholeIsValid(p[k..]);
      TailIsLongest(p, k);
    }
  }

  lemma WholeIsValid(p: seq<Byte>)
    requires p != [] && RuneLength(p) == |p|
    ensures Valid(p)
  {
    assert p[|p|..] == [];
  }

  lemma AfterLead(p: seq<Byte>, i: nat)
    requires 0 < i < RuneLength(p)
    ensures Cont(p[i])
  {
  }

  /** What follows the last byte that is not a continuation byte decides: a tail that ends in a lead byte and
      some continuation bytes is kept exactly when these are one whole character, and comes out empty when that
      character is cut, whatever stands before it. */
  lemma LastLeadDecides(p: seq<Byte>, lead: Byte, conts: seq<Byte>)
    requires !Cont(lead) && forall i | 0 <= i < |conts| :: Cont(conts[i])
    ensures Tail(p + [lead] + conts) != [] <==> RuneLength([lead] + conts) == 1 + |conts|
  {
    var text := p + [lead] + conts;
    KeepsTextIff(text);
    assert text[|p|..] == [lead] + conts;
    assert WholeFrom(text, |p|) <==> RuneLength([lead] + conts) == 1 + |conts|;
    hide RuneLength, Tail;
    forall k | WholeFrom(text, k) ensures k == |p| {
      OnlyAtLead(text, |p|, k);
    }
  }

  // A whole character at the end starts at the last byte that is not a continuation byte.
  lemma OnlyAtLead(text: seq<Byte>, at: nat, k: nat)
    requires at < |text| && !Cont(text[at]) && forall i | at < i < |text| :: Cont(text[i])
    requires WholeFrom(text, k)
    ensures k == at
  {
    var rune := text[k..];
    assert rune[0] == text[k];
    if k < at {
      assert rune[at - k] == text[at];
      AfterLead(rune, at - k);
    }
  }

  // ---- valid means: the encoding of Unicode scalar values ----

  predicate Scalar(c: nat) {
    c <= 0x10FFFF && !(0xD800 <= c <= 0xDFFF)
  }

  // Section 3 of RFC 3629.
  function EncodeRune(c: nat): seq<Byte>
    requires Scalar(c)
  {
    if c < 0x80 then [c]
    else if c < 0x800 then [0xC0 + c / 64, 0x80 + c % 64]
    else if c < 0x10000 then [0xE0 + c / 64 / 64, 0x80 + c / 64 % 64, 0x80 + c % 64]
    else [0xF0 + c / 64 / 64 / 64, 0x80 + c / 64 / 64 % 64, 0x80 + c / 64 % 64, 0x80 + c % 64]
  }

  predicate AllScalar(text: seq<nat>) {
    forall c | c in text :: Scalar(c)
  }

  function Encode(text: seq<nat>): seq<Byte>
    requires AllScalar(text)
  {
    if text == [] then [] else EncodeRune(text[0]) + Encode(text[1..])
  }

  // The payload bits of a byte whose marker bits add up to `marker`.
  function Bits(b: Byte, marker: Byte): int {
    b as int - marker as int
  }

  function RuneValue(p: seq<Byte>): nat
    requires RuneLength(p) > 0
  {
    match RuneLength(p)
    case 1 => p[0]
    case 2 => Bits(p[0], 0xC0) * 64 + Bits(p[1], 0x80)
    case 3 => (Bits(p[0], 0xE0) * 64 + Bits(p[1], 0x80)) * 64 + Bits(p[2], 0x80)
    case _ => ((Bits(p[0], 0xF0) * 64 + Bits(p[1], 0x80)) * 64 + Bits(p[2], 0x80)) * 64 + Bits(p[3], 0x80)
  }

  lemma EncodedLength(c: nat, p: seq<Byte>)
    requires Scalar(c) && EncodeRune(c) <= p
    ensures RuneLength(p) == |EncodeRune(c)| > 0
  {
  }

  lemma EncodedValue(c: nat, p: seq<Byte>)
    requires Scalar(c) && EncodeRune(c) <= p && RuneLength(p) == |EncodeRune(c)| > 0
    ensures RuneValue(p) == c
  {
    hide RuneLength;
    var e := EncodeRune(c);
    assert forall i | 0 <= i < |e| :: p[i] == e[i];
  }

  lemma EncodedRuneReads(c: nat, rest: seq<Byte>)
    requires Scalar(c)
    ensures RuneLength(EncodeRune(c) + rest) == |EncodeRune(c)| > 0
    ensures RuneValue(EncodeRune(c) + rest) == c
    ensures (EncodeRune(c) + rest)[|EncodeRune(c)|..] == rest
  {
    EncodedLength(c, EncodeRune(c) + rest);
    EncodedValue(c, EncodeRune(c) + rest);
  }

  lemma ReadRuneEncodes(p: seq<Byte>)
    requires RuneLength(p) > 0
    ensures Scalar(RuneValue(p)) && EncodeRune(RuneValue(p)) == p[..RuneLength(p)]
  {
    if RuneLength(p) == 2 {
      Digits(Bits(p[0], 0xC0), Bits(p[1], 0x80));
    } else if RuneLength(p) == 3 {
      ReadThreeEncodes(p);
    } else if RuneLength(p) == 4 {
      ReadFourEncodes(p);
    }
  }

  lemma ReadThreeEncodes(p: seq<Byte>)
    requires RuneLength(p) == 3
    ensures Scalar(RuneValue(p)) && EncodeRune(RuneValue(p)) == p[..3]
  {
    Digits(Bits(p[0], 0xE0), Bits(p[1], 0x80));
    Digits(Bits(p[0], 0xE0) * 64 + Bits(p[1], 0x80), Bits(p[2], 0x80));
  }

  lemma ReadFourEncodes(p: seq<Byte>)
    requires RuneLength(p) == 4
    ensures Scalar(RuneValue(p)) && EncodeRune(RuneValue(p)) == p[..4]
  {
    var high, middle := Bits(p[0], 0xF0), Bits(p[0], 0xF0) * 64 + Bits(p[1], 0x80);
    Digits(high, Bits(p[1], 0x80));
    Digits(middle, Bits(p[2], 0x80));
    Digits(middle * 64 + Bits(p[2], 0x80), Bits(p[3], 0x80));
  }

  lemma Digits(high: int, low: int)
    requires 0 <= low < 64
    ensures (high * 64 + low) / 64 == high && (high * 64 + low) % 64 == low
  {
  }

  lemma {:induction false} EncodingIsValid(text: seq<nat>)
    requires AllScalar(text)
    ensures Valid(Encode(text))
  {
    if text != [] {
      EncodingIsValid(text[1..]);
      EncodedRuneReads(text[0], Encode(text[1..]));
    }
  }

  lemma {:induction false} ValidIsEncoding(p: seq<Byte>) returns (text: seq<nat>)
    requires Valid(p)
    ensures AllScalar(text) && Encode(text) == p
    decreases |p|
  {
    hide RuneLength, RuneValue, EncodeRune;
    if p == [] {
      text := [];
    } else {
      var n := RuneLength(p);
      var rest := ValidIsEncoding(p[n..]);
      ReadRuneEncodes(p);
      text := [RuneValue(p)] + rest;
      assert text[1..] == rest;
      assert p == p[..n] + p[n..];
    }
  }

  /** The table-driven check accepts exactly the encodings of sequences of Unicode scalar values. */
  lemma ValidIffEncoding(p: seq<Byte>)
    ensures Valid(p) <==> exists text :: AllScalar(text) && Encode(text) == p
  {
    if Valid(p) {
      var text := ValidIsEncoding(p);
    }
    forall text | AllScalar(text) && Encode(text) == p ensures Valid(p) {
      EncodingIsValid(text);
    }
  }

  lemma RuneBytesEncoded(c: char)
    ensures Scalar(c as nat) && |EncodeRune(c as nat)| == RuneBytes(c)
  {
  }

  lemma {:induction false} EncodeJoin(a: seq<nat>, b: seq<nat>)
    requires AllScalar(a) && AllScalar(b)
    ensures AllScalar(a + b) && Encode(a + b) == Encode(a) + Encode(b)
  {
    if a == [] {
      assert a + b == b;
    } else {
      assert (a + b)[1..] == a[1..] + b;
      EncodeJoin(a[1..], b);
    }
  }

  function CodePoints(s: string): seq<nat> {
    seq(|s|, i requires 0 <= i < |s| => s[i] as nat)
  }

  /** The byte length of a text is the length of its encoding. */
  lemma {:induction false} ByteLengthIs(s: string)
    ensures AllScalar(CodePoints(s)) && ByteLength(s) == |Encode(CodePoints(s))|
  {
    if s != "" {
      var front, c := s[..|s| - 1], s[|s| - 1];
      ByteLengthIs(front);
      RuneBytesEncoded(c);
      assert CodePoints(s) == CodePoints(front) + [c as nat];
      EncodeJoin(CodePoints(front), [c as nat]);
      assert Encode([c as nat]) == EncodeRune(c as nat) + Encode([]);
    }
  }
}
