/** Event cursors "<base exchange>:<event number>" and the pure functions that write and read them. */
module EventCursor {
  import opened Text

  const MAX_INT: int := 0x7FFF_FFFF_FFFF_FFFF
  const MAX_UINT: int := 0xFFFF_FFFF_FFFF_FFFF

  datatype Cursor = Cursor(base: int, seqNo: nat)

  predicate IsDigit(c: char) {
    '0' <= c <= '9'
  }

  predicate AllDigits(s: string) {
    forall i | 0 <= i < |s| :: IsDigit(s[i])
  }

  function DigitChar(d: nat): (c: char)
    requires d < 10
    ensures IsDigit(c) && c as int - '0' as int == d
  {
    (d + '0' as int) as char
  }

  // The decimal digits of n, as fmt's %d writes them.
  function Decimal(n: nat): (s: string)
    ensures s != "" && AllDigits(s)
  {
    if n < 10 then [DigitChar(n)] else Decimal(n / 10) + [DigitChar(n % 10)]
  }

  function DecimalValue(s: string): nat
    requires AllDigits(s)
  {
    if s == "" then 0 else 10 * DecimalValue(s[..|s| - 1]) + (s[|s| - 1] as int - '0' as int)
  }

  lemma {:induction false} DecimalRoundTrip(n: nat)
    ensures DecimalValue(Decimal(n)) == n
  {
    if n >= 10 {
      DecimalRoundTrip(n / 10);
      assert Decimal(n)[..|Decimal(n)| - 1] == Decimal(n / 10);
    }
  }

  function FormatInt(n: int): string {
    if n < 0 then "-" + Decimal(-n) else Decimal(n)
  }

  // strconv.ParseUint(s, 10, 64)
  function ParseUint(s: string): Option<nat> {
    if s == "" || !AllDigits(s) then None
    else if DecimalValue(s) > MAX_UINT then None
    else Some(DecimalValue(s))
  }

  // strconv.Atoi: an optional sign, then digits, within the range of a 64-bit int.
  function Atoi(s: string): Option<int> {
    var signed := s != "" && (s[0] == '-' || s[0] == '+');
    var digits := if signed then s[1..] else s;
    if digits == "" || !AllDigits(digits) then None
    else
      var n: int := DecimalValue(digits);
      if signed && s[0] == '-' then (if n > MAX_INT + 1 then None else Some(-n))
      else if n > MAX_INT then None else Some(n)
  }

  // strings.Split for a one-character separator.
  function Split(s: string, sep: char): (parts: seq<string>)
    ensures |parts| >= 1
  {
    if s == "" then [""]
    else
      var rest := Split(s[1..], sep);
      if s[0] == sep then [""] + rest else [[s[0]] + rest[0]] + rest[1..]
  }

  lemma {:induction false} SplitWithoutSeparator(s: string, sep: char)
    requires sep !in s
    ensures Split(s, sep) == [s]
  {
    if s != "" {
      SplitWithoutSeparator(s[1..], sep);
      assert [s[0]] + s[1..] == s;
    }
  }

  lemma {:induction false} SplitAtOnlySeparator(a: string, b: string, sep: char)
    requires sep !in a && sep !in b
    ensures Split(a + [sep] + b, sep) == [a, b]
  {
    var s := a + [sep] + b;
    if a == "" {
      assert s[1..] == b;
      SplitWithoutSeparator(b, sep);
    } else {
      assert s[1..] == a[1..] + [sep] + b;
      SplitAtOnlySeparator(a[1..], b, sep);
      assert [s[0]] + a[1..] == a;
    }
  }

  function FormatCursor(base: int, seqNo: nat): string {
    FormatInt(base) + ":" + Decimal(seqNo)
  }

  function ParseCursor(value: string): Option<Cursor> {
    var parts := Split(TrimSpace(value), ':');
    if |parts| != 2 then None
    else
      match Atoi(parts[0])
      case None => None
      case Some(base) =>
        if base < 0 then None
        else
          match ParseUint(parts[1])
          case None => None
          case Some(seqNo) => Some(Cursor(base, seqNo))
  }

  lemma AtoiReadsFormat(n: int)
    requires -MAX_INT - 1 <= n <= MAX_INT
    ensures Atoi(FormatInt(n)) == Some(n)
  {
    if n < 0 {
      DecimalRoundTrip(-n);
      assert FormatInt(n)[1..] == Decimal(-n);
    } else {
      DecimalRoundTrip(n);
      assert IsDigit(Decimal(n)[0]);
    }
  }

  /** Reading inverts writing exactly for the bases the hub stores: every 64-bit
      base that is not negative, with every 64-bit event number. */
  lemma ParseInvertsFormat(base: int, seqNo: nat)
    requires -MAX_INT - 1 <= base <= MAX_INT && seqNo <= MAX_UINT
    ensures ParseCursor(FormatCursor(base, seqNo)) == if base >= 0 then Some(Cursor(base, seqNo)) else None
  {
    var a, b := FormatInt(base), Decimal(seqNo);
    var text := FormatCursor(base, seqNo);
    assert ':' !in a && ':' !in b;
    assert text == a + [':'] + b;
    assert !IsSpace(text[0]) && !IsSpace(text[|text| - 1]) by {
      assert text[0] == a[0] && (a[0] == '-' || IsDigit(a[0]));
      assert text[|text| - 1] == b[|b| - 1] && IsDigit(b[|b| - 1]);
    }
    TrimSpaceKeepsTight(text);
    SplitAtOnlySeparator(a, b, ':');
    AtoiReadsFormat(base);
    DecimalRoundTrip(seqNo);
  }
}
