/** What the binds get out of a cell's text through formatted stream
    extraction (operator>> on an input string stream): a single character for
    the boolean bind, a 64-bit integer for the integral bind. Only the
    well-formed inputs are specified; see README for what is left out. */
module StreamExtract {
  import opened Wrappers

  /** The characters the C locale counts as white space. */
  predicate IsSpace(c: char) {
    c == ' ' || 9 <= c as int <= 13
  }

  /** The position of the first non-blank character, or |s| if there is none. */
  function SkipSpace(s: string): (k: nat)
    ensures k <= |s|
    ensures forall i :: 0 <= i < k ==> IsSpace(s[i])
    ensures k < |s| ==> !IsSpace(s[k])
  {
    if s == [] || !IsSpace(s[0]) then 0 else 1 + SkipSpace(s[1..])
  }

  /** `in >> c` for a character `c`: blanks are skipped and the next character
      is taken as it is; nothing is extracted from a blank or empty text. */
  function ExtractChar(s: string): (c: Option<char>)
    ensures c.None? <==> forall i :: 0 <= i < |s| ==> IsSpace(s[i])
    ensures c.Some? ==> !IsSpace(c.value)
    ensures c.Some? ==>
      exists k :: 0 <= k < |s| && s[k] == c.value && forall i :: 0 <= i < k ==> IsSpace(s[i])
  {
    var k := SkipSpace(s);
    if k < |s| then Some(s[k]) else None
  }

  predicate IsDigit(c: char) {
    '0' <= c <= '9'
  }

  predicate AllDigits(s: string) {
    forall i :: 0 <= i < |s| ==> IsDigit(s[i])
  }

  function DigitValue(c: char): (d: nat)
    requires IsDigit(c)
    ensures d < 10
  {
    c as int - '0' as int
  }

  function DigitChar(d: nat): (c: char)
    requires d < 10
    ensures IsDigit(c) && DigitValue(c) == d
  {
    ('0' as int + d) as char
  }

  /** The value of a run of decimal digits, most significant first. */
  function DigitsValue(s: string): nat
    requires AllDigits(s)
  {
    if s == [] then 0 else DigitsValue(s[..|s| - 1]) * 10 + DigitValue(s[|s| - 1])
  }

  /** An optional sign followed by at least one decimal digit. */
  predicate IsDecimalLiteral(s: string) {
    if |s| > 0 && (s[0] == '-' || s[0] == '+') then |s| > 1 && AllDigits(s[1..])
    else |s| > 0 && AllDigits(s)
  }

  function LiteralValue(s: string): int
    requires IsDecimalLiteral(s)
  {
    if s[0] == '-' then -(DigitsValue(s[1..]) as int)
    else if s[0] == '+' then DigitsValue(s[1..])
    else DigitsValue(s)
  }

  const Int64Min: int := -0x8000_0000_0000_0000
  const Int64Max: int := 0x7FFF_FFFF_FFFF_FFFF

  predicate InInt64(n: int) {
    Int64Min <= n <= Int64Max
  }

  /** A text that `in >> v` for an int64_t `v` reads in full and without
      overflow. */
  predicate IsInt64Literal(s: string) {
    IsDecimalLiteral(s) && InInt64(LiteralValue(s))
  }

  /** The form in which the server writes a bigint: an optional minus sign,
      then digits without a leading zero; zero is written "0", unsigned. */
  predicate IsCanonicalLiteral(s: string) {
    && IsDecimalLiteral(s)
    && s[0] != '+'
    && var d := if s[0] == '-' then s[1..] else s;
       && (|d| == 1 || d[0] != '0')
       && (s[0] == '-' ==> d != "0")
  }

  /** `in >> v` for an int64_t `v`, on the texts it is specified for. Writing
      the value back as the server does gives the text again exactly when the
      text was already in the server's form. */
  function ExtractInt64(s: string): (v: int)
    requires IsInt64Literal(s)
    ensures InInt64(v)
    ensures Int64Text(v) == s <==> IsCanonicalLiteral(s)
  {
    var v := LiteralValue(s);
    Int64TextIsCanonical(v);
    if IsCanonicalLiteral(s) then ReadBackCanonical(s); v else v
  }

  /** The shortest decimal digits of n: a leading zero only for n == 0. */
  function Digits(n: nat): (s: string)
    ensures |s| > 0 && AllDigits(s)
    ensures DigitsValue(s) == n
    ensures |s| == 1 || s[0] != '0'
    ensures s[0] == '0' <==> n == 0
    decreases n
  {
    if n < 10 then [DigitChar(n)]
    else
      var s := Digits(n / 10) + [DigitChar(n % 10)];
      assert s[..|s| - 1] == Digits(n / 10);
      s
  }

  /** The text the server sends for a bigint value. */
  function Int64Text(n: int): string {
    if n < 0 then ['-'] + Digits(-n) else Digits(n)
  }

  /** A bigint written by the server is read back by the integral bind as the
      same number. */
  lemma Int64TextRoundTrip(n: int)
    requires InInt64(n)
    ensures IsInt64Literal(Int64Text(n))
    ensures ExtractInt64(Int64Text(n)) == n
  {
    var s := Int64Text(n);
    if n < 0 {
      assert s[1..] == Digits(-n);
    } else {
      assert s == Digits(n);
      assert DigitsValue(s) == n;
      assert s[0] != '-' && s[0] != '+';
    }
  }

  /** Digits with a non-zero leading digit have a positive value. */
  lemma {:induction false} LeadingDigitPositive(s: string)
    requires |s| > 0 && AllDigits(s) && s[0] != '0'
    ensures DigitsValue(s) > 0
    decreases |s|
  {
    if |s| > 1 {
      LeadingDigitPositive(s[..|s| - 1]);
    }
  }

  /** Digits without a leading zero are the shortest digits of their value. */
  lemma {:induction false} DigitsOfValue(s: string)
    requires |s| > 0 && AllDigits(s) && (|s| == 1 || s[0] != '0')
    ensures Digits(DigitsValue(s)) == s
    decreases |s|
  {
    var n := DigitsValue(s);
    if |s| > 1 {
      var t := s[..|s| - 1];
      LeadingDigitPositive(t);
      DigitsOfValue(t);
      assert n / 10 == DigitsValue(t) && n % 10 == DigitValue(s[|s| - 1]);
      assert Digits(n) == t + [s[|s| - 1]];
      assert s == t + [s[|s| - 1]];
    }
  }

  /** A text in the server's form is written back unchanged from its value. */
  lemma ReadBackCanonical(s: string)
    requires IsCanonicalLiteral(s)
    ensures Int64Text(LiteralValue(s)) == s
  {
    if s[0] == '-' {
      var d := s[1..];
      if |d| == 1 {
        assert d[0] != '0';
      }
      LeadingDigitPositive(d);
      DigitsOfValue(d);
      assert s == ['-'] + d;
    } else {
      DigitsOfValue(s);
    }
  }

  /** What the server writes is in its own form. */
  lemma Int64TextIsCanonical(n: int)
    ensures IsCanonicalLiteral(Int64Text(n))
  {
    var s := Int64Text(n);
    if n < 0 {
      assert s[1..] == Digits(-n);
    } else {
      assert s == Digits(n);
    }
  }
}
