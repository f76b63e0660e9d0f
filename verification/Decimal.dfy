/** Decimal printing, and parsing as the standard library reads an unsigned 64-bit number. */
module Decimal {
  import opened Wrappers

  const U64_LIMIT := 0x1_0000_0000_0000_0000

  predicate IsDigit(c: char) { '0' <= c <= '9' }

  function DigitChar(d: nat): (c: char)
    requires d < 10
    ensures IsDigit(c) && DigitValue(c) == d
  {
    '0' + d as char
  }

  function DigitValue(c: char): (d: nat)
    requires IsDigit(c)
    ensures d < 10
  {
    (c - '0') as nat
  }

  predicate AllDigits(s: string) { forall i :: 0 <= i < |s| ==> IsDigit(s[i]) }

  /** The digits of `n`, without leading zeros. */
  function Print(n: nat): (s: string)
    ensures |s| > 0 && AllDigits(s)
    ensures Value(s) == n
  {
    if n < 10 then [DigitChar(n)]
    else
      var r := Print(n / 10) + [DigitChar(n % 10)];
      assert r[..|r| - 1] == Print(n / 10);
      r
  }

  /** The number a digit string denotes. */
  function Value(s: string): nat
    requires AllDigits(s)
  {
    if s == "" then 0 else 10 * Value(s[..|s| - 1]) + DigitValue(s[|s| - 1])
  }

  /** `str::parse::<u64>`: an optional plus sign, at least one digit, no overflow. */
  function ParseU64(s: string): Option<nat> {
    var body := if |s| > 0 && s[0] == '+' then s[1..] else s;
    if body == "" || !AllDigits(body) || Value(body) >= U64_LIMIT then None else Some(Value(body))
  }

  lemma ParsePrinted(n: nat)
    ensures ParseU64(Print(n)) == if n < U64_LIMIT then Some(n) else None
    ensures ParseU64("+" + Print(n)) == ParseU64(Print(n))
  {
    assert IsDigit(Print(n)[0]);
    assert ("+" + Print(n))[1..] == Print(n);
  }

  /** What is read is digits, but for one sign in front. */
  lemma OnlyDigitsAreRead(s: string, i: nat)
    requires i < |s| && !IsDigit(s[i]) && (s[i] == '+' ==> i > 0)
    ensures ParseU64(s).None?
  {
    if s[0] == '+' { assert s[1..][i - 1] == s[i]; }
  }

  /** Left-padded with zeros to at least `width` places. */
  function Padded(n: nat, width: nat): (s: string)
    ensures |s| >= width && |s| >= |Print(n)| && AllDigits(s) && Value(s) == n
    ensures |Print(n)| <= width ==> |s| == width
  {
    Zeros(width, Print(n))
  }

  function Zeros(width: nat, s: string): (r: string)
    requires AllDigits(s)
    ensures |r| >= width && |r| >= |s| && (|s| <= width ==> |r| == width)
    ensures AllDigits(r) && Value(r) == Value(s)
    decreases width - |s|
  {
    if |s| >= width then s
    else
      LeadingZero(s);
      Zeros(width, "0" + s)
  }

  lemma {:induction false} LeadingZero(s: string)
    requires AllDigits(s)
    ensures AllDigits("0" + s) && Value("0" + s) == Value(s)
  {
    if s != "" {
      LeadingZero(s[..|s| - 1]);
      assert ("0" + s)[..|s|] == "0" + s[..|s| - 1];
    } else {
      assert ("0" + s)[..0] == "";
    }
  }

  /** Numbers below a power of ten fit in that many places. */
  lemma {:induction false} PrintWidth(n: nat, width: nat)
    requires width > 0 && n < Power10(width)
    ensures |Print(n)| <= width
  {
    if n >= 10 {
      assert width > 1;
      PrintWidth(n / 10, width - 1);
    }
  }

  function Power10(k: nat): (r: nat)
    ensures r > 0
  {
    if k == 0 then 1 else 10 * Power10(k - 1)
  }
}
