/** Decimal text of integers: Python's `str()` of an id when a login token is issued,
    and `int()` of the subject when the token is read back. */
module Decimal {
  import opened Results

  predicate IsDigit(c: char) {
    '0' <= c <= '9'
  }

  function DigitChar(d: nat): (c: char)
    requires d < 10
    ensures IsDigit(c)
  {
    ('0' as int + d) as char
  }

  function DigitValue(c: char): (d: nat)
    requires IsDigit(c)
    ensures d < 10 && DigitChar(d) == c
  {
    c as int - '0' as int
  }

  /** `str(n)` for a non-negative n: its digits, most significant first. */
  function ShowNat(n: nat): (s: string)
    ensures |s| > 0 && forall c :: c in s ==> IsDigit(c)
  {
    if n < 10 then [DigitChar(n)] else ShowNat(n / 10) + [DigitChar(n % 10)]
  }

  /** `str(i)`: a minus sign before the digits of a negative number. */
  function ShowInt(i: int): string {
    if i < 0 then "-" + ShowNat(-i) else ShowNat(i)
  }

  /** The value of a non-empty string of decimal digits; None for anything else. */
  function ParseDigits(s: string): (r: Option<nat>)
    ensures r.Some? <==> |s| > 0 && forall c :: c in s ==> IsDigit(c)
  {
    if |s| == 0 || !IsDigit(s[|s| - 1]) then None
    else if |s| == 1 then Some(DigitValue(s[0]))
    else match ParseDigits(s[..|s| - 1])
      case None => None
      case Some(n) =>
        assert s == s[..|s| - 1] + [s[|s| - 1]];
        Some(10 * n + DigitValue(s[|s| - 1]))
  }

  /** An optional minus sign followed by a non-empty run of decimal digits. */
  predicate IsIntText(s: string) {
    && |s| > 0
    && var digits := if s[0] == '-' then s[1..] else s;
       |digits| > 0 && forall c :: c in digits ==> IsDigit(c)
  }

  /** `int(s)` on an optionally signed string of decimal digits; None where Python raises. */
  function ParseInt(s: string): (r: Option<int>)
    ensures r.Some? <==> IsIntText(s)
    ensures r.Some? && s[0] == '-' ==> r.value <= 0
    ensures r.Some? && s[0] != '-' ==> r.value >= 0
  {
    if |s| > 0 && s[0] == '-' then
      match ParseDigits(s[1..])
      case None => None
      case Some(n) => Some(-(n as int))
    else
      match ParseDigits(s)
      case None => None
      case Some(n) => Some(n)
  }

  lemma {:induction false} ParseShowNat(n: nat)
    ensures ParseDigits(ShowNat(n)) == Some(n)
  {
    if n >= 10 {
      ParseShowNat(n / 10);
      var s := ShowNat(n);
      assert s[..|s| - 1] == ShowNat(n / 10);
    }
  }

  /** Reading back the text of any integer gives that integer. */
  lemma ParseShowInt(i: int)
    ensures ParseInt(ShowInt(i)) == Some(i)
  {
    var s := ShowInt(i);
    if i < 0 {
      var digits := ShowNat(-i);
      assert s == "-" + digits && s[0] == '-';
      assert s[1..] == digits;
      ParseShowNat(-i);
      assert ParseDigits(s[1..]) == Some(-i);
    } else {
      assert s[0] in s;
      ParseShowNat(i);
    }
  }
}
