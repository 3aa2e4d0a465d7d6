/** Decimal numerals, as printed by the C formats and as read by the digit loops. */
module Decimals {

  predicate IsDigit(c: char) { '0' <= c <= '9' }

  function DigitOf(c: char): nat
    requires IsDigit(c)
  {
    c as int - '0' as int
  }

  function DigitChar(d: nat): (c: char)
    requires d < 10
    ensures IsDigit(c) && DigitOf(c) == d
  {
    (d + '0' as int) as char
  }

  // The numeral without leading zeros.
  function Decimal(n: nat): (s: string)
    ensures |s| > 0 && forall k | 0 <= k < |s| :: IsDigit(s[k])
  {
    if n < 10 then [DigitChar(n)] else Decimal(n / 10) + [DigitChar(n % 10)]
  }

  // Two digits, zero-padded.
  function TwoDigits(n: nat): (s: string)
    requires n < 100
    ensures |s| == 2 && IsDigit(s[0]) && IsDigit(s[1])
  {
    [DigitChar(n / 10), DigitChar(n % 10)]
  }

  // The value of a run of digits after some already read.
  function Value(s: string, acc: nat): nat
    requires forall k | 0 <= k < |s| :: IsDigit(s[k])
  {
    if |s| == 0 then acc else 10 * Value(s[..|s| - 1], acc) + DigitOf(s[|s| - 1])
  }

  lemma {:induction false} ValueOfDecimal(n: nat)
    ensures Value(Decimal(n), 0) == n
  {
    if n >= 10 {
      ValueOfDecimal(n / 10);
      assert Decimal(n)[..|Decimal(n)| - 1] == Decimal(n / 10);
    } else {
      assert Decimal(n)[..0] == [];
    }
  }

  lemma ValueOfTwoDigits(n: nat)
    requires n < 100
    ensures Value(TwoDigits(n), 0) == n
  {
    var s := TwoDigits(n);
    assert s[..1] == [s[0]];
    assert [s[0]][..0] == [];
    assert Value([s[0]], 0) == n / 10;
  }

  // The position after the digits that start at p.
  function DigitsEnd(s: string, p: nat): (r: nat)
    requires p <= |s|
    ensures p <= r <= |s|
    ensures forall k | p <= k < r :: IsDigit(s[k])
    ensures r < |s| ==> !IsDigit(s[r])
    decreases |s| - p
  {
    if p < |s| && IsDigit(s[p]) then DigitsEnd(s, p + 1) else p
  }

  // The digit-accumulating loop of parser.c.
  method ReadDigits(s: string, start: nat) returns (v: nat, p: nat)
    requires start <= |s|
    ensures p == DigitsEnd(s, start)
    ensures v == Value(s[start..p], 0)
  {
    p, v := start, 0;
    while p < |s| && IsDigit(s[p])
      invariant start <= p <= |s| && DigitsEnd(s, start) == DigitsEnd(s, p)
      invariant forall k | start <= k < p :: IsDigit(s[k])
      invariant v == Value(s[start..p], 0)
    {
      ghost var t := s[start..p + 1];
      assert t[..|t| - 1] == s[start..p] && t[|t| - 1] == s[p];
      v := v * 10 + DigitOf(s[p]);
      p := p + 1;
    }
  }
}
