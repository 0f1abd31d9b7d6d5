/**
  Decimal text as the logger reads and writes it: `int(s)` applied to a run of
  ASCII digits, and the `%d` / `%02d` renderings of a non-negative integer.
 */
module Decimal {

  predicate IsDigit(c: char) {
    '0' <= c <= '9'
  }

  predicate IsDigits(s: string) {
    forall i :: 0 <= i < |s| ==> IsDigit(s[i])
  }

  function DigitChar(d: nat): (c: char)
    requires d < 10
    ensures IsDigit(c) && DigitValue(c) == d
  {
    ('0' as int + d) as char
  }

  function DigitValue(c: char): (d: nat)
    requires IsDigit(c)
    ensures d < 10
  {
    c as int - '0' as int
  }

  /** `int(s)` for a digit run: the number it denotes, leading zeros allowed. */
  function Value(s: string): nat
    requires IsDigits(s)
  {
    if s == [] then 0 else Value(s[..|s| - 1]) * 10 + DigitValue(s[|s| - 1])
  }

  /** `int()` ignores leading zeros: `int("07") == 7`. */
  lemma {:induction false} ValueLeadingZero(s: string)
    requires IsDigits(s)
    ensures IsDigits(['0'] + s) && Value(['0'] + s) == Value(s)
    decreases |s|
  {
    var z := ['0'] + s;
    if s != [] {
      var init := s[..|s| - 1];
      assert z[..|z| - 1] == ['0'] + init;
      assert z[|z| - 1] == s[|s| - 1];
      ValueLeadingZero(init);
    }
  }

  /** `"%d" % n` and `str(n)` for a non-negative integer. */
  function Text(n: nat): (s: string)
    ensures 0 < |s| && IsDigits(s)
    ensures Value(s) == n
    ensures s[0] == '0' ==> n == 0 && |s| == 1
    ensures n < 10 <==> |s| == 1
  {
    if n < 10 then [DigitChar(n)]
    else
      var s := Text(n / 10) + [DigitChar(n % 10)];
      assert s[..|s| - 1] == Text(n / 10);
      s
  }

  /** `"%02d" % n` for a non-negative integer: at least two digits, zero-padded. */
  function Pad2(n: nat): (s: string)
    ensures 2 <= |s| && IsDigits(s)
    ensures Value(s) == n
    ensures n < 100 ==> |s| == 2
    ensures 10 <= n ==> s == Text(n)
  {
    if n < 10 then
      var s := ['0'] + Text(n);
      assert s[..1] == ['0'];
      s
    else Text(n)
  }
}
