/** Decimal text of natural numbers, as template strings and parseInt(s, 10) use it. */
module Decimal {
  import opened Wrappers

  predicate IsDigit(c: char) {
    '0' <= c <= '9'
  }

  function DigitValue(c: char): (n: nat)
    requires IsDigit(c)
    ensures n < 10
  {
    c as int - '0' as int
  }

  function Print(n: nat): (s: string)
    ensures s != "" && forall i :: 0 <= i < |s| ==> IsDigit(s[i])
  {
    if n < 10 then [('0' as int + n) as char]
    else Print(n / 10) + [('0' as int + n % 10) as char]
  }

  function Value(s: string): nat
    requires forall i :: 0 <= i < |s| ==> IsDigit(s[i])
  {
    if s == "" then 0 else Value(s[..|s| - 1]) * 10 + DigitValue(s[|s| - 1])
  }

  lemma {:induction false} PrintValue(n: nat)
    ensures Value(Print(n)) == n
  {
    var s := Print(n);
    if n >= 10 {
      PrintValue(n / 10);
      assert s[..|s| - 1] == Print(n / 10);
    } else {
      assert s[..0] == "";
    }
  }

  lemma {:induction false} PrintHasNoLeadingZero(n: nat)
    ensures n > 0 ==> Print(n)[0] != '0'
    ensures n < 10 ==> |Print(n)| == 1
  {
    if n >= 10 {
      PrintHasNoLeadingZero(n / 10);
    }
  }

  lemma PrintInjective(m: nat, n: nat)
    requires Print(m) == Print(n)
    ensures m == n
  {
    PrintValue(m);
    PrintValue(n);
  }

  /** The leading digits of a text. */
  function DigitPrefix(s: string): (n: nat)
    ensures n <= |s| && forall i :: 0 <= i < n ==> IsDigit(s[i])
    ensures n < |s| ==> !IsDigit(s[n])
  {
    if s == "" || !IsDigit(s[0]) then 0 else 1 + DigitPrefix(s[1..])
  }

  /** parseInt(s, 10) of a text without blanks or sign in front; None is NaN. */
  function ParseInt(s: string): Option<nat> {
    var n := DigitPrefix(s);
    if n == 0 then None else Some(Value(s[..n]))
  }

  lemma ParsePrinted(n: nat)
    ensures ParseInt(Print(n)) == Some(n)
  {
    PrintValue(n);
    var s := Print(n);
    assert s[..|s|] == s;
  }
}
