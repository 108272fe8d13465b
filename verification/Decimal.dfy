/** Decimal numerals: how the programs read them and how git prints them. */
module Decimal {

  predicate IsDigit(c: char) {
    '0' <= c <= '9'
  }

  function DigitOf(c: char): nat
    requires IsDigit(c)
  {
    c as int - '0' as int
  }

  function CharOf(d: nat): (c: char)
    requires d < 10
    ensures IsDigit(c) && DigitOf(c) == d
  {
    ('0' as int + d) as char
  }

  /** The end of the digits that start at `i`. */
  function DigitsEnd(s: string, i: nat): (k: nat)
    requires i <= |s|
    ensures i <= k <= |s|
    ensures forall j :: i <= j < k ==> IsDigit(s[j])
    ensures k < |s| ==> !IsDigit(s[k])
    decreases |s| - i
  {
    if i < |s| && IsDigit(s[i]) then DigitsEnd(s, i + 1) else i
  }

  ghost predicate AllDigits(s: string) {
    forall i :: 0 <= i < |s| ==> IsDigit(s[i])
  }

  function ValueOf(s: string): nat
    requires AllDigits(s)
  {
    if s == "" then 0 else 10 * ValueOf(s[..|s| - 1]) + DigitOf(s[|s| - 1])
  }

  function Print(n: nat): (s: string)
    ensures s != "" && AllDigits(s)
    decreases n
  {
    if n < 10 then [CharOf(n)] else Print(n / 10) + [CharOf(n % 10)]
  }

  lemma {:induction false} ValueOfPrint(n: nat)
    ensures ValueOf(Print(n)) == n
    decreases n
  {
    var s := Print(n);
    if n >= 10 {
      ValueOfPrint(n / 10);
      assert s[..|s| - 1] == Print(n / 10);
    } else {
      assert s[..|s| - 1] == "";
    }
  }

  /** The digits end where the numeral does, if no digit follows it. */
  lemma DigitsEndOf(s: string, i: nat, k: nat)
    requires i <= k <= |s| && (forall j :: i <= j < k ==> IsDigit(s[j])) && (k < |s| ==> !IsDigit(s[k]))
    ensures DigitsEnd(s, i) == k
    decreases k - i
  {
    if i < k {
      DigitsEndOf(s, i + 1, k);
    }
  }
}
