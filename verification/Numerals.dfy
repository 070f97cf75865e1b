/** Decimal numerals, as %d prints them, and why identifiers built from them can be told apart. */
module Numerals {

  const DIGITS := "0123456789"

  function Digits(n: nat): (s: string)
    ensures |s| > 0 && '-' !in s
  {
    if n < 10 then [DIGITS[n]] else Digits(n / 10) + [DIGITS[n % 10]]
  }

  function Abs(n: int): nat {
    if n < 0 then -n else n
  }

  function Signed(negative: bool, digits: string): string {
    if negative then "-" + digits else digits
  }

  function Decimal(n: int): string {
    Signed(n < 0, Digits(Abs(n)))
  }

  /** The number a row of digits stands for. */
  function Value(s: string): int {
    if s == "" then 0 else 10 * Value(s[..|s| - 1]) + (s[|s| - 1] as int - '0' as int)
  }

  lemma {:induction false} DigitsRead(n: nat)
    ensures Value(Digits(n)) == n
  {
    if n < 10 {
      assert Value([]) == 0;
      assert [DIGITS[n]][..0] == [];
    } else {
      DigitsRead(n / 10);
      assert (Digits(n / 10) + [DIGITS[n % 10]])[..|Digits(n / 10)|] == Digits(n / 10);
    }
  }

  /** Up to the first dash, and after it. */
  lemma SplitAtDash(a: string, x: string, b: string, y: string)
    requires '-' !in a && '-' !in b && a + "-" + x == b + "-" + y
    ensures a == b && x == y
  {
    var s, t := a + "-" + x, b + "-" + y;
    assert s[|a|] == '-' && t[|b|] == '-';
    assert forall i :: 0 <= i < |a| ==> s[i] == a[i] && a[i] in a;
    assert forall i :: 0 <= i < |b| ==> t[i] == b[i] && b[i] in b;
    assert s[..|a|] == a && t[..|b|] == b;
    assert s[|a| + 1..] == x && t[|b| + 1..] == y;
  }

  lemma DigitsInjective(m: nat, n: nat)
    requires Digits(m) == Digits(n)
    ensures m == n
  {
    DigitsRead(m);
    DigitsRead(n);
  }

  lemma WithoutSign(d: string, x: string)
    ensures ("-" + d + "-" + x)[1..] == d + "-" + x
  {
  }

  /** With or without a sign, a row of digits and what follows its dash can be told apart. */
  lemma SignedSplit(p: bool, d: string, x: string, q: bool, e: string, y: string)
    requires d != "" && e != "" && '-' !in d && '-' !in e && Signed(p, d) + "-" + x == Signed(q, e) + "-" + y
    ensures p == q && d == e && x == y
  {
    var s, t := Signed(p, d) + "-" + x, Signed(q, e) + "-" + y;
    assert d[0] in d && e[0] in e;
    assert (p <==> s[0] == '-') && (q <==> t[0] == '-');
    if p {
      WithoutSign(d, x);
      WithoutSign(e, y);
    }
    SplitAtDash(d, x, e, y);
  }

  /** A numeral followed by a dash can be read back, and so can what follows. */
  lemma DecimalRead(m: int, x: string, n: int, y: string)
    requires Decimal(m) + "-" + x == Decimal(n) + "-" + y
    ensures m == n && x == y
  {
    SignedSplit(m < 0, Digits(Abs(m)), x, n < 0, Digits(Abs(n)), y);
    DigitsInjective(Abs(m), Abs(n));
  }
}
