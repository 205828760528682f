/** Decimal digits: printing natural numbers and reading them back. */
module Decimals {

  predicate IsDigit(c: char) {
    '0' <= c <= '9'
  }

  predicate AllDigits(s: string) {
    forall i :: 0 <= i < |s| ==> IsDigit(s[i])
  }

  function Digit(d: nat): (c: char)
    requires d < 10
    ensures IsDigit(c)
  {
    (48 + d) as char
  }

  function DigitValue(c: char): (d: nat)
    requires IsDigit(c)
    ensures d < 10 && Digit(d) == c
  {
    c as int - 48
  }

  /** The decimal numeral of `n`, without leading zeros. */
  function OfNat(n: nat): (s: string)
    ensures s != [] && AllDigits(s)
    ensures |s| > 1 ==> s[0] != '0'
  {
    if n < 10 then [Digit(n)] else OfNat(n / 10) + [Digit(n % 10)]
  }

  /** The number a digit string denotes; leading zeros are allowed. */
  function ToNat(s: string): (n: nat)
    requires AllDigits(s)
  {
    if s == [] then 0 else ToNat(s[..|s| - 1]) * 10 + DigitValue(s[|s| - 1])
  }

  lemma {:induction false} ToNatOfNat(n: nat)
    ensures ToNat(OfNat(n)) == n
  {
    var s := OfNat(n);
    if n < 10 {
      assert s[..0] == [];
    } else {
      ToNatOfNat(n / 10);
      assert s[..|s| - 1] == OfNat(n / 10);
    }
  }

  predicate NoLeadingDigit(s: string) {
    s == [] || !IsDigit(s[0])
  }

  /** A run of digits ends where the digits end. */
  lemma {:induction false} DigitsSplit(a: string, x: string, b: string, y: string)
    requires AllDigits(a) && AllDigits(b) && NoLeadingDigit(x) && NoLeadingDigit(y)
    requires a + x == b + y
    ensures a == b && x == y
  {
    var t := a + x;
    if a != [] && b != [] {
      assert t[0] == a[0] && t[0] == b[0];
      assert t[1..] == a[1..] + x && t[1..] == b[1..] + y;
      DigitsSplit(a[1..], x, b[1..], y);
      assert a == [a[0]] + a[1..] && b == [b[0]] + b[1..];
    } else if t != [] {
      assert t[0] == (b + y)[0];
      assert a == b == [];
      assert t == x && t == y;
    }
  }

  /** Numerals are self-delimiting in front of any text that does not start with a digit. */
  lemma OfNatPrefixFree(m: nat, x: string, n: nat, y: string)
    requires NoLeadingDigit(x) && NoLeadingDigit(y)
    requires OfNat(m) + x == OfNat(n) + y
    ensures m == n && x == y
  {
    DigitsSplit(OfNat(m), x, OfNat(n), y);
    ToNatOfNat(m);
    ToNatOfNat(n);
  }
}
