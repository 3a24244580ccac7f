/** Decimal numerals, as `%d` writes them and `int` reads them. */
module Decimal {
  predicate IsDigit(c: char) {
    '0' <= c <= '9'
  }

  function DigitOf(d: nat): char
    requires d < 10
  {
    '0' + d as char
  }

  function ValueOf(c: char): nat
    requires IsDigit(c)
  {
    (c - '0') as nat
  }

  predicate AllDigits(s: string) {
    forall i :: 0 <= i < |s| ==> IsDigit(s[i])
  }

  function ToString(n: nat): (s: string)
    ensures s != [] && AllDigits(s)
  {
    if n < 10 then [DigitOf(n)] else ToString(n / 10) + [DigitOf(n % 10)]
  }

  function ToNat(s: string): nat
    requires AllDigits(s)
  {
    if s == [] then 0 else 10 * ToNat(s[..|s| - 1]) + ValueOf(s[|s| - 1])
  }

  function Pow10(w: nat): (r: nat)
    ensures r >= 1
  {
    if w == 0 then 1 else 10 * Pow10(w - 1)
  }

  /** The i-th character from the right is the i-th decimal digit, and none is missing or superfluous. */
  lemma {:induction false} DigitAt(n: nat, i: nat)
    requires i < |ToString(n)|
    ensures var s := ToString(n); s[|s| - 1 - i] as int == '0' as int + n / Pow10(i) % 10
    ensures i > 0 ==> n >= Pow10(i)
    decreases i
  {
    if i > 0 {
      DigitAt(n / 10, i - 1);
      Tenth(n, Pow10(i - 1));
    }
  }

  lemma Tenth(n: nat, q: nat)
    requires q > 0
    ensures n / (10 * q) == n / 10 / q && (n / 10 >= q ==> n >= 10 * q)
  {
    var a := n / 10 / q;
    var r := n / 10 % q;
    assert n / 10 == a * q + r && n == 10 * (a * q + r) + n % 10;
    assert n == a * (10 * q) + (10 * r + n % 10) by { assert 10 * (a * q + r) == a * (10 * q) + 10 * r; }
    DivIs(n, 10 * q, a, 10 * r + n % 10);
  }

  lemma DivIs(n: nat, d: nat, a: nat, r: nat)
    requires d > 0 && r < d && n == a * d + r
    ensures n / d == a
  {
    var b, s := n / d, n % d;
    assert n == b * d + s;
    if b < a { OneMultiple(b, a, d); } else if b > a { OneMultiple(a, b, d); }
  }

  lemma Mono(a: nat, b: nat, d: nat)
    requires a <= b
    ensures a * d <= b * d
  {
  }

  lemma OneMultiple(a: nat, b: nat, d: nat)
    requires a < b
    ensures b * d >= a * d + d
  {
    Mono(a + 1, b, d);
    assert (a + 1) * d == a * d + d;
  }

  lemma {:induction false} ReadBack(n: nat)
    ensures ToNat(ToString(n)) == n
  {
    var s := ToString(n);
    if n < 10 {
      assert s[..0] == [];
    } else {
      ReadBack(n / 10);
      assert s[..|s| - 1] == ToString(n / 10);
    }
  }
}
