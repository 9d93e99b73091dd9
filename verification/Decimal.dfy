/** Decimal digits and the numbers they write. */
module Decimal {
  predicate IsDigit(c: char) {
    '0' <= c <= '9'
  }

  predicate Digits(s: string) {
    forall i :: 0 <= i < |s| ==> IsDigit(s[i])
  }

  function Number(s: string): nat
    requires Digits(s)
  {
    if s == [] then 0 else Number(s[..|s| - 1]) * 10 + (s[|s| - 1] as int - '0' as int)
  }

  function Pow10(k: nat): (p: nat)
    ensures p > 0
  {
    if k == 0 then 1 else 10 * Pow10(k - 1)
  }

  lemma Pow10Plus(a: nat, b: nat)
    ensures Pow10(a + b) == Pow10(a) * Pow10(b)
  {
    if a > 0 {
      Pow10Plus(a - 1, b);
    }
  }

  lemma TenTimes(n: nat, p: nat, m: nat, d: nat)
    ensures (n * p + m) * 10 + d == n * (10 * p) + (m * 10 + d)
  {
  }

  lemma {:induction false} NumberAppend(s: string, t: string)
    requires Digits(s) && Digits(t)
    ensures Digits(s + t)
    ensures Number(s + t) == Number(s) * Pow10(|t|) + Number(t)
  {
    if t == [] {
      assert s + t == s;
    } else {
      hide Digits;
      var front, last := t[..|t| - 1], t[|t| - 1];
      assert Digits(front) && Digits(s + t) && IsDigit(last) by {
        DigitsParts(s, t);
      }
      NumberAppend(s, front);
      assert (s + t)[..|s + t| - 1] == s + front;
      TenTimes(Number(s), Pow10(|front|), Number(front), last as int - '0' as int);
    }
  }

  lemma DigitsParts(s: string, t: string)
    requires Digits(s) && Digits(t) && t != []
    ensures Digits(t[..|t| - 1]) && Digits(s + t) && IsDigit(t[|t| - 1])
  {
  }

  /** Digits of equal length are equal when their numbers are. */
  lemma {:induction false} NumberInjective(s: string, t: string)
    requires Digits(s) && Digits(t) && |s| == |t| && Number(s) == Number(t)
    ensures s == t
  {
    if s != [] {
      var n, m := Number(s[..|s| - 1]), Number(t[..|t| - 1]);
      assert Number(s) % 10 == s[|s| - 1] as int - '0' as int;
      assert Number(t) % 10 == t[|t| - 1] as int - '0' as int;
      assert n == m;
      NumberInjective(s[..|s| - 1], t[..|t| - 1]);
      assert s == s[..|s| - 1] + [s[|s| - 1]] && t == t[..|t| - 1] + [t[|t| - 1]];
    }
  }

  lemma RealScale(a: real, b: real, d: real)
    requires d > 0.0
    ensures a * d <= b * d <==> a <= b
    ensures a * d < b * d <==> a < b
  {
    if a < b {
      assert (b - a) * d > 0.0;
    } else {
      assert (a - b) * d >= 0.0;
    }
  }
}
