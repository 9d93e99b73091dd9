/** Comparing UTC instants with fractions of any length, digit by digit. */
module ExactUtc {
  import opened Wrappers
  import opened Decimal

  /** A whole second: four digits, then two-digit fields with their separators. */
  predicate Shaped(s: string) {
    && |s| == 19
    && s[4] == '-' && s[7] == '-' && s[10] == 'T' && s[13] == ':' && s[16] == ':'
    && Digits(s[..4]) && Digits(s[5..7]) && Digits(s[8..10])
    && Digits(s[11..13]) && Digits(s[14..16]) && Digits(s[17..19])
  }

  /** The calendar: the seconds of a whole-second instant, where it is one. */
  type Calendar = string -> Option<int>

  /** Whole second and fraction digits of an exact UTC spelling the calendar knows. */
  function Parts(text: string, c: Calendar): Option<(string, string)> {
    if |text| < 20 || text[|text| - 1] != 'Z' || !Shaped(text[..19]) || c(text[..19]).None? then None
    else
      var rest := text[19..|text| - 1];
      if rest == [] then Some((text[..19], ""))
      else if rest[0] == '.' && |rest| > 1 && Digits(rest[1..]) then Some((text[..19], rest[1..]))
      else None
  }

  function Zeros(k: nat): (z: string)
    ensures |z| == k && Digits(z)
  {
    seq(k, _ => '0')
  }

  /** The fraction padded on the right; an empty one reads as zero. */
  function Padded(fraction: string, width: nat): nat
    requires Digits(fraction) && |fraction| <= width
  {
    var s := fraction + Zeros(width - |fraction|);
    Number(if s == [] then "0" else s)
  }

  lemma PartsDigits(text: string, c: Calendar)
    requires Parts(text, c).Some?
    ensures Digits(Parts(text, c).value.1) && c(Parts(text, c).value.0).Some?
  {
  }

  /** -1, 0 or 1 as the left instant is before, at or after the right; None where either is not
      an exact UTC instant. */
  function Compare(left: string, right: string, c: Calendar): Option<int> {
    var l :- Parts(left, c);
    var r :- Parts(right, c);
    PartsDigits(left, c);
    PartsDigits(right, c);
    if c(l.0).value < c(r.0).value then Some(-1)
    else if c(l.0).value > c(r.0).value then Some(1)
    else
      var width := if |l.1| > |r.1| then |l.1| else |r.1|;
      var a, b := Padded(l.1, width), Padded(r.1, width);
      Some((if a > b then 1 else 0) - (if a < b then 1 else 0))
  }

  /** The instant a spelling names, in seconds, exactly. */
  function Instant(text: string, c: Calendar): real
    requires Parts(text, c).Some?
  {
    PartsDigits(text, c);
    var parts := Parts(text, c).value;
    c(parts.0).value as real + Fraction(parts.1)
  }

  function Fraction(digits: string): real
    requires Digits(digits)
  {
    Number(digits) as real / Pow10(|digits|) as real
  }

  function Sign(x: real): int {
    if x < 0.0 then -1 else if x > 0.0 then 1 else 0
  }

  lemma {:induction false} ZerosAre(k: nat)
    ensures Number(Zeros(k)) == 0
  {
    if k > 0 {
      ZerosAre(k - 1);
      assert Zeros(k)[..k - 1] == Zeros(k - 1);
    }
  }

  lemma PaddedIs(digits: string, width: nat)
    requires Digits(digits) && |digits| <= width
    ensures Padded(digits, width) == Number(digits) * Pow10(width - |digits|)
  {
    ZerosAre(width - |digits|);
    NumberAppend(digits, Zeros(width - |digits|));
    assert Number("0") == 0 by {
      assert "0"[..0] == "";
    }
  }

  /** Padding scales a fraction up to a whole number of units of the width. */
  lemma PaddedScales(digits: string, width: nat)
    requires Digits(digits) && |digits| <= width
    ensures Padded(digits, width) as real == Fraction(digits) * Pow10(width) as real
  {
    hide Padded, Number, Pow10;
    PaddedIs(digits, width);
    Pow10Plus(|digits|, width - |digits|);
    ScaleUp(Number(digits), Pow10(|digits|), Pow10(width - |digits|), Pow10(width), Padded(digits, width));
  }

  lemma ScaleUp(n: nat, p: nat, q: nat, w: nat, padded: nat)
    requires p > 0 && w == p * q && padded == n * q
    ensures padded as real == n as real / p as real * w as real
  {
    assert (n * q) as real == n as real * q as real;
    assert (p * q) as real == p as real * q as real;
    Cancel(n as real, p as real, q as real);
  }

  lemma Cancel(n: real, p: real, q: real)
    requires p > 0.0
    ensures n / p * (p * q) == n * q
  {
    assert n / p * p == n;
    assert n / p * (p * q) == n / p * p * q;
  }

  lemma FractionBelowOne(digits: string)
    requires Digits(digits)
    ensures 0.0 <= Fraction(digits) < 1.0
  {
    NumberBelow(digits);
    var n, p := Number(digits) as real, Pow10(|digits|) as real;
    assert n / p * p == n;
    Below(n / p, p, n);
  }

  lemma Below(x: real, p: real, n: real)
    requires p > 0.0 && x * p == n && 0.0 <= n < p
    ensures 0.0 <= x < 1.0
  {
    RealScale(x, 1.0, p);
    RealScale(0.0, x, p);
  }

  lemma {:induction false} NumberBelow(digits: string)
    requires Digits(digits)
    ensures Number(digits) < Pow10(|digits|)
  {
    if digits != [] {
      NumberBelow(digits[..|digits| - 1]);
    }
  }

  lemma ScaledSign(x: real, y: real, k: real)
    requires k > 0.0
    ensures x * k > y * k <==> x > y
    ensures x * k < y * k <==> x < y
  {
    RealScale(x, y, k);
    RealScale(y, x, k);
  }

  /** Padded to one width, fractions compare as their numbers do. */
  lemma PaddedOrders(f: string, g: string, width: nat)
    requires Digits(f) && Digits(g) && |f| <= width && |g| <= width
    ensures Padded(f, width) > Padded(g, width) <==> Fraction(f) > Fraction(g)
    ensures Padded(f, width) < Padded(g, width) <==> Fraction(f) < Fraction(g)
  {
    hide Padded, Fraction, Pow10;
    PaddedScales(f, width);
    PaddedScales(g, width);
    WholeOrders(Padded(f, width), Padded(g, width), Fraction(f), Fraction(g), Pow10(width) as real);
  }

  lemma WholeOrders(a: nat, b: nat, x: real, y: real, w: real)
    requires w > 0.0 && a as real == x * w && b as real == y * w
    ensures a > b <==> x > y
    ensures a < b <==> x < y
  {
    ScaledSign(x, y, w);
  }

  /** The comparison is the sign of the difference of the exact instants. */
  lemma CompareIsSign(left: string, right: string, c: Calendar)
    ensures Compare(left, right, c).Some? <==> Parts(left, c).Some? && Parts(right, c).Some?
    ensures Compare(left, right, c).Some? ==>
      Compare(left, right, c).value == Sign(Instant(left, c) - Instant(right, c))
  {
    hide Parts, Fraction, Padded;
    if Parts(left, c).Some? && Parts(right, c).Some? {
      PartsDigits(left, c);
      PartsDigits(right, c);
      var l, r := Parts(left, c).value, Parts(right, c).value;
      FractionBelowOne(l.1);
      FractionBelowOne(r.1);
      var width := if |l.1| > |r.1| then |l.1| else |r.1|;
      PaddedOrders(l.1, r.1, width);
      SignCases(c(l.0).value, c(r.0).value, Fraction(l.1), Fraction(r.1));
    }
  }

  lemma SignCases(s: int, t: int, f: real, g: real)
    requires 0.0 <= f < 1.0 && 0.0 <= g < 1.0
    ensures Sign((s as real + f) - (t as real + g)) ==
      if s < t then -1 else if s > t then 1 else if f > g then 1 else if f < g then -1 else 0
  {
    if s < t {
      assert s as real + 1.0 <= t as real;
    } else if s > t {
      assert t as real + 1.0 <= s as real;
    }
  }

  /** So it is a total order on instants: antisymmetric, and transitive whatever the widths. */
  lemma CompareOrders(a: string, b: string, d: string, c: Calendar)
    requires Parts(a, c).Some? && Parts(b, c).Some? && Parts(d, c).Some?
    ensures Compare(a, b, c).Some? && Compare(b, a, c).Some? && Compare(b, d, c).Some? && Compare(a, d, c).Some?
    ensures Compare(a, b, c).value == -Compare(b, a, c).value
    ensures Compare(a, b, c).value <= 0 && Compare(b, d, c).value <= 0 ==>
      Compare(a, d, c).value <= 0
      && (Compare(a, d, c).value == 0 ==> Compare(a, b, c).value == 0 && Compare(b, d, c).value == 0)
  {
    hide Compare, Instant, Parts;
    CompareIsSign(a, b, c);
    CompareIsSign(b, a, c);
    CompareIsSign(b, d, c);
    CompareIsSign(a, d, c);
  }

  function Trimmed(digits: string): string {
    if digits != [] && digits[|digits| - 1] == '0' then Trimmed(digits[..|digits| - 1]) else digits
  }

  lemma {:induction false} TrimmedIs(digits: string)
    requires Digits(digits)
    ensures Digits(Trimmed(digits)) && |Trimmed(digits)| <= |digits|
    ensures Trimmed(digits) + Zeros(|digits| - |Trimmed(digits)|) == digits
    ensures Trimmed(digits) != [] ==> Trimmed(digits)[|Trimmed(digits)| - 1] != '0'
  {
    if digits != [] && digits[|digits| - 1] == '0' {
      TrimmedIs(digits[..|digits| - 1]);
    }
  }

  /** Two digit strings that end in no zero and pad to the same number are the same. */
  lemma TrimmedUnique(s: string, t: string, width: nat)
    requires Digits(s) && Digits(t) && |s| <= width && |t| <= width
    requires (s != [] ==> s[|s| - 1] != '0') && (t != [] ==> t[|t| - 1] != '0')
    requires Padded(s, width) == Padded(t, width)
    ensures s == t
  {
    PaddedIs(s, width);
    PaddedIs(t, width);
    var x, y := s + Zeros(width - |s|), t + Zeros(width - |t|);
    NumberAppend(s, Zeros(width - |s|));
    NumberAppend(t, Zeros(width - |t|));
    ZerosAre(width - |s|);
    ZerosAre(width - |t|);
    NumberInjective(x, y);
    LongerLast(s, t, width);
    LongerLast(t, s, width);
    assert s == x[..|s|] && t == y[..|t|];
  }

  lemma LongerLast(s: string, t: string, width: nat)
    requires |s| <= width && |t| <= width && s + Zeros(width - |s|) == t + Zeros(width - |t|)
    requires s != [] ==> s[|s| - 1] != '0'
    ensures |s| <= |t|
  {
    if |s| > |t| {
      EndsInZero(s, t, width);
    }
  }

  lemma EndsInZero(s: string, t: string, width: nat)
    requires |t| < |s| <= width && s + Zeros(width - |s|) == t + Zeros(width - |t|)
    ensures s[|s| - 1] == '0'
  {
    assert (s + Zeros(width - |s|))[|s| - 1] == (t + Zeros(width - |t|))[|s| - 1];
  }

  /** Two spellings compare equal exactly when they differ in trailing zeros at most. */
  lemma EqualIff(left: string, right: string, c: Calendar)
    requires Parts(left, c).Some? && Parts(right, c).Some?
    ensures Compare(left, right, c) == Some(0) <==>
      && c(Parts(left, c).value.0) == c(Parts(right, c).value.0)
      && Trimmed(Parts(left, c).value.1) == Trimmed(Parts(right, c).value.1)
  {
    hide Parts, Padded, Trimmed;
    PartsDigits(left, c);
    PartsDigits(right, c);
    var l, r := Parts(left, c).value, Parts(right, c).value;
    var width := if |l.1| > |r.1| then |l.1| else |r.1|;
    PaddedTrimmed(l.1, width);
    PaddedTrimmed(r.1, width);
    if Padded(l.1, width) == Padded(r.1, width) {
      TrimmedUnique(Trimmed(l.1), Trimmed(r.1), width);
    }
  }

  lemma PaddedTrimmed(digits: string, width: nat)
    requires Digits(digits) && |digits| <= width
    ensures Digits(Trimmed(digits)) && |Trimmed(digits)| <= width
    ensures Trimmed(digits) != [] ==> Trimmed(digits)[|Trimmed(digits)| - 1] != '0'
    ensures Padded(digits, width) == Padded(Trimmed(digits), width)
  {
    TrimmedIs(digits);
    var t := Trimmed(digits);
    assert t + Zeros(width - |t|) == digits + Zeros(width - |digits|) by {
      assert t + Zeros(|digits| - |t|) + Zeros(width - |digits|) == digits + Zeros(width - |digits|);
      assert Zeros(|digits| - |t|) + Zeros(width - |digits|) == Zeros(width - |t|);
      assert t + (Zeros(|digits| - |t|) + Zeros(width - |digits|)) ==
        t + Zeros(|digits| - |t|) + Zeros(width - |digits|);
    }
  }
}
