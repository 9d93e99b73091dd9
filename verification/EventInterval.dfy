/** The interval a signed timestamp witnesses: its GeneralizedTime and accuracy, rounded
    outward to whole microseconds. */
module EventInterval {
  import opened Wrappers
  import opened Decimal

  /** The calendar: seconds of a fourteen-digit UTC instant, where there is one, and the
      range of microseconds it can represent. */
  datatype Calendar = Calendar(seconds: string -> Option<int>, first: int, last: int)

  /** Fourteen digits, perhaps a point and one to eighteen more not ending in zero, and a Z. */
  function Split(text: string): Option<(string, string)> {
    if |text| < 15 || text[|text| - 1] != 'Z' || !Digits(text[..14]) then None
    else
      var rest := text[14..|text| - 1];
      if rest == [] then Some((text[..14], ""))
      else
        var fraction := rest[1..];
        if rest[0] == '.' && 1 <= |fraction| <= 18 && Digits(fraction) && fraction[|fraction| - 1] != '0'
        then Some((text[..14], fraction)) else None
  }

  function Get(accuracy: map<nat, int>, tag: nat): int {
    if tag in accuracy then accuracy[tag] else 0
  }

  /** The accuracy in microseconds: seconds, milliseconds and microseconds by their tags. */
  function Radius(accuracy: Option<map<nat, int>>): Option<nat> {
    if accuracy.None? || accuracy.value == map[] || accuracy.value.Keys - {2, 128, 129} != {} then None
    else
      var a := accuracy.value;
      if (exists t :: t in a && a[t] < 0) || (128 in a && !(1 <= a[128] <= 999)) || (129 in a && !(1 <= a[129] <= 999))
      then None
      else
        var r := Get(a, 2) * 1_000_000 + Get(a, 128) * 1000 + Get(a, 129);
        if 0 < r <= 1_000_000 then Some(r) else None
  }

  function Ceiling(x: int, d: nat): int
    requires d > 0
  {
    -((-x) / d)
  }

  const DAY := 86_400_000_000

  /** Lower and upper bound in microseconds, or a refusal. */
  function Interval(text: string, accuracy: Option<map<nat, int>>, c: Calendar): Option<(int, int)> {
    var parts :- Split(text);
    SplitDigits(text);
    var seconds :- c.seconds(parts.0);
    var r :- Radius(accuracy);
    var n, d := Number(parts.1) * 1_000_000, Pow10(|parts.1|);
    var lower := seconds * 1_000_000 + (n - r * d) / d;
    var upper := seconds * 1_000_000 + Ceiling(n + r * d, d);
    if lower < c.first || upper > c.last || lower / DAY != upper / DAY then None else Some((lower, upper))
  }

  lemma SplitDigits(text: string)
    requires Split(text).Some?
    ensures var parts := Split(text).value;
      Digits(parts.1) && |parts.1| <= 18 && (parts.1 != [] ==> parts.1[|parts.1| - 1] != '0')
  {
  }

  /** The signed instant itself, in microseconds. */
  function Signed(text: string, c: Calendar): real
    requires Split(text).Some? && c.seconds(Split(text).value.0).Some?
  {
    SplitDigits(text);
    var parts := Split(text).value;
    c.seconds(parts.0).value as real * 1_000_000.0 +
    (Number(parts.1) * 1_000_000) as real / Pow10(|parts.1|) as real
  }

  predicate Within(t: real, instant: real, r: nat) {
    instant - r as real <= t <= instant + r as real
  }

  /** The whole-microsecond interval holds every instant within the accuracy. */
  ghost predicate Contains(lower: int, upper: int, instant: real, r: nat) {
    forall t: real :: Within(t, instant, r) ==> lower as real <= t <= upper as real
  }

  lemma ContainsEnds(lower: int, upper: int, instant: real, r: nat)
    ensures Contains(lower, upper, instant, r) <==>
      lower as real <= instant - r as real && instant + r as real <= upper as real
  {
    if Contains(lower, upper, instant, r) {
      assert Within(instant - r as real, instant, r) && Within(instant + r as real, instant, r);
    }
  }

  lemma Quotient(x: int, d: nat)
    requires d > 0
    ensures x / d * d <= x < (x / d + 1) * d
  {
  }

  lemma ScaleDown(q: int, x: int, d: nat)
    requires d > 0
    ensures q * d <= x <==> q as real <= x as real / d as real
    ensures q * d < x <==> (q as real) < x as real / d as real
  {
    var y := x as real / d as real;
    assert y * d as real == x as real;
    assert (q * d) as real == q as real * d as real;
    RealScale(q as real, y, d as real);
  }

  /** Floor: the greatest whole number at or below a quotient. */
  lemma FloorIs(x: int, d: nat, k: int)
    requires d > 0
    ensures k <= x / d <==> k as real <= x as real / d as real
  {
    Quotient(x, d);
    ScaleDown(k, x, d);
    Divides(k, x, d);
  }

  lemma Divides(k: int, x: int, d: nat)
    requires d > 0
    ensures k <= x / d <==> k * d <= x
  {
    Quotient(x, d);
    if k <= x / d {
      assert k * d <= x / d * d;
    } else {
      assert (x / d + 1) * d <= k * d;
    }
  }

  /** Ceiling: the least whole number at or above a quotient. */
  lemma CeilingIs(x: int, d: nat, k: int)
    requires d > 0
    ensures k >= Ceiling(x, d) <==> k as real >= x as real / d as real
  {
    FloorIs(-x, d, -k);
    assert (-x) as real / d as real == -(x as real / d as real);
  }

  lemma Shifted(n: int, r: int, d: nat)
    requires d > 0
    ensures (n - r * d) as real / d as real == n as real / d as real - r as real
    ensures (n + r * d) as real / d as real == n as real / d as real + r as real
  {
    var x, y := n as real, d as real;
    assert (r * d) as real == r as real * y;
    assert (r as real * y) / y == r as real;
    assert (x - r as real * y) / y == x / y - (r as real * y) / y;
    assert (x + r as real * y) / y == x / y + (r as real * y) / y;
  }

  /** The returned interval is the tightest one: it holds every instant within the signed
      accuracy, and any other whole-microsecond interval that does holds it. */
  lemma IntervalTightest(text: string, accuracy: Option<map<nat, int>>, c: Calendar, lower: int, upper: int)
    requires Interval(text, accuracy, c).Some?
    ensures Split(text).Some? && c.seconds(Split(text).value.0).Some? && Radius(accuracy).Some?
    ensures var i, g, r := Interval(text, accuracy, c).value, Signed(text, c), Radius(accuracy).value;
      && Contains(i.0, i.1, g, r)
      && (Contains(lower, upper, g, r) ==> lower <= i.0 && i.1 <= upper)
  {
    hide Ceiling, Contains, Number, Pow10, Split, Radius;
    var parts := Split(text).value;
    SplitDigits(text);
    var s, r, n, d := c.seconds(parts.0).value, Radius(accuracy).value, Number(parts.1) * 1_000_000, Pow10(|parts.1|);
    var i, g := Interval(text, accuracy, c).value, Signed(text, c);
    assert g == Center(s, n, d);
    ContainsEnds(i.0, i.1, g, r);
    ContainsEnds(lower, upper, g, r);
    BoundsAre(s, n, r, d, i.0, i.1);
    BoundsAre(s, n, r, d, lower, upper);
  }

  function Center(s: int, n: nat, d: nat): real
    requires d > 0
  {
    s as real * 1_000_000.0 + n as real / d as real
  }

  lemma BoundsAre(s: int, n: nat, r: nat, d: nat, lower: int, upper: int)
    requires d > 0
    ensures lower <= s * 1_000_000 + (n - r * d) / d <==> lower as real <= Center(s, n, d) - r as real
    ensures upper >= s * 1_000_000 + Ceiling(n + r * d, d) <==> upper as real >= Center(s, n, d) + r as real
  {
    hide Ceiling;
    Shifted(n, r, d);
    FloorIs(n - r * d, d, lower - s * 1_000_000);
    CeilingIs(n + r * d, d, upper - s * 1_000_000);
  }

  // Width -------------------------------------------------------------------

  lemma FloorCeiling(n: int, r: int, d: nat)
    requires d > 0
    ensures (n - r * d) / d == n / d - r
    ensures Ceiling(n + r * d, d) == n / d + r + if n % d == 0 then 0 else 1
  {
    Quotient(n, d);
    Unique(n - r * d, d, n / d - r);
    if n % d == 0 {
      Unique(-(n + r * d), d, -(n / d) - r);
    } else {
      Unique(-(n + r * d), d, -(n / d) - r - 1);
    }
  }

  lemma Unique(x: int, d: nat, q: int)
    requires d > 0 && q * d <= x < (q + 1) * d
    ensures x / d == q
  {
    Divides(q, x, d);
    Divides(q + 1, x, d);
  }

  /** A fraction not ending in zero is a whole number of microseconds exactly when it has at
      most six digits. */
  lemma WholeIff(fraction: string)
    requires Digits(fraction) && (fraction != [] ==> fraction[|fraction| - 1] != '0')
    ensures Number(fraction) * 1_000_000 % Pow10(|fraction|) == 0 <==> |fraction| <= 6
  {
    var k, n := |fraction|, Number(fraction);
    if k <= 6 {
      WholeMicroseconds(n, k);
    } else {
      assert n % 10 != 0;
      if n * 1_000_000 % Pow10(k) == 0 { TensDivide(n, k); }
    }
  }

  lemma WholeMicroseconds(n: nat, k: nat)
    requires k <= 6
    ensures n * 1_000_000 % Pow10(k) == 0
  {
    hide Pow10;
    Million();
    Pow10Plus(6 - k, k);
    Multiple(n * Pow10(6 - k), Pow10(k));
    Associate(n, Pow10(6 - k), Pow10(k));
  }

  lemma Associate(a: int, b: int, c: int)
    ensures a * b * c == a * (b * c)
  {
  }

  lemma TensDivide(n: nat, k: nat)
    requires k > 6 && n * 1_000_000 % Pow10(k) == 0
    ensures n % 10 == 0
  {
    hide Pow10;
    Million();
    Pow10Plus(6, k - 6);
    Pow10Plus(1, k - 7);
    Ten();
    var t := Pow10(k - 7);
    assert Pow10(k) == 1_000_000 * (10 * t);
    TenFactor(n, Pow10(k), t);
  }

  lemma Ten()
    ensures Pow10(1) == 10
  {
    assert Pow10(0) == 1;
  }

  lemma TenFactor(n: nat, d: nat, t: nat)
    requires d == 1_000_000 * (10 * t) && d > 0 && n * 1_000_000 % d == 0
    ensures n % 10 == 0
  {
    var q := n * 1_000_000 / d;
    assert n * 1_000_000 == q * d;
    assert q * d == (q * t * 10) * 1_000_000;
    CancelMillion(n, q * t * 10);
  }

  lemma Million()
    ensures Pow10(6) == 1_000_000
  {
    assert Pow10(3) == 1000;
    Pow10Plus(3, 3);
  }

  lemma Multiple(a: int, d: nat)
    requires d > 0
    ensures a * d % d == 0
  {
    Unique(a * d, d, a);
  }

  lemma CancelMillion(a: int, b: int)
    requires a * 1_000_000 == b * 1_000_000
    ensures a == b
  {
  }

  /** The interval is 2r or 2r + 1 microseconds wide, 2r exactly when the signed instant has at
      most six fraction digits; it is at most two seconds and a microsecond, and within a day. */
  lemma IntervalWidth(text: string, accuracy: Option<map<nat, int>>, c: Calendar)
    requires Interval(text, accuracy, c).Some?
    ensures Split(text).Some? && Radius(accuracy).Some?
    ensures var i, r := Interval(text, accuracy, c).value, Radius(accuracy).value;
      && 0 < r <= 1_000_000
      && i.1 - i.0 == 2 * r + (if |Split(text).value.1| <= 6 then 0 else 1)
      && i.0 / DAY == i.1 / DAY && c.first <= i.0 && i.1 <= c.last
  {
    var parts := Split(text).value;
    SplitDigits(text);
    var n, d := Number(parts.1) * 1_000_000, Pow10(|parts.1|);
    FloorCeiling(n, Radius(accuracy).value, d);
    WholeIff(parts.1);
  }
}
