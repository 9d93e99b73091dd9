/** The signed canonical JSON of TUF metadata (section 4.1 of the TUF specification):
    sorted keys, no white space, only backslash and quote escaped, in UTF-8. */
module TufJson {
  import opened Wrappers
  import opened Bytes
  import opened Decimal
  import opened Order
  import Utf8

  datatype Json =
    | Null
    | Bool(b: bool)
    | Int(n: int)
    | Str(s: string)
    | List(items: seq<Json>)
    | Object(fields: map<string, Json>)
    | Float(x: real)

  function Digit(d: nat): char
    requires d < 10
  {
    '0' + d as char
  }

  function Numeral(n: nat): string {
    if n < 10 then [Digit(n)] else Numeral(n / 10) + [Digit(n % 10)]
  }

  function IntText(n: int): string {
    if n < 0 then "-" + Numeral(-n) else Numeral(n)
  }

  function Replace(s: string, c: char, text: string): string {
    if s == "" then "" else (if s[0] == c then text else [s[0]]) + Replace(s[1..], c, text)
  }

  function Quote(s: string): string {
    "\"" + Replace(Replace(s, '\\', "\\\\"), '"', "\\\"") + "\""
  }

  function Text(v: Json): string
    decreases v, 1, 0
  {
    match v
    case Null => "null"
    case Bool(b) => if b then "true" else "false"
    case Int(n) => IntText(n)
    case Str(s) => Quote(s)
    case List(items) => "[" + Items(items) + "]"
    case Object(fields) => "{" + Fields(v, Sorted(fields.Keys)) + "}"
    case Float(_) => ""
  }

  /** Comma-separated elements. */
  function Items(items: seq<Json>): string
    decreases items, 0, 0
  {
    if items == [] then ""
    else if |items| == 1 then Text(items[0])
    else Text(items[0]) + "," + Items(items[1..])
  }

  /** Comma-separated key and value pairs, in the order of `keys`. */
  function Fields(v: Json, keys: seq<string>): string
    requires v.Object? && forall k :: k in keys ==> k in v.fields
    decreases v, 0, |keys|
  {
    if keys == [] then ""
    else
      var first := Quote(keys[0]) + ":" + Text(v.fields[keys[0]]);
      if |keys| == 1 then first else first + "," + Fields(v, keys[1..])
  }

  /** No floating-point number anywhere in the tree. */
  predicate Supported(v: Json) {
    match v
    case List(items) => forall x :: x in items ==> Supported(x)
    case Object(fields) => forall k :: k in fields ==> Supported(fields[k])
    case Float(_) => false
    case _ => true
  }

  /** The octets that are signed. */
  function Octets(v: Json): seq<byte> {
    Utf8.EncodeAll(Text(v))
  }

  function Canonical(v: Json): Option<seq<byte>> {
    if Supported(v) then Some(Octets(v)) else None
  }

  // Unique readability -------------------------------------------------------

  predicate Stops(rest: string) {
    rest == "" || !IsDigit(rest[0])
  }

  lemma {:induction false} NumeralDigits(n: nat)
    ensures Numeral(n) != ""
    ensures Digits(Numeral(n))
    ensures Number(Numeral(n)) == n
  {
    if n >= 10 {
      NumeralDigits(n / 10);
      assert Numeral(n)[..|Numeral(n)| - 1] == Numeral(n / 10);
    } else {
      assert Numeral(n)[..0] == "";
    }
  }

  lemma NumeralUnique(n: nat, m: nat, r: string, s: string)
    requires Stops(r) && Stops(s) && Numeral(n) + r == Numeral(m) + s
    ensures n == m && r == s
  {
    NumeralDigits(n);
    NumeralDigits(m);
    var a, b := Numeral(n), Numeral(m);
    var k := if |a| < |b| then |a| else |b|;
    DigitsEnd(a, r, k);
    DigitsEnd(b, s, k);
    Split(Numeral(n), r, Numeral(m), s);
  }

  /** A run of digits ends where its continuation begins. */
  lemma DigitsEnd(a: string, r: string, k: nat)
    requires Digits(a) && Stops(r) && k <= |a|
    ensures k < |a + r| ==> (IsDigit((a + r)[k]) <==> k < |a|)
    ensures k == |a + r| ==> k == |a|
  {
  }

  lemma Split(a: string, r: string, b: string, s: string)
    requires a + r == b + s && |a| == |b|
    ensures a == b && r == s
  {
    assert a == (a + r)[..|a|] && r == (a + r)[|a|..];
    assert b == (b + s)[..|b|] && s == (b + s)[|b|..];
  }

  lemma IntUnique(n: int, m: int, r: string, s: string)
    requires Stops(r) && Stops(s) && IntText(n) + r == IntText(m) + s
    ensures n == m && r == s
  {
    hide IntText, Numeral;
    IntStart(n);
    IntStart(m);
    assert (IntText(n) + r)[0] == IntText(n)[0] && (IntText(m) + s)[0] == IntText(m)[0];
    if n < 0 {
      SignedUnique(-n, -m, r, s);
    } else {
      UnsignedUnique(n, m, r, s);
    }
  }

  lemma UnsignedUnique(n: nat, m: nat, r: string, s: string)
    requires Stops(r) && Stops(s) && IntText(n) + r == IntText(m) + s
    ensures n == m && r == s
  {
    hide Numeral;
    NumeralUnique(n, m, r, s);
  }

  lemma SignedUnique(n: int, m: int, r: string, s: string)
    requires n > 0 && m > 0 && Stops(r) && Stops(s) && IntText(-n) + r == IntText(-m) + s
    ensures n == m && r == s
  {
    hide Numeral, IntText;
    NegativeText(n);
    NegativeText(m);
    DropMinus(Numeral(n), r, Numeral(m), s);
    NumeralUnique(n, m, r, s);
  }

  lemma NegativeText(n: int)
    requires n > 0
    ensures IntText(-n) == "-" + Numeral(n)
  {
  }

  lemma DropMinus(a: string, r: string, b: string, s: string)
    requires ("-" + a) + r == ("-" + b) + s
    ensures a + r == b + s
  {
    assert ("-" + a) + r == "-" + (a + r) && ("-" + b) + s == "-" + (b + s);
    Split("-", a + r, "-", b + s);
  }

  lemma IntStart(n: int)
    ensures IntText(n) != "" && (if n < 0 then IntText(n)[0] == '-' else IsDigit(IntText(n)[0]))
  {
    NumeralDigits(if n < 0 then -n else n);
  }

  function Escape(c: char): string {
    if c == '\\' then "\\\\" else if c == '"' then "\\\"" else [c]
  }

  function Escaped(s: string): string {
    if s == "" then "" else Escape(s[0]) + Escaped(s[1..])
  }

  /** The two replacements in sequence escape each character once. */
  lemma {:induction false} QuoteEscapes(s: string)
    ensures Replace(Replace(s, '\\', "\\\\"), '"', "\\\"") == Escaped(s)
  {
    if s != "" {
      QuoteEscapes(s[1..]);
      var rest := Replace(s[1..], '\\', "\\\\");
      ReplaceFirst(s[0], rest, '"', "\\\"");
      if s[0] == '\\' {
        ReplaceFirst('\\', ['\\'] + rest, '"', "\\\"");
        assert "\\\\" + rest == ['\\'] + (['\\'] + rest);
      }
    }
  }

  lemma ReplaceFirst(x: char, rest: string, c: char, text: string)
    ensures Replace([x] + rest, c, text) == (if x == c then text else [x]) + Replace(rest, c, text)
  {
    assert ([x] + rest)[1..] == rest;
  }

  lemma {:induction false} EscapedUnique(a: string, b: string, r: string, s: string)
    requires Escaped(a) + ("\"" + r) == Escaped(b) + ("\"" + s)
    ensures a == b && r == s
    decreases |a| + |b|
  {
    var x, y := "\"" + r, "\"" + s;
    EscapedStart(a, x);
    EscapedStart(b, y);
    if a == "" {
      assert "" + x == x && "" + y == y;
      Split("\"", r, "\"", s);
    } else {
      EscapedStep(a, x);
      EscapedStep(b, y);
      var u, w := Escape(a[0]), Escape(b[0]);
      assert u[0] == w[0];
      assert |u| == 2 ==> u[1] == a[0] == (Escaped(a) + x)[1];
      assert |w| == 2 ==> w[1] == b[0] == (Escaped(b) + y)[1];
      Split(u, Escaped(a[1..]) + x, w, Escaped(b[1..]) + y);
      EscapedUnique(a[1..], b[1..], r, s);
      assert a == [a[0]] + a[1..] && b == [b[0]] + b[1..];
    }
  }

  lemma EscapedStart(a: string, rest: string)
    requires rest != "" && rest[0] == '"'
    ensures Escaped(a) + rest != "" && ((Escaped(a) + rest)[0] == '"' <==> a == "")
  {
  }

  lemma EscapedStep(a: string, rest: string)
    requires a != ""
    ensures Escaped(a) + rest == Escape(a[0]) + (Escaped(a[1..]) + rest)
  {
  }

  lemma QuoteUnique(a: string, b: string, r: string, s: string)
    requires Quote(a) + r == Quote(b) + s
    ensures a == b && r == s
  {
    hide Replace, Escaped;
    QuoteEscapes(a);
    QuoteEscapes(b);
    var x, y := Escaped(a) + ("\"" + r), Escaped(b) + ("\"" + s);
    assert Quote(a) + r == "\"" + x && Quote(b) + s == "\"" + y;
    Split("\"", x, "\"", y);
    EscapedUnique(a, b, r, s);
  }

  /** The kind of a value, as its first character shows it. */
  function Lead(v: Json): int {
    match v
    case Null => 0
    case Bool(b) => if b then 1 else 2
    case Int(_) => 3
    case Str(_) => 4
    case List(_) => 5
    case Object(_) => 6
    case Float(_) => 7
  }

  function LeadOf(c: char): int {
    if c == 'n' then 0 else if c == 't' then 1 else if c == 'f' then 2
    else if c == '-' || IsDigit(c) then 3 else if c == '"' then 4
    else if c == '[' then 5 else if c == '{' then 6 else 8
  }

  lemma TextLead(v: Json, r: string)
    requires Supported(v)
    ensures Text(v) + r != "" && LeadOf((Text(v) + r)[0]) == Lead(v)
  {
    hide Items, Fields, Sorted;
    if v.Int? {
      IntStart(v.n);
    } else if v.List? {
      assert Text(v)[0] == '[';
    } else if v.Object? {
      assert Text(v)[0] == '{';
    }
  }

  /** A printed value followed by anything but a digit can be read in one way only: the
      value and the untouched rest are both determined. */
  lemma {:induction false} TextUnique(v: Json, w: Json, r: string, s: string)
    requires Supported(v) && Supported(w) && Stops(r) && Stops(s)
    requires Text(v) + r == Text(w) + s
    ensures v == w && r == s
    decreases v, 1, 0
  {
    hide Items, Fields, Sorted, IntText, Quote;
    TextLead(v, r);
    TextLead(w, s);
    match v {
      case Null => Split("null", r, "null", s);
      case Bool(_) => Split(Text(v), r, Text(v), s);
      case Int(n) => IntUnique(n, w.n, r, s);
      case Str(t) => QuoteUnique(t, w.s, r, s);
      case List(items) =>
        assert Text(v) + r == "[" + (Items(items) + ("]" + r));
        assert Text(w) + s == "[" + (Items(w.items) + ("]" + s));
        Split("[", Items(items) + ("]" + r), "[", Items(w.items) + ("]" + s));
        ItemsUnique(items, w.items, r, s);
      case Object(fields) =>
        var ks, ls := Sorted(fields.Keys), Sorted(w.fields.Keys);
        assert Text(v) + r == "{" + (Fields(v, ks) + ("}" + r));
        assert Text(w) + s == "{" + (Fields(w, ls) + ("}" + s));
        Split("{", Fields(v, ks) + ("}" + r), "{", Fields(w, ls) + ("}" + s));
        FieldsUnique(v, ks, w, ls, r, s);
        assert fields.Keys == w.fields.Keys by {
          forall k ensures k in fields <==> k in w.fields {
            assert k in ks <==> k in fields;
            assert k in ls <==> k in w.fields;
          }
        }
        assert fields == w.fields by {
          forall k | k in fields ensures fields[k] == w.fields[k] {
            assert k in ks;
          }
        }
    }
  }

  /** What follows the first element of a list or object. */
  lemma ItemsStep(xs: seq<Json>, close: string)
    requires xs != []
    ensures Items(xs) + close
         == Text(xs[0]) + (if |xs| == 1 then close else "," + (Items(xs[1..]) + close))
  {
    hide Text;
  }

  lemma ItemsStart(xs: seq<Json>, close: string)
    requires forall x :: x in xs ==> Supported(x)
    requires close != "" && close[0] == ']'
    ensures Items(xs) + close != "" && ((Items(xs) + close)[0] == ']' <==> xs == [])
  {
    hide Text;
    if xs == [] {
      assert Items(xs) + close == close;
    } else {
      ItemsStep(xs, close);
      TextLead(xs[0], if |xs| == 1 then close else "," + (Items(xs[1..]) + close));
    }
  }

  lemma {:induction false} ItemsUnique(xs: seq<Json>, ys: seq<Json>, r: string, s: string)
    requires forall x :: x in xs ==> Supported(x)
    requires forall y :: y in ys ==> Supported(y)
    requires Items(xs) + ("]" + r) == Items(ys) + ("]" + s)
    ensures xs == ys && r == s
    decreases xs, 0, 0
  {
    hide Text;
    var x, y := "]" + r, "]" + s;
    assert "" + x == x && "" + y == y;
    ItemsStart(xs, x);
    ItemsStart(ys, y);
    if xs == [] {
      Split("]", r, "]", s);
    } else {
      ItemsStep(xs, x);
      ItemsStep(ys, y);
      var a := if |xs| == 1 then x else "," + (Items(xs[1..]) + x);
      var b := if |ys| == 1 then y else "," + (Items(ys[1..]) + y);
      TextUnique(xs[0], ys[0], a, b);
      assert a[0] == (if |xs| == 1 then ']' else ',') && b[0] == (if |ys| == 1 then ']' else ',');
      if |xs| == 1 {
        Split("]", r, "]", s);
      } else {
        Split(",", Items(xs[1..]) + x, ",", Items(ys[1..]) + y);
        ItemsUnique(xs[1..], ys[1..], r, s);
      }
      assert xs == [xs[0]] + xs[1..] && ys == [ys[0]] + ys[1..];
    }
  }

  lemma FieldsStep(v: Json, keys: seq<string>, close: string)
    requires v.Object? && keys != [] && forall k :: k in keys ==> k in v.fields
    ensures Fields(v, keys) + close
         == Quote(keys[0]) + (":" + (Text(v.fields[keys[0]])
              + (if |keys| == 1 then close else "," + (Fields(v, keys[1..]) + close))))
  {
    hide Text, Quote;
    var q, t := Quote(keys[0]), Text(v.fields[keys[0]]);
    if |keys| == 1 {
      Regroup(q, ":", t, "", "", close);
    } else {
      Regroup(q, ":", t, ",", Fields(v, keys[1..]), close);
    }
  }

  lemma Regroup(a: string, b: string, c: string, d: string, e: string, f: string)
    ensures a + b + c + f == a + (b + (c + f))
    ensures (a + b + c + d + e) + f == a + (b + (c + (d + (e + f))))
    ensures a + b + c + d + e == a + b + c + (d + e)
  {
    assert a + b + c + (d + e) == a + b + c + d + e;
  }

  lemma FieldsNone(v: Json)
    requires v.Object?
    ensures Fields(v, []) == ""
  {
  }

  lemma FieldSupported(v: Json, k: string)
    requires v.Object? && Supported(v) && k in v.fields
    ensures Supported(v.fields[k])
  {
  }

  lemma FieldsStart(v: Json, keys: seq<string>, close: string)
    requires v.Object? && forall k :: k in keys ==> k in v.fields
    requires close != "" && close[0] == '}'
    ensures Fields(v, keys) + close != "" && ((Fields(v, keys) + close)[0] == '}' <==> keys == [])
  {
    hide Text, Replace;
    if keys == [] {
      assert Fields(v, keys) + close == close;
    } else {
      FieldsStep(v, keys, close);
    }
  }

  lemma {:induction false} FieldsUnique(v: Json, ks: seq<string>, w: Json, ls: seq<string>, r: string, s: string)
    requires v.Object? && w.Object? && Supported(v) && Supported(w)
    requires forall k :: k in ks ==> k in v.fields
    requires forall k :: k in ls ==> k in w.fields
    requires Fields(v, ks) + ("}" + r) == Fields(w, ls) + ("}" + s)
    ensures ks == ls && r == s
    ensures forall k :: k in ks ==> v.fields[k] == w.fields[k]
    decreases v, 0, |ks|
  {
    hide Text, Quote, Fields, Supported;
    var x, y := "}" + r, "}" + s;
    assert "" + x == x && "" + y == y;
    FieldsStart(v, ks, x);
    FieldsStart(w, ls, y);
    if ks == [] {
      FieldsNone(v);
      FieldsNone(w);
      Split("}", r, "}", s);
    } else {
      FieldsStep(v, ks, x);
      FieldsStep(w, ls, y);
      var a := if |ks| == 1 then x else "," + (Fields(v, ks[1..]) + x);
      var b := if |ls| == 1 then y else "," + (Fields(w, ls[1..]) + y);
      var p, q := v.fields[ks[0]], w.fields[ls[0]];
      QuoteUnique(ks[0], ls[0], ":" + (Text(p) + a), ":" + (Text(q) + b));
      Split(":", Text(p) + a, ":", Text(q) + b);
      FieldSupported(v, ks[0]);
      FieldSupported(w, ls[0]);
      TextUnique(p, q, a, b);
      assert a[0] == (if |ks| == 1 then '}' else ',') && b[0] == (if |ls| == 1 then '}' else ',');
      if |ks| == 1 {
        Split("}", r, "}", s);
      } else {
        Split(",", Fields(v, ks[1..]) + x, ",", Fields(w, ls[1..]) + y);
        FieldsUnique(v, ks[1..], w, ls[1..], r, s);
      }
      assert ks == [ks[0]] + ks[1..] && ls == [ls[0]] + ls[1..];
    }
  }

  /** Two different signed values never share canonical octets. */
  lemma CanonicalInjective(v: Json, w: Json)
    requires Supported(v) && Canonical(v) == Canonical(w)
    ensures v == w
  {
    Utf8.EncodeInjective(Text(v), Text(w));
    assert Text(v) + "" == Text(v) && Text(w) + "" == Text(w);
    TextUnique(v, w, "", "");
  }
}
