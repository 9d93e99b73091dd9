/** Strings in code point order, and the ascending listing of a finite set of them. */
module Order {
  predicate Less(a: string, b: string) {
    if b == [] then false
    else if a == [] then true
    else a[0] < b[0] || (a[0] == b[0] && Less(a[1..], b[1..]))
  }

  lemma {:induction false} LessTotal(a: string, b: string)
    ensures Less(a, b) || a == b || Less(b, a)
    ensures Less(a, b) ==> !Less(b, a) && a != b
  {
    if a != [] && b != [] && a[0] == b[0] {
      LessTotal(a[1..], b[1..]);
      assert a == [a[0]] + a[1..] && b == [b[0]] + b[1..];
    }
  }

  lemma {:induction false} LessTransitive(a: string, b: string, c: string)
    requires Less(a, b) && Less(b, c)
    ensures Less(a, c)
  {
    if a != [] && a[0] == b[0] == c[0] {
      LessTransitive(a[1..], b[1..], c[1..]);
    }
  }

  predicate Ascending(s: seq<string>) {
    forall i, j :: 0 <= i < j < |s| ==> Less(s[i], s[j])
  }

  predicate IsLeast(k: string, keys: set<string>) {
    k in keys && forall j :: j in keys ==> j == k || Less(k, j)
  }

  lemma {:induction false} LeastExists(keys: set<string>)
    requires keys != {}
    ensures exists k :: IsLeast(k, keys)
  {
    var a :| a in keys;
    if keys - {a} == {} {
      assert keys == {a};
      assert IsLeast(a, keys);
    } else {
      LeastExists(keys - {a});
      var b :| IsLeast(b, keys - {a});
      LessTotal(a, b);
      if Less(a, b) {
        forall j | j in keys ensures j == a || Less(a, j) {
          if j != a && j != b {
            assert j in keys - {a};
            LessTransitive(a, b, j);
          }
        }
        assert IsLeast(a, keys);
      } else {
        assert IsLeast(b, keys);
      }
    }
  }

  lemma LeastUnique(a: string, b: string, keys: set<string>)
    requires IsLeast(a, keys) && IsLeast(b, keys)
    ensures a == b
  {
    LessTotal(a, b);
  }

  function Least(keys: set<string>): (k: string)
    requires keys != {}
    ensures IsLeast(k, keys)
  {
    LeastExists(keys);
    assert forall a, b :: IsLeast(a, keys) && IsLeast(b, keys) ==> a == b by {
      forall a, b | IsLeast(a, keys) && IsLeast(b, keys) ensures a == b {
        LeastUnique(a, b, keys);
      }
    }
    var k :| k in keys && IsLeast(k, keys);
    k
  }

  /** Every element once, in ascending order. */
  function Sorted(keys: set<string>): (s: seq<string>)
    ensures Ascending(s)
    ensures forall k :: k in s <==> k in keys
  {
    if keys == {} then []
    else
      var k := Least(keys);
      var rest := Sorted(keys - {k});
      assert forall i :: 0 <= i < |rest| ==> rest[i] in keys - {k};
      [k] + rest
  }

  lemma {:induction false} SortedSize(keys: set<string>)
    ensures |Sorted(keys)| == |keys|
  {
    if keys != {} {
      SortedSize(keys - {Least(keys)});
    }
  }

  lemma HeadIn(s: seq<string>)
    ensures s != [] ==> s[0] in s
  {
  }

  /** There is only one such listing, whatever algorithm produced it. */
  lemma {:induction false} AscendingUnique(s: seq<string>, t: seq<string>)
    requires Ascending(s) && Ascending(t)
    requires forall k :: k in s <==> k in t
    ensures s == t
  {
    HeadIn(s);
    HeadIn(t);
    if s != [] {
      LessTotal(s[0], t[0]);
      assert s[0] == t[0];
      forall k | k in s[1..] ensures k in t[1..] {
        LessTotal(k, s[0]);
        assert k in t;
      }
      forall k | k in t[1..] ensures k in s[1..] {
        LessTotal(k, t[0]);
        assert k in s;
      }
      AscendingUnique(s[1..], t[1..]);
      assert s == [s[0]] + s[1..] && t == [t[0]] + t[1..];
    }
  }
}
