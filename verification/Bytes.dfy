/** Octets and the big-endian integers that DER writes with them. */
module Bytes {
  type byte = b: int | 0 <= b < 256

  /** Unsigned big-endian value. */
  function FromBig(s: seq<byte>): nat {
    if s == [] then 0 else FromBig(s[..|s| - 1]) * 256 + s[|s| - 1]
  }

  /** The shortest unsigned big-endian form; zero is the empty string. */
  function ToBig(n: nat): seq<byte> {
    if n == 0 then [] else ToBig(n / 256) + [n % 256]
  }

  /** Big-endian octets in a given number, as many as the caller says the value takes. */
  function ToWidth(n: nat, k: nat): seq<byte> {
    if k == 0 then [] else ToWidth(n / 256, k - 1) + [n % 256]
  }

  function ByteCount(n: nat): nat {
    (BitLength(n) + 7) / 8
  }

  function BitLength(n: nat): nat {
    if n == 0 then 0 else 1 + BitLength(n / 2)
  }

  function Pow256(k: nat): nat {
    if k == 0 then 1 else 256 * Pow256(k - 1)
  }

  function Pow2(k: nat): nat {
    if k == 0 then 1 else 2 * Pow2(k - 1)
  }

  lemma {:induction false} FromToBig(n: nat)
    ensures FromBig(ToBig(n)) == n
    ensures n > 0 ==> ToBig(n) != [] && ToBig(n)[0] != 0
  {
    if n > 0 {
      FromToBig(n / 256);
      assert ToBig(n)[..|ToBig(n)| - 1] == ToBig(n / 256);
    }
  }

  lemma {:induction false} ToFromBig(s: seq<byte>)
    requires s == [] || s[0] != 0
    ensures ToBig(FromBig(s)) == s
    ensures s != [] ==> FromBig(s) > 0
  {
    if |s| == 1 {
      assert s[..0] == [];
      assert ToBig(FromBig(s)) == ToBig(0) + [s[0]];
    } else if |s| > 1 {
      var p := s[..|s| - 1];
      ToFromBig(p);
      var n := FromBig(s);
      assert n / 256 == FromBig(p) && n % 256 == s[|s| - 1];
      assert s == p + [s[|s| - 1]];
    }
  }

  /** A number fits k bytes exactly when it lies below 256 to the k. */
  lemma {:induction false} ToBigSize(n: nat, k: nat)
    ensures |ToBig(n)| <= k <==> n < Pow256(k)
  {
    if n > 0 && k > 0 {
      ToBigSize(n / 256, k - 1);
    } else if n > 0 {
      FromToBig(n);
    } else {
      Pow256Positive(k);
    }
  }

  lemma {:induction false} Pow256Positive(k: nat)
    ensures Pow256(k) > 0
  {
    if k > 0 {
      Pow256Positive(k - 1);
    }
  }

  lemma {:induction false} WidthIsShortest(n: nat, k: nat)
    requires |ToBig(n)| == k
    ensures ToWidth(n, k) == ToBig(n)
  {
    if k > 0 {
      WidthIsShortest(n / 256, k - 1);
    }
  }

  /** Written in as many octets as its bit length takes, a number is in its shortest form. */
  lemma ByteCountShortest(n: nat)
    ensures ToWidth(n, ByteCount(n)) == ToBig(n)
  {
    BytesOfBits(n);
    WidthIsShortest(n, ByteCount(n));
  }

  /** The byte count computed from the bit length is the shortest one. */
  lemma {:induction false} BytesOfBits(n: nat)
    ensures |ToBig(n)| == ByteCount(n)
  {
    if n >= 256 {
      BytesOfBits(n / 256);
      ShiftBits(n, 8);
      assert n / Pow2(8) == n / 256;
    } else if n > 0 {
      assert ToBig(n) == ToBig(0) + [n % 256];
      SmallBits(n);
    }
  }

  lemma {:induction false} ShiftBits(n: nat, k: nat)
    requires n >= Pow2(k) > 0
    ensures BitLength(n) == k + BitLength(n / Pow2(k))
  {
    if k > 0 {
      assert n / 2 >= Pow2(k - 1) > 0;
      ShiftBits(n / 2, k - 1);
      DivideTwice(n, Pow2(k - 1));
    }
  }

  lemma DivideTwice(n: nat, m: nat)
    requires m > 0
    ensures (n / 2) / m == n / (2 * m)
  {
    var q := (n / 2) / m;
    var r := (n / 2) % m;
    assert n == 2 * (q * m + r) + n % 2;
    assert 2 * (q * m + r) == q * (2 * m) + 2 * r;
    DivisionUnique(n, 2 * m, q, 2 * r + n % 2);
  }

  lemma DivisionUnique(n: nat, d: nat, q: nat, r: nat)
    requires d > 0 && r < d && n == q * d + r
    ensures n / d == q
  {
    Multiple(n / d - q, d, r - n % d);
  }

  lemma Multiple(k: int, d: int, x: int)
    requires k * d == x && -d < x < d
    ensures k == 0
  {
  }

  lemma {:induction false} SmallBits(n: nat)
    requires 0 < n < 256
    ensures 1 <= BitLength(n) <= 8
  {
    BitLengthBound(n, 8);
  }

  /** Bit length is the least k with n below 2 to the k. */
  lemma {:induction false} BitLengthBound(n: nat, k: nat)
    ensures BitLength(n) <= k <==> n < Pow2(k)
  {
    if n > 0 && k > 0 {
      BitLengthBound(n / 2, k - 1);
    } else if n == 0 {
      Pow2Positive(k);
    }
  }

  lemma {:induction false} Pow2Positive(k: nat)
    ensures Pow2(k) > 0
  {
    if k > 0 {
      Pow2Positive(k - 1);
    }
  }

  lemma {:induction false} Pow2Sum(j: nat, k: nat)
    ensures Pow2(j + k) == Pow2(j) * Pow2(k)
  {
    if j > 0 {
      Pow2Sum(j - 1, k);
      Twice(Pow2(j - 1), Pow2(k));
    }
  }

  lemma Twice(a: nat, b: nat)
    ensures 2 * a * b == 2 * (a * b)
  {
  }

  // Two's complement -------------------------------------------------------

  /** Signed big-endian value: the first octet carries the sign. */
  function SignedBig(s: seq<byte>): int
    requires s != []
  {
    if |s| == 1 then (if s[0] < 128 then s[0] else s[0] - 256)
    else SignedBig(s[..|s| - 1]) * 256 + s[|s| - 1]
  }

  /** No shorter string has the same signed value (section 8.3.2 of ITU-T X.690). */
  predicate Minimal(s: seq<byte>) {
    && s != []
    && !(|s| > 1 && ((s[0] == 0 && s[1] < 128) || (s[0] == 255 && s[1] >= 128)))
  }

  function ToSigned(v: int): seq<byte>
    decreases if v < 0 then -v else v
  {
    if -128 <= v < 128 then [if v < 0 then v + 256 else v]
    else ToSigned(v / 256) + [v % 256]
  }

  lemma {:induction false} SignedIsTwosComplement(s: seq<byte>)
    requires s != []
    ensures SignedBig(s) == FromBig(s) - (if s[0] >= 128 then Pow256(|s|) else 0)
  {
    if |s| > 1 {
      SignedIsTwosComplement(s[..|s| - 1]);
    } else {
      assert s[..0] == [];
      assert Pow256(1) == 256;
    }
  }

  lemma {:induction false} SignedToSigned(v: int)
    ensures Minimal(ToSigned(v)) && SignedBig(ToSigned(v)) == v
    ensures |ToSigned(v)| > 1 <==> !(-128 <= v < 128)
    decreases if v < 0 then -v else v
  {
    if !(-128 <= v < 128) {
      var p := ToSigned(v / 256);
      SignedToSigned(v / 256);
      assert ToSigned(v)[..|p|] == p;
      if |p| == 1 {
        assert ToSigned(v) == [p[0], v % 256];
      } else {
        assert ToSigned(v)[0] == p[0] && ToSigned(v)[1] == p[1];
      }
    }
  }

  lemma {:induction false} ToSignedSigned(s: seq<byte>)
    requires Minimal(s)
    ensures ToSigned(SignedBig(s)) == s
    ensures |s| > 1 ==> !(-128 <= SignedBig(s) < 128)
  {
    if |s| > 1 {
      var p := s[..|s| - 1];
      var last := s[|s| - 1];
      if |s| > 2 {
        assert p[0] == s[0] && p[1] == s[1];
      }
      ToSignedSigned(p);
      var v := SignedBig(s);
      assert v == SignedBig(p) * 256 + last;
      assert v / 256 == SignedBig(p) && v % 256 == last;
      assert s == p + [last];
    }
  }
}
