/** The wire forms written out octet by octet: DER headers, the two identifiers of a time-stamp
    request, the request itself, UTF-8 sequences and canonical JSON. */
module WireForms {
  import opened Wrappers
  import opened Bytes
  import opened Der
  import opened Oid
  import opened TimestampRequest
  import opened TufJson
  import Order
  import Utf8

  // DER headers -------------------------------------------------------------

  lemma TwoOctets(n: nat)
    requires 128 <= n < 0x1_0000
    ensures ToBig(n) == if n < 256 then [n] else [n / 256, n % 256]
  {
    assert ToBig(n) == ToBig(n / 256) + [n % 256];
    if n >= 256 { assert ToBig(n / 256) == ToBig(0) + [n / 256]; }
  }

  lemma FourOctets(n: nat)
    requires 0x1_0000 <= n < 0x1_0000_0000
    ensures ToBig(n) ==
      if n < 0x100_0000 then [n / 0x1_0000, n / 256 % 256, n % 256]
      else [n / 0x100_0000, n / 0x1_0000 % 256, n / 256 % 256, n % 256]
  {
    var m := n / 256;
    assert ToBig(n) == ToBig(m) + [n % 256];
    assert ToBig(m) == ToBig(m / 256) + [m % 256];
    assert m / 256 == n / 0x1_0000;
    if n < 0x100_0000 {
      assert ToBig(m / 256) == ToBig(0) + [m / 256];
    } else {
      assert m / 256 / 256 == n / 0x100_0000;
      assert ToBig(m / 256) == ToBig(m / 256 / 256) + [m / 256 % 256];
      assert ToBig(m / 256 / 256) == ToBig(0) + [m / 256 / 256];
    }
  }

  /** An element is its tag, a length of one, two, three, four or five octets, and its content. */
  lemma HeaderOctets(tag: byte, content: seq<byte>)
    requires |content| < 0x1_0000_0000
    ensures var n := |content|;
      Encode(tag, content) ==
        (if n < 0x80 then [tag, n]
         else if n < 0x100 then [tag, 0x81, n]
         else if n < 0x1_0000 then [tag, 0x82, n / 0x100, n % 0x100]
         else if n < 0x100_0000 then [tag, 0x83, n / 0x1_0000, n / 0x100 % 0x100, n % 0x100]
         else [tag, 0x84, n / 0x100_0000, n / 0x1_0000 % 0x100, n / 0x100 % 0x100, n % 0x100]) + content
  {
    hide ToBig, ToWidth, BitLength;
    var n := |content|;
    LengthIsShortest(n);
    if n >= 0x1_0000 {
      FourOctets(n);
    } else if n >= 128 {
      TwoOctets(n);
    }
  }

  // The time-stamp request --------------------------------------------------

  const SHA256_OCTETS: seq<byte> := [0x60, 0x86, 0x48, 0x01, 0x65, 0x03, 0x04, 0x02, 0x01]
  const POLICY_OCTETS: seq<byte> := [0x2B, 0x06, 0x01, 0x04, 0x01, 0x83, 0xBF, 0x30, 0x02]

  lemma ArcOctets(v: nat)
    ensures v < 128 ==> Arc(v) == [v]
    ensures 128 <= v < 0x4000 ==> Arc(v) == [0x80 + v / 128, v % 128]
    ensures 0x4000 <= v < 0x20_0000 ==> Arc(v) == [0x80 + v / 0x4000, 0x80 + v / 128 % 128, v % 128]
  {
    var w := v / 128;
    assert v < 128 ==> High(w) == [];
    if 128 <= v < 0x20_0000 {
      assert High(w) == High(w / 128) + [128 + w % 128];
      assert w < 128 ==> High(w / 128) == [];
      if w >= 128 {
        assert w / 128 == v / 0x4000;
        assert High(w / 128) == High(w / 128 / 128) + [128 + w / 128 % 128];
        assert High(w / 128 / 128) == [];
      }
    }
  }

  lemma ArcsAppend(values: seq<nat>, v: nat)
    ensures Arcs(values + [v]) == Arcs(values) + Arc(v)
  {
    assert (values + [v])[..|values|] == values;
  }

  /** The two object identifiers as they stand on the wire. */
  lemma IdentifierOctets()
    ensures Arcs(Fold(SHA256)) == SHA256_OCTETS && Arcs(Fold(POLICY)) == POLICY_OCTETS
  {
    hide Arcs, Arc;
    FoldedSha();
    FoldedPolicy();
  }

  lemma FoldedSha()
    ensures Arcs(Fold(SHA256)) == SHA256_OCTETS
  {
    hide Arc;
    var s := Fold(SHA256);
    assert s == [96, 840, 1, 101, 3, 4, 2, 1];
    EightArcs(96, 840, 1, 101, 3, 4, 2, 1);
    ArcOctets(840);
    ArcOctets(96);
    ArcOctets(101);
    ArcOctets(1);
    ArcOctets(2);
    ArcOctets(3);
    ArcOctets(4);
  }

  lemma FoldedPolicy()
    ensures Arcs(Fold(POLICY)) == POLICY_OCTETS
  {
    hide Arc;
    var s := Fold(POLICY);
    assert s == [43, 6, 1, 4, 1, 57264, 2];
    SevenArcs(43, 6, 1, 4, 1, 57264, 2);
    ArcOctets(57264);
    ArcOctets(43);
    ArcOctets(6);
    ArcOctets(1);
    ArcOctets(2);
    ArcOctets(4);
  }

  lemma SevenArcs(a: nat, b: nat, c: nat, d: nat, e: nat, f: nat, g: nat)
    ensures Arcs([a, b, c, d, e, f, g]) == Arc(a) + Arc(b) + Arc(c) + Arc(d) + Arc(e) + Arc(f) + Arc(g)
  {
    hide Arc, Arcs;
    NoArcs();
    ArcsAppend([], a);
    ArcsAppend([a], b);
    ArcsAppend([a, b], c);
    ArcsAppend([a, b, c], d);
    ArcsAppend([a, b, c, d], e);
    ArcsAppend([a, b, c, d, e], f);
    ArcsAppend([a, b, c, d, e, f], g);
    assert [] + [a] == [a] && [a] + [b] == [a, b] && [a, b] + [c] == [a, b, c];
    assert [a, b, c] + [d] == [a, b, c, d] && [a, b, c, d] + [e] == [a, b, c, d, e];
    assert [a, b, c, d, e] + [f] == [a, b, c, d, e, f] && [a, b, c, d, e, f] + [g] == [a, b, c, d, e, f, g];
  }

  lemma EightArcs(a: nat, b: nat, c: nat, d: nat, e: nat, f: nat, g: nat, h: nat)
    ensures Arcs([a, b, c, d, e, f, g, h]) ==
      Arc(a) + Arc(b) + Arc(c) + Arc(d) + Arc(e) + Arc(f) + Arc(g) + Arc(h)
  {
    hide Arc, Arcs;
    SevenArcs(a, b, c, d, e, f, g);
    ArcsAppend([a, b, c, d, e, f, g], h);
    assert [a, b, c, d, e, f, g] + [h] == [a, b, c, d, e, f, g, h];
  }

  lemma NoArcs()
    ensures Arcs([]) == []
  {
  }

  /** An identifier is read exactly from its octets: root 0, 1 or 2, a second arc below 40 under
      the first two, no subidentifier of 2 to the 64 or more. */
  lemma IdentifierRead(value: Node, oid: seq<nat>)
    ensures Parse(value) == Some(oid) <==>
      && value.tag == 0x06 && |oid| >= 2 && oid[0] <= 2 && (oid[0] < 2 ==> oid[1] < 40)
      && 40 * oid[0] + oid[1] < 18446744073709551616
      && (forall i :: 2 <= i < |oid| ==> oid[i] < 18446744073709551616)
      && value.content == Arcs([40 * oid[0] + oid[1]] + oid[2..])
  {
    hide Arcs;
    ParseIff(value, oid);
    if |oid| >= 2 {
      var folded := Fold(oid);
      assert folded[0] == 40 * oid[0] + oid[1];
      assert forall i :: 2 <= i < |oid| ==> folded[i - 1] == oid[i];
      assert forall i :: 1 <= i < |folded| ==> folded[i] == oid[i + 1];
    }
  }

  /** SHA-256, with or without NULL parameters, and the header of its 32 octets. */
  function ImprintHead(parameters: bool): seq<byte> {
    if parameters then
      [0x30, 0x31, 0x30, 0x0D, 0x06, 0x09, 0x60, 0x86, 0x48, 0x01, 0x65, 0x03, 0x04, 0x02, 0x01, 0x05, 0x00, 0x04, 0x20]
    else
      [0x30, 0x2F, 0x30, 0x0B, 0x06, 0x09, 0x60, 0x86, 0x48, 0x01, 0x65, 0x03, 0x04, 0x02, 0x01, 0x04, 0x20]
  }

  /** The request in full: version 1, the digest, the policy, the nonce and the demand for
      certificates. */
  function Layout(digest: seq<byte>, nonce: seq<byte>, parameters: bool): seq<byte>
    requires |digest| == 32 && |nonce| <= 65
  {
    var size := |nonce| + if parameters then 70 else 68;
    (if size < 0x80 then [0x30, size] else [0x30, 0x81, size])
    + ([0x02, 0x01, 0x01]
       + (ImprintHead(parameters) + digest)
       + [0x06, 0x09, 0x2B, 0x06, 0x01, 0x04, 0x01, 0x83, 0xBF, 0x30, 0x02]
       + ([0x02, |nonce|] + nonce)
       + [0x01, 0x01, 0xFF])
  }

  lemma AlgorithmOctets(parameters: bool)
    ensures Raws(AlgorithmFields(parameters)) ==
      if parameters then [0x06, 0x09, 0x60, 0x86, 0x48, 0x01, 0x65, 0x03, 0x04, 0x02, 0x01, 0x05, 0x00]
      else [0x06, 0x09, 0x60, 0x86, 0x48, 0x01, 0x65, 0x03, 0x04, 0x02, 0x01]
  {
    hide Encode, Raws, Arcs;
    IdentifierOctets();
    ShaOctets();
    HeaderOctets(5, []);
    RawsOne(Make(6, SHA256_OCTETS));
    RawsTwo(Make(6, SHA256_OCTETS), Make(5, []));
    assert AlgorithmFields(false) == [Make(6, SHA256_OCTETS)];
    assert AlgorithmFields(true) == [Make(6, SHA256_OCTETS), Make(5, [])];
  }

  lemma ShaOctets()
    ensures Encode(6, SHA256_OCTETS) == [0x06, 0x09, 0x60, 0x86, 0x48, 0x01, 0x65, 0x03, 0x04, 0x02, 0x01]
  {
    hide Encode;
    HeaderOctets(6, SHA256_OCTETS);
  }

  lemma AlgorithmHead(parameters: bool)
    ensures Encode(48, Raws(AlgorithmFields(parameters))) ==
      if parameters then
        [0x30, 0x0D, 0x06, 0x09, 0x60, 0x86, 0x48, 0x01, 0x65, 0x03, 0x04, 0x02, 0x01, 0x05, 0x00]
      else [0x30, 0x0B, 0x06, 0x09, 0x60, 0x86, 0x48, 0x01, 0x65, 0x03, 0x04, 0x02, 0x01]
  {
    hide Encode, AlgorithmFields, Raws;
    AlgorithmOctets(parameters);
    HeaderOctets(48, Raws(AlgorithmFields(parameters)));
  }

  lemma ImprintOctets(digest: seq<byte>, parameters: bool)
    requires |digest| == 32
    ensures Encode(48, Raws(ImprintFields(digest, parameters))) == ImprintHead(parameters) + digest
  {
    hide Encode, AlgorithmFields, Raws;
    AlgorithmHead(parameters);
    var a := Raws(AlgorithmFields(parameters));
    var head := Encode(48, a);
    HeaderOctets(4, digest);
    RawsTwo(Make(48, a), Make(4, digest));
    assert |head + [0x04, 0x20] + digest| == if parameters then 49 else 47;
    HeaderOctets(48, head + ([0x04, 0x20] + digest));
    HeadSplit(parameters, head);
    assert head + ([0x04, 0x20] + digest) == head + [0x04, 0x20] + digest;
    var front := if parameters then [0x30, 0x31] else [0x30, 0x2F];
    assert front + (head + [0x04, 0x20] + digest) == front + head + [0x04, 0x20] + digest;
  }

  lemma HeadSplit(parameters: bool, head: seq<byte>)
    requires head ==
      if parameters then
        [0x30, 0x0D, 0x06, 0x09, 0x60, 0x86, 0x48, 0x01, 0x65, 0x03, 0x04, 0x02, 0x01, 0x05, 0x00]
      else [0x30, 0x0B, 0x06, 0x09, 0x60, 0x86, 0x48, 0x01, 0x65, 0x03, 0x04, 0x02, 0x01]
    ensures (if parameters then [0x30, 0x31] else [0x30, 0x2F]) + head + [0x04, 0x20] == ImprintHead(parameters)
  {
  }

  /** The admissible form is the layout. */
  lemma FormOctets(digest: seq<byte>, nonce: int, parameters: bool)
    requires |digest| == 32 && |ToSigned(nonce)| <= 65
    ensures Form(digest, nonce, parameters) == Layout(digest, ToSigned(nonce), parameters)
  {
    hide Encode, ImprintFields, Raws, ToSigned, Arcs, ImprintHead;
    var n := ToSigned(nonce);
    var imprint := Raws(ImprintFields(digest, parameters));
    ImprintOctets(digest, parameters);
    SmallOctets();
    HeaderOctets(2, n);
    RawsFive(Make(2, [1]), Make(48, imprint), Make(6, POLICY_OCTETS), Make(2, n), Make(1, [255]));
    IdentifierOctets();
    HeadSize(parameters);
    HeaderOctets(48, Raws(TimestampRequest.Fields(digest, nonce, parameters)));
  }

  lemma HeadSize(parameters: bool)
    ensures |ImprintHead(parameters)| == if parameters then 19 else 17
  {
  }

  lemma SmallOctets()
    ensures Encode(2, [1]) == [0x02, 0x01, 0x01] && Encode(1, [255]) == [0x01, 0x01, 0xFF]
    ensures Encode(6, POLICY_OCTETS) == [0x06, 0x09, 0x2B, 0x06, 0x01, 0x04, 0x01, 0x83, 0xBF, 0x30, 0x02]
  {
    hide Encode;
    HeaderOctets(2, [1]);
    HeaderOctets(1, [255]);
    HeaderOctets(6, POLICY_OCTETS);
  }

  /** A request is read exactly from its two layouts, with a positive nonce of at most 65 octets. */
  lemma QueryOctets(raw: seq<byte>, digest: seq<byte>, nonce: int)
    ensures Query(raw) == Some((digest, nonce)) <==>
      && |digest| == 32 && nonce > 0 && |ToSigned(nonce)| <= 65
      && (raw == Layout(digest, ToSigned(nonce), true) || raw == Layout(digest, ToSigned(nonce), false))
  {
    hide Query, Form, Layout, ToSigned;
    QueryIff(raw, digest, nonce);
    if |digest| == 32 && |ToSigned(nonce)| <= 65 {
      FormOctets(digest, nonce, true);
      FormOctets(digest, nonce, false);
    }
  }

  lemma NonceFloor(nonce: nat)
    ensures BitLength(nonce) >= 256 <==>
      nonce >= 0x8000000000000000000000000000000000000000000000000000000000000000
  {
    hide Pow2, BitLength;
    LimitIsPow2();
    Pow2Sum(64, 64);
    Pow2Sum(128, 127);
    Pow2Sum(64, 63);
    Pow2Sum(63, 1);
    PowOne();
    assert Pow2(128) == 0x1_0000_0000_0000_0000_0000_0000_0000_0000;
    assert Pow2(63) == 0x8000_0000_0000_0000;
    assert Pow2(127) == 0x8000_0000_0000_0000_0000_0000_0000_0000;
    BitLengthBound(nonce, 255);
  }

  lemma PowOne()
    ensures Pow2(1) == 2
  {
  }

  /** A request is written exactly for a nonce of at least 2 to the 255, in the layout with NULL
      parameters. */
  lemma RequestOctets(digest: seq<byte>, nonce: int)
    requires |digest| == 32 && |ToSigned(nonce)| <= 65
    ensures Request(digest, nonce) ==
      if nonce >= 0x8000000000000000000000000000000000000000000000000000000000000000
      then Some(Layout(digest, ToSigned(nonce), true)) else None
  {
    hide Request, Form, Layout, ToSigned, BitLength;
    RequestIff(digest, nonce);
    FormOctets(digest, nonce, true);
    if nonce > 0 { NonceFloor(nonce); }
  }

  // UTF-8 and canonical JSON ------------------------------------------------

  /** The octets of a character by its range, bit group by bit group. */
  lemma Utf8Octets(c: char)
    ensures var n := c as int;
      Utf8.Encode(c) ==
        if n < 0x80 then [n]
        else if n < 0x800 then [0xC0 + n / 0x40, 0x80 + n % 0x40]
        else if n < 0x1_0000 then [0xE0 + n / 0x1000, 0x80 + n / 0x40 % 0x40, 0x80 + n % 0x40]
        else [0xF0 + n / 0x4_0000, 0x80 + n / 0x1000 % 0x40, 0x80 + n / 0x40 % 0x40, 0x80 + n % 0x40]
  {
    var n := c as int;
    assert n / 0x40 / 0x40 == n / 0x1000 && n / 0x1000 / 0x40 == n / 0x4_0000;
  }

  /** Decimal digits without leading zeros, with a minus sign where there is one. */
  lemma NumberText(n: int)
    ensures 0 <= n < 10 ==> Text(Int(n)) == ["0123456789"[n]]
    ensures n >= 10 ==> Text(Int(n)) == Text(Int(n / 10)) + ["0123456789"[n % 10]]
    ensures n < 0 ==> Text(Int(n)) == "-" + Text(Int(-n))
  {
    DigitIs(n % 10);
    if 0 <= n < 10 { DigitIs(n); }
  }

  lemma DigitIs(d: nat)
    requires d < 10
    ensures Digit(d) == "0123456789"[d]
  {
  }

  /** A string is quoted, each quotation mark and each backslash behind a backslash. */
  lemma StringText(s: string)
    ensures Text(Str(s)) == "\"" + Escaped(s) + "\""
  {
    QuoteEscapes(s);
  }

  lemma ItemsMore(x: Json, rest: seq<Json>)
    ensures Items([x]) == Text(x)
    ensures rest != [] ==> Items([x] + rest) == Text(x) + "," + Items(rest)
  {
    hide Text;
    assert ([x] + rest)[1..] == rest;
  }

  /** An array is its elements between brackets, a comma between any two. */
  lemma ListText(x: Json, y: Json, z: Json)
    ensures Text(List([x, y, z])) == "[" + (Text(x) + "," + (Text(y) + "," + Text(z))) + "]"
  {
    hide Items;
    ItemsMore(x, [y, z]);
    ItemsMore(y, [z]);
    ItemsMore(z, []);
    assert [x] + [y, z] == [x, y, z] && [y] + [z] == [y, z];
  }

  lemma FieldsMore(v: Json, key: string, rest: seq<string>)
    requires v.Object? && key in v.fields && forall k :: k in rest ==> k in v.fields
    ensures TufJson.Fields(v, [key]) == Quote(key) + ":" + Text(v.fields[key])
    ensures rest != [] ==>
      TufJson.Fields(v, [key] + rest) == Quote(key) + ":" + Text(v.fields[key]) + "," + TufJson.Fields(v, rest)
  {
    hide Text, Quote;
    assert ([key] + rest)[1..] == rest;
  }

  /** An object is its entries between braces, in ascending order of their keys however it was
      built, with a colon in each and a comma between any two. */
  lemma ObjectText(j: string, x: Json, k: string, y: Json)
    requires Order.Less(j, k)
    ensures Text(Object(map[k := y, j := x])) ==
      "{" + (Text(Str(j)) + ":" + Text(x) + "," + (Text(Str(k)) + ":" + Text(y))) + "}"
  {
    hide Quote, TufJson.Fields;
    var v := Object(map[k := y, j := x]);
    Order.LessTotal(j, k);
    KeysSorted(j, k);
    assert v.fields.Keys == {j, k};
    FieldsMore(v, j, [k]);
    FieldsMore(v, k, []);
    assert [j] + [k] == [j, k];
  }

  lemma KeysSorted(j: string, k: string)
    requires Order.Less(j, k)
    ensures Order.Sorted({j, k}) == [j, k]
  {
    hide Order.Less;
    forall x ensures x in [j, k] <==> x in Order.Sorted({j, k}) {
      assert x in {j, k} <==> x in Order.Sorted({j, k});
    }
    Order.AscendingUnique([j, k], Order.Sorted({j, k}));
  }

  /** The three words. */
  lemma WordText()
    ensures Text(Null) == "null" && Text(Bool(true)) == "true" && Text(Bool(false)) == "false"
    ensures Text(List([])) == "[]" && Text(Object(map[])) == "{}"
  {
    hide Order.Less;
    var none: map<string, Json> := map[];
    assert none.Keys == {};
    Order.SortedSize({});
  }
}
