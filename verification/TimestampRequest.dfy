/** The exact RFC 3161 time-stamp request (section 2.4.1): its writer and its reader.
    `digest` is the SHA-256 of the binding; the hash itself is not modelled. */
module TimestampRequest {
  import opened Wrappers
  import opened Bytes
  import opened Der
  import opened Oid

  const POLICY: seq<nat> := [1, 3, 6, 1, 4, 1, 57264, 2]
  const SHA256: seq<nat> := [2, 16, 840, 1, 101, 3, 4, 2, 1]

  function Identifier(oid: seq<nat>): seq<byte>
    requires |oid| >= 2
  {
    Encode(6, Arcs(Fold(oid)))
  }

  function Request(digest: seq<byte>, nonce: int): Option<seq<byte>> {
    if nonce <= 0 || BitLength(nonce) < 256 then None
    else
      var raw := ToWidth(nonce, ByteCount(nonce));
      var signed := if raw != [] && raw[0] >= 128 then [0] + raw else raw;
      var imprint := Encode(48, Encode(48, Identifier(SHA256) + [5, 0]) + Encode(4, digest));
      Some(Encode(48, [2, 1, 1] + imprint + Identifier(POLICY) + Encode(2, signed) + [1, 1, 255]))
  }

  predicate Algorithm(node: Node, oid: seq<nat>, nullable: bool) {
    var fields := Elements(node.content, 0);
    && fields.Some?
    && node.tag == 48
    && fields.value != []
    && Parse(fields.value[0]) == Some(oid)
    && (|fields.value| == 1 || (nullable && |fields.value| == 2 && fields.value[1].raw == [5, 0]))
  }

  function Imprint(node: Node): Option<seq<byte>> {
    var fields :- Elements(node.content, 0);
    if node.tag != 48 || |fields| != 2 || fields[1].tag != 4 || |fields[1].content| != 32 then None
    else if !Algorithm(fields[0], SHA256, true) then None
    else Some(fields[1].content)
  }

  function Query(raw: seq<byte>): Option<(seq<byte>, int)> {
    var root :- Single(raw, 48);
    var fields :- Elements(root.content, 0);
    if |fields| != 5
      || Integer(fields[0]) != Some(1)
      || Parse(fields[2]) != Some(POLICY)
      || fields[4].raw != [1, 1, 255]
    then None
    else
      var nonce :- Integer(fields[3]);
      if nonce <= 0 then None
      else
        var digest :- Imprint(fields[1]);
        Some((digest, nonce))
  }

  // The only two octet strings that mean a given digest and nonce ------------

  /** AlgorithmIdentifier with or without its NULL parameters. */
  function AlgorithmFields(parameters: bool): seq<Node> {
    [Make(6, Arcs(Fold(SHA256)))] + if parameters then [Make(5, [])] else []
  }

  function ImprintFields(digest: seq<byte>, parameters: bool): seq<Node> {
    [Make(48, Raws(AlgorithmFields(parameters))), Make(4, digest)]
  }

  function Fields(digest: seq<byte>, nonce: int, parameters: bool): seq<Node> {
    [ Make(2, [1]),
      Make(48, Raws(ImprintFields(digest, parameters))),
      Make(6, Arcs(Fold(POLICY))),
      Make(2, ToSigned(nonce)),
      Make(1, [255]) ]
  }

  function Form(digest: seq<byte>, nonce: int, parameters: bool): seq<byte> {
    Encode(48, Raws(Fields(digest, nonce, parameters)))
  }

  lemma {:induction false} ArcsShort(values: seq<nat>)
    requires forall i :: 0 <= i < |values| ==> values[i] < 0x20_0000
    ensures |Arcs(values)| <= 3 * |values|
  {
    if values != [] {
      ArcsShort(values[..|values| - 1]);
      var v := values[|values| - 1];
      var w := v / 128;
      assert w / 128 < 128 && High(w / 128 / 128) == [];
      assert |High(w / 128)| <= 1;
    }
  }

  lemma KnownIdentifiers()
    ensures InRange(POLICY) && InRange(SHA256)
    ensures |Arcs(Fold(POLICY))| <= 27 && |Arcs(Fold(SHA256))| <= 27
  {
    ArcsShort(Fold(POLICY));
    ArcsShort(Fold(SHA256));
  }

  lemma RawsOne(a: Node)
    ensures Raws([a]) == a.raw
  {
    assert [a][1..] == [];
  }

  lemma RawsTwo(a: Node, b: Node)
    ensures Raws([a, b]) == a.raw + b.raw
  {
    assert [a, b][1..] == [b];
    RawsOne(b);
  }

  lemma RawsFive(a: Node, b: Node, c: Node, d: Node, e: Node)
    ensures Raws([a, b, c, d, e]) == a.raw + b.raw + c.raw + d.raw + e.raw
  {
    assert [a, b, c, d, e][1..] == [b, c, d, e];
    assert [b, c, d, e][1..] == [c, d, e];
    assert [c, d, e][1..] == [d, e];
    RawsTwo(d, e);
    assert Raws([c, d, e]) == c.raw + d.raw + e.raw;
    assert Raws([b, c, d, e]) == b.raw + c.raw + d.raw + e.raw;
  }

  lemma AlgorithmSize(parameters: bool)
    ensures |Raws(AlgorithmFields(parameters))| <= 31
    ensures AllMade(AlgorithmFields(parameters))
  {
    hide Arcs;
    KnownIdentifiers();
    var oid := Make(6, Arcs(Fold(SHA256)));
    if parameters {
      RawsTwo(oid, Make(5, []));
    } else {
      RawsOne(oid);
    }
  }

  lemma ImprintSize(digest: seq<byte>, parameters: bool)
    requires |digest| == 32
    ensures |Raws(ImprintFields(digest, parameters))| <= 67
    ensures AllMade(ImprintFields(digest, parameters))
  {
    hide Raws, AlgorithmFields;
    AlgorithmSize(parameters);
    RawsTwo(Make(48, Raws(AlgorithmFields(parameters))), Make(4, digest));
  }

  lemma FormSize(digest: seq<byte>, nonce: int, parameters: bool)
    requires |digest| == 32 && |ToSigned(nonce)| <= 65
    ensures |Raws(Fields(digest, nonce, parameters))| < 1000
    ensures AllMade(Fields(digest, nonce, parameters))
  {
    hide Raws, ImprintFields, Arcs, ToSigned;
    ImprintSize(digest, parameters);
    KnownIdentifiers();
    var f := Fields(digest, nonce, parameters);
    RawsFive(f[0], f[1], f[2], f[3], f[4]);
  }

  /** An algorithm identifier is accepted in exactly two encodings. */
  lemma AlgorithmIff(node: Node)
    ensures Algorithm(node, SHA256, true)
        <==> (node.tag == 48 && (node.content == Raws(AlgorithmFields(true))
                                 || node.content == Raws(AlgorithmFields(false))))
  {
    hide Arcs, Raws, Parse, AlgorithmFields;
    if Algorithm(node, SHA256, true) {
      AlgorithmIsForm(node);
    }
    if node.content == Raws(AlgorithmFields(true)) {
      FormIsAlgorithm(node, true);
    }
    if node.content == Raws(AlgorithmFields(false)) {
      FormIsAlgorithm(node, false);
    }
  }

  lemma AlgorithmIsForm(node: Node)
    requires Algorithm(node, SHA256, true)
    ensures node.content == Raws(AlgorithmFields(true)) || node.content == Raws(AlgorithmFields(false))
  {
    hide Arcs, Raws, Parse, Encode;
    var fields := Elements(node.content, 0).value;
    ChildrenIff(node.content, fields);
    ParseIff(fields[0], SHA256);
    if |fields| == 1 {
      assert fields == [fields[0]] + [];
      assert fields == AlgorithmFields(false);
    } else {
      NullNode(fields[1]);
      assert fields == [fields[0]] + [fields[1]];
      assert fields == AlgorithmFields(true);
    }
  }

  lemma FormIsAlgorithm(node: Node, parameters: bool)
    requires node.content == Raws(AlgorithmFields(parameters))
    ensures Algorithm(node, SHA256, true) <==> node.tag == 48
  {
    hide Arcs, Raws, Parse, Encode;
    AlgorithmSize(parameters);
    ChildrenIff(node.content, AlgorithmFields(parameters));
    KnownIdentifiers();
    ParseIff(Make(6, Arcs(Fold(SHA256))), SHA256);
    NullNode(Make(5, []));
  }

  lemma NullNode(node: Node)
    requires node == Make(node.tag, node.content)
    ensures node.raw == [5, 0] <==> node == Make(5, [])
  {
    assert Encode(node.tag, node.content)[0] == node.tag;
  }

  lemma TrueNode(node: Node)
    requires node == Make(node.tag, node.content)
    ensures node.raw == [1, 1, 255] <==> node == Make(1, [255])
  {
    var e := Encode(node.tag, node.content);
    assert e[0] == node.tag && e[1] == Length(|node.content|)[0];
    assert e[|e| - |node.content|..] == node.content;
  }

  lemma ImprintIff(node: Node, digest: seq<byte>)
    requires |digest| == 32
    ensures Imprint(node) == Some(digest)
        <==> (node.tag == 48 && (node.content == Raws(ImprintFields(digest, true))
                                 || node.content == Raws(ImprintFields(digest, false))))
  {
    hide Raws, Algorithm;
    var fields := Elements(node.content, 0);
    if fields.Some? {
      ChildrenIff(node.content, fields.value);
      if |fields.value| == 2 {
        AlgorithmIff(fields.value[0]);
        assert fields.value == [fields.value[0], fields.value[1]];
      }
    }
    forall parameters | node.content == Raws(ImprintFields(digest, parameters))
      ensures fields == Some(ImprintFields(digest, parameters))
    {
      ImprintSize(digest, parameters);
      ChildrenIff(node.content, ImprintFields(digest, parameters));
      AlgorithmIff(ImprintFields(digest, parameters)[0]);
    }
  }

  /** The reader accepts exactly the canonical request of what it returns: for each digest
      and nonce two octet strings, differing only in the optional NULL parameters. */
  lemma QueryIff(raw: seq<byte>, digest: seq<byte>, nonce: int)
    ensures Query(raw) == Some((digest, nonce))
        <==> (&& |digest| == 32 && nonce > 0 && |ToSigned(nonce)| <= 65
              && (raw == Form(digest, nonce, true) || raw == Form(digest, nonce, false)))
  {
    if Query(raw) == Some((digest, nonce)) {
      QueryIsForm(raw, digest, nonce);
    }
    if |digest| == 32 && nonce > 0 && |ToSigned(nonce)| <= 65 {
      FormIsQuery(digest, nonce, true);
      FormIsQuery(digest, nonce, false);
    }
  }

  lemma QueryIsForm(raw: seq<byte>, digest: seq<byte>, nonce: int)
    requires Query(raw) == Some((digest, nonce))
    ensures |digest| == 32 && nonce > 0 && |ToSigned(nonce)| <= 65
    ensures raw == Form(digest, nonce, true) || raw == Form(digest, nonce, false)
  {
    hide Raws, Parse, Integer, Arcs, ToSigned, Encode;
    var root := Single(raw, 48).value;
    var fields := Elements(root.content, 0).value;
    assert |digest| == 32;
    ReadIsDer(raw, 0);
    SingleIff(raw, 48, root.content);
    ChildrenIff(root.content, fields);
    IntegerIff(fields[0], 2, 1);
    OneIsMinimal();
    ParseIff(fields[2], POLICY);
    IntegerIff(fields[3], 2, nonce);
    TrueNode(fields[4]);
    ImprintIff(fields[1], digest);
    assert fields == [fields[0], fields[1], fields[2], fields[3], fields[4]];
  }

  lemma FormIsQuery(digest: seq<byte>, nonce: int, parameters: bool)
    requires |digest| == 32 && nonce > 0 && |ToSigned(nonce)| <= 65
    ensures Query(Form(digest, nonce, parameters)) == Some((digest, nonce))
  {
    hide Raws, Parse, Integer, Arcs, ToSigned, Encode, Imprint, ImprintFields, Single;
    var fields := Fields(digest, nonce, parameters);
    FormSize(digest, nonce, parameters);
    SingleIff(Form(digest, nonce, parameters), 48, Raws(fields));
    ChildrenIff(Raws(fields), fields);
    KnownIdentifiers();
    OneIsMinimal();
    IntegerIff(fields[0], 2, 1);
    ParseIff(fields[2], POLICY);
    IntegerIff(fields[3], 2, nonce);
    TrueNode(fields[4]);
    ImprintIff(fields[1], digest);
  }

  lemma OneIsMinimal()
    ensures ToSigned(1) == [1]
  {
  }

  // The writer produces that form -------------------------------------------

  lemma WriterNonce(nonce: nat)
    requires nonce > 0
    ensures var raw := ToBig(nonce);
      raw != [] && ToSigned(nonce) == if raw[0] >= 128 then [0] + raw else raw
  {
    hide ToSigned, FromBig, ToBig;
    FromToBig(nonce);
    var raw := ToBig(nonce);
    var signed := if raw[0] >= 128 then [0] + raw else raw;
    SignedIsTwosComplement(signed);
    FromBigPad(raw);
    ToSignedSigned(signed);
  }

  lemma {:induction false} FromBigPad(s: seq<byte>)
    ensures FromBig([0] + s) == FromBig(s)
  {
    if s == [] {
      assert ([0] + s)[..0] == [];
      assert FromBig([0]) == FromBig([0][..0]) * 256 + 0;
    } else {
      var p := s[..|s| - 1];
      FromBigPad(p);
      assert ([0] + s)[..|s|] == [0] + p;
    }
  }

  lemma RequestIff(digest: seq<byte>, nonce: int)
    ensures Request(digest, nonce)
         == if nonce > 0 && BitLength(nonce) >= 256 then Some(Form(digest, nonce, true)) else None
  {
    hide Raws, Arcs, ToSigned, ToBig, ToWidth, BitLength, ImprintFields, Encode;
    if nonce > 0 {
      ByteCountShortest(nonce);
      WriterNonce(nonce);
      var f := Fields(digest, nonce, true);
      RawsFive(f[0], f[1], f[2], f[3], f[4]);
      ImprintWritten(digest);
      SmallWritten();
    }
  }

  lemma SmallWritten()
    ensures Encode(2, [1]) == [2, 1, 1] && Encode(1, [255]) == [1, 1, 255] && Encode(5, []) == [5, 0]
  {
  }

  lemma ImprintWritten(digest: seq<byte>)
    ensures Raws(ImprintFields(digest, true)) == Encode(48, Identifier(SHA256) + [5, 0]) + Encode(4, digest)
  {
    hide Raws, Arcs, Encode;
    SmallWritten();
    var g, h := ImprintFields(digest, true), AlgorithmFields(true);
    assert h == [h[0], h[1]];
    RawsTwo(h[0], h[1]);
    RawsTwo(g[0], g[1]);
  }

  lemma {:induction false} SignedSize(v: nat, k: nat)
    requires k > 0
    ensures |ToSigned(v)| <= k <==> v < Pow2(8 * k - 1)
  {
    SignedToSigned(v);
    Pow2Sum(7, 8 * (k - 1));
    assert Pow2(7) == 128;
    Pow2Positive(8 * (k - 1));
    if v >= 128 && k > 1 {
      SignedToSigned(v / 256);
      SignedSize(v / 256, k - 1);
      Pow2Sum(8, 8 * (k - 1) - 1);
      assert Pow2(8) == 256;
    }
  }

  /** Writing then reading gives back the digest and the nonce exactly for nonces of 256 to
      519 bits: shorter ones are refused by the writer, longer ones by the reader. */
  lemma RequestRoundTrip(digest: seq<byte>, nonce: int)
    requires |digest| == 32
    ensures (exists raw :: Request(digest, nonce) == Some(raw) && Query(raw) == Some((digest, nonce)))
        <==> (nonce > 0 && 256 <= BitLength(nonce) <= 519)
  {
    hide Request, Query, Form, ToSigned, BitLength, Pow2;
    RequestIff(digest, nonce);
    if nonce > 0 {
      var raw := Form(digest, nonce, true);
      QueryIff(raw, digest, nonce);
      SignedSize(nonce, 65);
      BitLengthBound(nonce, 519);
      assert Query(raw) == Some((digest, nonce)) <==> BitLength(nonce) <= 519;
    }
  }
}
