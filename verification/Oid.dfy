/** OBJECT IDENTIFIER contents: base-128 arcs (section 8.19 of ITU-T X.690).
    Dotted decimal text is represented by its sequence of arcs. */
module Oid {
  import opened Wrappers
  import opened Bytes
  import opened Der

  const ARC_LIMIT: nat := 0x1_0000_0000_0000_0000

  // Writing -----------------------------------------------------------------

  /** Continuation octets of a value, most significant first. */
  function High(v: nat): seq<byte> {
    if v == 0 then [] else High(v / 128) + [128 + v % 128]
  }

  function Arc(v: nat): seq<byte> {
    High(v / 128) + [v % 128]
  }

  function Arcs(values: seq<nat>): seq<byte> {
    if values == [] then [] else Arcs(values[..|values| - 1]) + Arc(values[|values| - 1])
  }

  /** The first two arcs share one subidentifier. */
  function Fold(arcs: seq<nat>): seq<nat>
    requires |arcs| >= 2
  {
    [40 * arcs[0] + arcs[1]] + arcs[2..]
  }

  function Unfold(values: seq<nat>): seq<nat>
    requires values != []
  {
    var root := if values[0] / 40 < 2 then values[0] / 40 else 2;
    [root, values[0] - root * 40] + values[1..]
  }

  function Reversed(s: seq<byte>): seq<byte> {
    if s == [] then [] else Reversed(s[1..]) + [s[0]]
  }

  /** Collects the groups of each value from the low end, then appends them reversed. */
  method Write(oid: seq<nat>) returns (der: seq<byte>)
    requires |oid| >= 2
    ensures der == Encode(6, Arcs(Fold(oid)))
  {
    var values := Fold(oid);
    var encoded: seq<byte> := [];
    for i := 0 to |values|
      invariant encoded == Arcs(values[..i])
    {
      var value: nat := values[i];
      var group: seq<byte> := [value % 128];
      value := value / 128;
      while value > 0
        invariant High(value) + Reversed(group) == Arc(values[i])
      {
        assert Reversed(group + [128 + value % 128]) == [128 + value % 128] + Reversed(group) by {
          ReversedAppend(group, 128 + value % 128);
        }
        group := group + [128 + value % 128];
        value := value / 128;
      }
      assert High(0) + Reversed(group) == Reversed(group);
      assert values[..i + 1][..i] == values[..i];
      encoded := encoded + Reversed(group);
    }
    assert values[..|values|] == values;
    der := Encode(6, encoded);
  }

  lemma {:induction false} ReversedAppend(s: seq<byte>, b: byte)
    ensures Reversed(s + [b]) == [b] + Reversed(s)
  {
    if s != [] {
      ReversedAppend(s[1..], b);
      assert (s + [b])[1..] == s[1..] + [b];
    }
  }

  // Reading -----------------------------------------------------------------

  /** The loop over content octets, from any state of its two variables. */
  function Scan(content: seq<byte>, arcs: seq<nat>, current: nat, first: bool): Option<seq<nat>> {
    if content == [] then (if first then Some(arcs) else None)
    else if first && content[0] == 128 then None
    else
      var next := current * 128 + content[0] % 128;
      if next >= ARC_LIMIT then None
      else if content[0] < 128 then Scan(content[1..], arcs + [next], 0, true)
      else Scan(content[1..], arcs, next, false)
  }

  function Parse(value: Node): Option<seq<nat>> {
    if value.tag != 6 || value.content == [] then None
    else
      var values :- Scan(value.content, [], 0, true);
      if values == [] then None else Some(Unfold(values))
  }

  method Decode(value: Node) returns (r: Option<seq<nat>>)
    ensures r == Parse(value)
  {
    if value.tag != 6 || value.content == [] {
      return None;
    }
    var content := value.content;
    var arcs: seq<nat>, current: nat, first := [], 0, true;
    for i := 0 to |content|
      invariant Scan(content[i..], arcs, current, first) == Scan(content, [], 0, true)
      invariant first ==> current == 0
      invariant first && i > 0 ==> arcs != []
    {
      assert content[i..][1..] == content[i + 1..];
      var octet := content[i];
      if first && octet == 128 {
        return None;
      }
      current := current * 128 + octet % 128;
      if BitLength(current) > 64 {
        BitLengthBound(current, 64);
        LimitIsPow2();
        return None;
      }
      BitLengthBound(current, 64);
      LimitIsPow2();
      first := octet < 128;
      if first {
        arcs := arcs + [current];
        current := 0;
      }
    }
    if !first {
      return None;
    }
    r := Some(Unfold(arcs));
  }

  lemma LimitIsPow2()
    ensures Pow2(64) == ARC_LIMIT
  {
    Pow2Sum(8, 8);
    assert Pow2(16) == 0x1_0000;
    hide Pow2;
    Pow2Sum(16, 16);
    Pow2Sum(32, 32);
  }

  // The codec is inverse in both directions ----------------------------------

  ghost predicate Bounded(values: seq<nat>) {
    forall i :: 0 <= i < |values| ==> values[i] < ARC_LIMIT
  }

  lemma {:induction false} ScanHigh(v: nat, arcs: seq<nat>, rest: seq<byte>)
    requires 0 < v < ARC_LIMIT
    ensures Scan(High(v) + rest, arcs, 0, true) == Scan(rest, arcs, v, false)
  {
    var last := [128 + v % 128] + rest;
    assert High(v) + rest == High(v / 128) + last;
    if v >= 128 {
      ScanHigh(v / 128, arcs, last);
    } else {
      assert High(v / 128) == [];
    }
    assert last[1..] == rest;
  }

  lemma ScanArc(v: nat, arcs: seq<nat>, rest: seq<byte>)
    requires v < ARC_LIMIT
    ensures Scan(Arc(v) + rest, arcs, 0, true) == Scan(rest, arcs + [v], 0, true)
  {
    var last := [v % 128] + rest;
    assert Arc(v) + rest == High(v / 128) + last;
    if v >= 128 {
      ScanHigh(v / 128, arcs, last);
    }
    assert last[1..] == rest;
  }

  lemma {:induction false} ScanArcs(values: seq<nat>, rest: seq<byte>)
    requires Bounded(values)
    ensures Scan(Arcs(values) + rest, [], 0, true) == Scan(rest, values, 0, true)
  {
    if values == [] {
      assert Arcs(values) + rest == rest;
    } else {
      var front, v := values[..|values| - 1], values[|values| - 1];
      assert Arcs(values) + rest == Arcs(front) + (Arc(v) + rest);
      ScanArcs(front, Arc(v) + rest);
      ScanArc(v, front, rest);
      assert front + [v] == values;
    }
  }

  /** One octet moves from the unread content into the octets of what was decoded so far. */
  lemma OctetMoves(arcs: seq<nat>, current: nat, octet: byte, rest: seq<byte>)
    requires current == 0 ==> octet != 128
    ensures var next := current * 128 + octet % 128;
      var whole := Arcs(arcs) + High(current) + ([octet] + rest);
      if octet < 128 then Arcs(arcs + [next]) + High(0) + rest == whole
      else next > 0 && Arcs(arcs) + High(next) + rest == whole
  {
    var next := current * 128 + octet % 128;
    assert next / 128 == current && next % 128 == octet % 128;
    var whole := Arcs(arcs) + High(current) + ([octet] + rest);
    if octet < 128 {
      assert (arcs + [next])[..|arcs|] == arcs;
      assert Arcs(arcs + [next]) == Arcs(arcs) + (High(current) + [octet]);
      assert Arcs(arcs + [next]) + High(0) + rest == whole;
    } else {
      assert High(next) == High(current) + [octet];
      assert Arcs(arcs) + High(next) + rest == whole;
    }
  }

  /** Accepted contents are exactly the writer's octets for what was decoded. */
  lemma {:induction false} ScanIsArcs(content: seq<byte>, arcs: seq<nat>, current: nat, first: bool)
    requires Bounded(arcs) && (first <==> current == 0)
    ensures var r := Scan(content, arcs, current, first);
      r.Some? ==> Bounded(r.value) && Arcs(r.value) == Arcs(arcs) + High(current) + content
  {
    hide Arcs, Arc;
    if content == [] {
      assert Arcs(arcs) + [] + [] == Arcs(arcs);
    } else if Scan(content, arcs, current, first).Some? {
      hide High;
      var next := current * 128 + content[0] % 128;
      assert content == [content[0]] + content[1..];
      OctetMoves(arcs, current, content[0], content[1..]);
      if content[0] < 128 {
        ScanIsArcs(content[1..], arcs + [next], 0, true);
      } else {
        ScanIsArcs(content[1..], arcs, next, false);
      }
    }
  }

  lemma ScanIff(content: seq<byte>, values: seq<nat>)
    ensures Scan(content, [], 0, true) == Some(values) <==> (Bounded(values) && content == Arcs(values))
  {
    ScanIsArcs(content, [], 0, true);
    assert Arcs([]) + High(0) + content == content;
    if Bounded(values) && content == Arcs(values) {
      ScanArcs(values, []);
      assert content + [] == content;
    }
  }

  /** Identifiers in the codec's range: root 0, 1 or 2, second arc below 40 under
      roots 0 and 1, and every subidentifier below 2 to the 64. */
  ghost predicate InRange(oid: seq<nat>) {
    && |oid| >= 2
    && oid[0] <= 2
    && (oid[0] < 2 ==> oid[1] < 40)
    && Bounded(Fold(oid))
  }

  /** Decoding gives an identifier exactly when it is in range and the content is its
      encoding, so the two directions are inverse and no identifier has two encodings. */
  lemma ParseIff(value: Node, oid: seq<nat>)
    ensures Parse(value) == Some(oid)
        <==> (value.tag == 6 && InRange(oid) && value.content == Arcs(Fold(oid)))
  {
    if value.tag == 6 && value.content != [] && Scan(value.content, [], 0, true).Some? {
      var values := Scan(value.content, [], 0, true).value;
      ScanIff(value.content, values);
      if values != [] {
        var arcs := Unfold(values);
        assert arcs[2..] == values[1..];
        assert Fold(arcs) == values;
      }
    }
    if value.tag == 6 && InRange(oid) && value.content == Arcs(Fold(oid)) {
      ScanIff(value.content, Fold(oid));
      assert Fold(oid)[1..] == oid[2..];
      assert Unfold(Fold(oid)) == oid;
      assert Arc(Fold(oid)[|Fold(oid)| - 1]) != [];
    }
  }
}
