/** The second, laxer DER reader used for received tokens, compared with the strict one. */
module LaxDer {
  import opened Wrappers
  import opened Bytes
  import Der
  import Oid

  datatype Item = Item(tag: byte, content: seq<byte>, start: nat, contentStart: nat, end: nat, raw: seq<byte>) {
    function Strict(): Der.Node {
      Der.Node(tag, content, raw)
    }
  }

  function Tlv(content: seq<byte>, offset: nat): (r: Option<Item>)
    ensures r.Some? ==> offset + 2 <= r.value.end <= |content| && r.value.start == offset
  {
    if offset >= |content| || offset + 1 >= |content| then None
    else
      var tag, first := content[offset], content[offset + 1];
      if first < 0x80 then Field(content, offset, tag, offset + 2, first)
      else
        var width := first % 128;
        if width == 0 || width > 4 || offset + 2 + width > |content| then None
        else
          var size := FromBig(content[offset + 2..offset + 2 + width]);
          if size < 0x80 then None
          else Field(content, offset, tag, offset + 2 + width, size)
  }

  function Field(content: seq<byte>, offset: nat, tag: byte, cursor: nat, size: nat): (r: Option<Item>)
    requires offset <= cursor
    ensures r.Some? ==> r.value.end == cursor + size <= |content| && r.value.start == offset
  {
    var end := cursor + size;
    if end > |content| then None
    else Some(Item(tag, content[cursor..end], offset, cursor, end, content[offset..end]))
  }

  function Items(content: seq<byte>, cursor: nat): Option<seq<Item>>
    decreases |content| - cursor
  {
    if cursor >= |content| then Some([])
    else
      var item :- Tlv(content, cursor);
      var rest :- Items(content, item.end);
      Some([item] + rest)
  }

  method Children(content: seq<byte>) returns (r: Option<seq<Item>>)
    ensures r == Items(content, 0)
  {
    var items: seq<Item> := [];
    var cursor := 0;
    if Items(content, 0).Some? {
      assert items + Items(content, 0).value == Items(content, 0).value;
    }
    while cursor < |content|
      invariant cursor <= |content|
      invariant var rest := Items(content, cursor);
        Items(content, 0) == if rest.Some? then Some(items + rest.value) else None
      decreases |content| - cursor
    {
      var item := Tlv(content, cursor);
      if item.None? {
        return None;
      }
      ghost var rest := Items(content, item.value.end);
      if rest.Some? {
        assert items + ([item.value] + rest.value) == items + [item.value] + rest.value;
      }
      cursor := item.value.end;
      items := items + [item.value];
    }
    assert items + [] == items;
    r := Some(items);
  }

  /** The strict reader accepts what this one accepts, with the same tag, content, end and
      raw bytes, except high tag numbers and lengths padded with a leading zero. */
  lemma ReadIff(raw: seq<byte>, offset: nat, node: Der.Node, end: nat)
    ensures Der.Read(raw, offset) == Some((node, end)) <==>
      && Tlv(raw, offset).Some?
      && Tlv(raw, offset).value.Strict() == node
      && Tlv(raw, offset).value.end == end
      && node.tag % 32 != 31
      && (raw[offset + 1] >= 128 ==> raw[offset + 2] != 0)
  {
    hide FromBig;
  }

  function StrictNodes(items: seq<Item>): seq<Der.Node> {
    seq(|items|, i requires 0 <= i < |items| => items[i].Strict())
  }

  /** Every split the strict reader makes, this one makes too, piece by piece. */
  lemma {:induction false} StrictSplitIsSplit(content: seq<byte>, offset: nat)
    ensures Der.Elements(content, offset).Some? ==>
      && Items(content, offset).Some?
      && StrictNodes(Items(content, offset).value) == Der.Elements(content, offset).value
    decreases |content| - offset
  {
    hide Der.Read, Tlv;
    if offset < |content| && Der.Elements(content, offset).Some? {
      var (node, end) := Der.Read(content, offset).value;
      ReadIff(content, offset, node, end);
      StrictSplitIsSplit(content, end);
    }
  }

  // OBJECT IDENTIFIER -------------------------------------------------------

  function Scan(content: seq<byte>, values: seq<nat>, current: nat): Option<seq<nat>> {
    if content == [] then (if current != 0 then None else Some(values))
    else
      var next := current * 128 + content[0] % 128;
      if content[0] < 128 then Scan(content[1..], values + [next], 0)
      else Scan(content[1..], values, next)
  }

  function Parse(item: Item): Option<seq<nat>> {
    if item.tag != 6 || item.content == [] then None
    else
      var values :- Scan(item.content, [], 0);
      if values == [] then None else Some(Oid.Unfold(values))
  }

  method Decode(item: Item) returns (r: Option<seq<nat>>)
    ensures r == Parse(item)
  {
    if item.tag != 6 || item.content == [] {
      return None;
    }
    var content := item.content;
    var values: seq<nat>, current: nat := [], 0;
    for i := 0 to |content|
      invariant Scan(content[i..], values, current) == Scan(content, [], 0)
    {
      assert content[i..][1..] == content[i + 1..];
      current := current * 128 + content[i] % 128;
      if content[i] < 128 {
        values := values + [current];
        current := 0;
      }
    }
    if current != 0 || values == [] {
      return None;
    }
    r := Some(Oid.Unfold(values));
  }

  lemma {:induction false} ScanAgrees(content: seq<byte>, values: seq<nat>, current: nat, first: bool)
    requires first ==> current == 0
    ensures Oid.Scan(content, values, current, first).Some? ==>
      Scan(content, values, current) == Oid.Scan(content, values, current, first)
  {
    if content != [] && Oid.Scan(content, values, current, first).Some? {
      var next := current * 128 + content[0] % 128;
      if content[0] < 128 {
        ScanAgrees(content[1..], values + [next], 0, true);
      } else {
        ScanAgrees(content[1..], values, next, false);
      }
    }
  }

  /** This reader returns the strict reader's identifier for every content that one accepts. */
  lemma ParseAgrees(item: Item)
    ensures Oid.Parse(item.Strict()).Some? ==> Parse(item) == Oid.Parse(item.Strict())
  {
    ScanAgrees(item.content, [], 0, true);
  }

  // Where the decoder is one-to-one -----------------------------------------

  /** The octet 0x80 pads a group when it is the first of it. */
  predicate Unpadded(content: seq<byte>, inside: bool, i: nat)
    requires i < |content|
  {
    content[i] == 128 ==> if i == 0 then inside else content[i - 1] >= 128
  }

  /** The checks the loop does not make: no group of octets starts with 0x80, and the last octet
      ends its group. `inside` says whether a group is already open. */
  predicate CleanFrom(content: seq<byte>, inside: bool) {
    && (forall i :: 0 <= i < |content| ==> Unpadded(content, inside, i))
    && (if content == [] then !inside else content[|content| - 1] < 128)
  }

  predicate Clean(content: seq<byte>) {
    CleanFrom(content, false)
  }

  lemma CleanStep(content: seq<byte>, inside: bool)
    requires content != []
    ensures CleanFrom(content, inside) <==>
      (content[0] == 128 ==> inside) && CleanFrom(content[1..], content[0] >= 128)
  {
    var rest, open := content[1..], content[0] >= 128;
    assert forall i :: 0 < i < |content| ==> (Unpadded(content, inside, i) <==> Unpadded(rest, open, i - 1));
    assert Unpadded(content, inside, 0) <==> (content[0] == 128 ==> inside);
    assert (if rest == [] then !open else rest[|rest| - 1] < 128) <==> content[|content| - 1] < 128;
    forall i | 0 <= i < |rest| ensures Unpadded(rest, open, i) <==> Unpadded(content, inside, i + 1) {
    }
  }

  /** Clean accepted octets are the shortest groups of what they decode to. */
  lemma {:induction false} CleanIsArcs(content: seq<byte>, values: seq<nat>, current: nat)
    requires CleanFrom(content, current != 0)
    ensures var r := Scan(content, values, current);
      r.Some? ==> Oid.Arcs(r.value) == Oid.Arcs(values) + Oid.High(current) + content
  {
    hide CleanFrom, Oid.Arcs, Oid.Arc;
    if content == [] {
      assert Oid.Arcs(values) + Oid.High(0) + [] == Oid.Arcs(values);
    } else {
      hide Oid.High;
      var next := current * 128 + content[0] % 128;
      CleanStep(content, current != 0);
      assert content == [content[0]] + content[1..];
      Oid.OctetMoves(values, current, content[0], content[1..]);
      if content[0] < 128 {
        CleanIsArcs(content[1..], values + [next], 0);
      } else {
        CleanIsArcs(content[1..], values, next);
      }
    }
  }

  lemma {:induction false} ScanHigh(v: nat, values: seq<nat>, rest: seq<byte>)
    ensures Scan(Oid.High(v) + rest, values, 0) == Scan(rest, values, v)
    ensures CleanFrom(rest, v > 0) ==> CleanFrom(Oid.High(v) + rest, false)
  {
    hide CleanFrom;
    if v == 0 {
      assert Oid.High(v) + rest == rest;
    } else {
      var last := [128 + v % 128] + rest;
      assert Oid.High(v) + rest == Oid.High(v / 128) + last;
      assert last[1..] == rest && last[0] == 128 + v % 128;
      ScanHigh(v / 128, values, last);
      CleanStep(last, v / 128 > 0);
    }
  }

  lemma ScanArc(v: nat, values: seq<nat>, rest: seq<byte>)
    ensures Scan(Oid.Arc(v) + rest, values, 0) == Scan(rest, values + [v], 0)
    ensures CleanFrom(rest, false) ==> CleanFrom(Oid.Arc(v) + rest, false)
  {
    hide CleanFrom, Oid.High;
    var last := [v % 128] + rest;
    assert Oid.Arc(v) + rest == Oid.High(v / 128) + last;
    assert last[1..] == rest && last[0] == v % 128;
    ScanHigh(v / 128, values, last);
    CleanStep(last, v / 128 > 0);
  }

  lemma {:induction false} ScanArcs(values: seq<nat>, rest: seq<byte>)
    ensures Scan(Oid.Arcs(values) + rest, [], 0) == Scan(rest, values, 0)
    ensures Clean(rest) ==> Clean(Oid.Arcs(values) + rest)
  {
    hide CleanFrom, Oid.Arc, Scan;
    if values == [] {
      assert Oid.Arcs(values) + rest == rest;
    } else {
      var front, v := values[..|values| - 1], values[|values| - 1];
      assert Oid.Arcs(values) + rest == Oid.Arcs(front) + (Oid.Arc(v) + rest);
      ScanArcs(front, Oid.Arc(v) + rest);
      ScanArc(v, front, rest);
      assert front + [v] == values;
    }
  }

  /** On clean octets the decoder is inverse in both directions, for subidentifiers of any
      size: they decode to given values exactly when they are those values' shortest groups. */
  lemma CleanIff(content: seq<byte>, values: seq<nat>)
    ensures Scan(content, [], 0) == Some(values) && Clean(content) <==> content == Oid.Arcs(values)
  {
    if Clean(content) {
      CleanIsArcs(content, [], 0);
      assert Oid.Arcs([]) + Oid.High(0) + content == content;
    }
    ScanArcs(values, []);
    assert Oid.Arcs(values) + [] == Oid.Arcs(values);
  }

  lemma UnfoldFolds(values: seq<nat>)
    requires values != []
    ensures |Oid.Unfold(values)| >= 2 && Oid.Fold(Oid.Unfold(values)) == values
  {
    assert Oid.Unfold(values)[2..] == values[1..];
  }

  /** Two contents with one identifier are the same content if both are clean, and an accepted
      content is clean exactly when it is the one the identifier is written as: every unclean
      one has that as a different twin. */
  lemma CleanDecides(a: Item, b: Item)
    requires Parse(a).Some?
    ensures var oid := Parse(a).value;
      && |oid| >= 2 && (Clean(a.content) <==> a.content == Oid.Arcs(Oid.Fold(oid)))
      && Clean(Oid.Arcs(Oid.Fold(oid)))
      && Parse(a.(content := Oid.Arcs(Oid.Fold(oid)))) == Some(oid)
    ensures Parse(b) == Parse(a) && Clean(a.content) && Clean(b.content) ==> a.content == b.content
  {
    var values := Scan(a.content, [], 0).value;
    UnfoldFolds(values);
    CleanIff(a.content, values);
    CleanIff(Oid.Arcs(values), values);
    assert Oid.Arc(values[|values| - 1]) != [];
    if Parse(b) == Parse(a) {
      var others := Scan(b.content, [], 0).value;
      UnfoldFolds(others);
      CleanIff(b.content, others);
    }
  }

  /** Where this decoder accepts, the strict one accepts too exactly when the octets are clean
      and every subidentifier is below 2 to the 64. */
  lemma ParseDiffers(item: Item)
    requires Parse(item).Some?
    ensures |Parse(item).value| >= 2
    ensures Oid.Parse(item.Strict()).Some? <==> Clean(item.content) && Oid.Bounded(Oid.Fold(Parse(item).value))
  {
    var values := Scan(item.content, [], 0).value;
    UnfoldFolds(values);
    ParseAgrees(item);
    CleanIff(item.content, values);
    Oid.ParseIff(item.Strict(), Parse(item).value);
  }

  /** The condition fails by one octet: every accepted content has a padded twin with the same
      identifier, which is unclean and which the strict reader refuses. */
  lemma PaddingIgnored(item: Item, padded: Item)
    requires item.tag == padded.tag == 6 && padded.content == [128] + item.content
    requires Parse(item).Some?
    ensures Parse(padded) == Parse(item) && !Clean(padded.content)
    ensures Oid.Parse(padded.Strict()).None?
  {
    assert padded.content[1..] == item.content;
    assert padded.content[0] == 128;
    CleanStep(padded.content, false);
  }

  /** So does an identifier cut off inside a group that is zero so far. */
  lemma {:induction false} TruncationIgnored(content: seq<byte>, values: seq<nat>, current: nat)
    requires Scan(content, values, current).Some?
    ensures Scan(content + [128], values, current) == Scan(content, values, current) && !Clean(content + [128])
  {
    if content == [] {
      assert (content + [128])[1..] == [];
    } else {
      var next := current * 128 + content[0] % 128;
      assert (content + [128])[1..] == content[1..] + [128];
      if content[0] < 128 {
        TruncationIgnored(content[1..], values + [next], 0);
      } else {
        TruncationIgnored(content[1..], values, next);
      }
    }
  }
}
