/** The strict DER reader and writer of the witness profile
    (section 10.1 of ITU-T X.690: definite lengths in the fewest octets). */
module Der {
  import opened Wrappers
  import opened Bytes

  datatype Node = Node(tag: byte, content: seq<byte>, raw: seq<byte>) {
    /** Splits the content into its elements, or fails on the first bad one. */
    method Children() returns (r: Option<seq<Node>>)
      ensures r == Elements(content, 0)
    {
      var values: seq<Node> := [];
      var offset := 0;
      PrependNothing(Elements(content, 0));
      while offset < |content|
        invariant offset <= |content|
        invariant Elements(content, 0) == Prepend(values, Elements(content, offset))
        decreases |content| - offset
      {
        var item := Read(content, offset);
        if item.None? {
          return None;
        }
        ghost var rest := Elements(content, item.value.1);
        PrependTwice(values, [item.value.0], rest);
        values := values + [item.value.0];
        offset := item.value.1;
      }
      assert values + [] == values;
      return Some(values);
    }
  }

  /** One element starting at `offset`, and the offset after it. */
  function Read(raw: seq<byte>, offset: nat): (r: Option<(Node, nat)>)
    ensures r.Some? ==> offset + 2 <= r.value.1 <= |raw|
  {
    if offset + 2 > |raw| || raw[offset] % 32 == 31 then None
    else
      var tag, size := raw[offset], raw[offset + 1];
      var body := offset + 2;
      if size < 128 then Body(raw, offset, tag, body, size)
      else
        var width := size % 128;
        if !(1 <= width <= 4) || body + width > |raw| || raw[body] == 0 then None
        else
          var long := FromBig(raw[body..body + width]);
          if long < 128 then None
          else Body(raw, offset, tag, body + width, long)
  }

  function Body(raw: seq<byte>, start: nat, tag: byte, body: nat, size: nat): (r: Option<(Node, nat)>)
    requires start <= body
    ensures r.Some? ==> r.value.1 == body + size <= |raw|
  {
    if body + size > |raw| then None
    else Some((Node(tag, raw[body..body + size], raw[start..body + size]), body + size))
  }

  /** Length octets: the short form below 128, otherwise the counted long form.
      128 + w is the bitwise 128 | w of a width w below 128. */
  function Length(size: nat): seq<byte> {
    var encoded := ToWidth(size, if ByteCount(size) < 1 then 1 else ByteCount(size));
    if size < 128 then [size] else [128 + |encoded| % 128] + encoded
  }

  /** The counted octets are the shortest form of the size. */
  lemma LengthIsShortest(size: nat)
    ensures Length(size) == if size < 128 then [size] else [128 + |ToBig(size)| % 128] + ToBig(size)
  {
    hide ToWidth, BitLength;
    ByteCountShortest(size);
    if size > 0 {
      BytesOfBits(size);
    }
  }

  function Encode(tag: byte, raw: seq<byte>): seq<byte> {
    [tag] + Length(|raw|) + raw
  }

  /** A single element of the wanted tag filling all of `raw`. */
  function Single(raw: seq<byte>, tag: byte): Option<Node> {
    var (value, end) :- Read(raw, 0);
    if end != |raw| || value.tag != tag then None else Some(value)
  }

  /** What the loop over a content computes: every element from `offset` on. */
  function Elements(content: seq<byte>, offset: nat): Option<seq<Node>>
    decreases |content| - offset
  {
    if offset >= |content| then Some([])
    else
      var (item, next) :- Read(content, offset);
      Prepend([item], Elements(content, next))
  }

  function Prepend(front: seq<Node>, back: Option<seq<Node>>): Option<seq<Node>> {
    if back.None? then None else Some(front + back.value)
  }

  lemma PrependNothing(back: Option<seq<Node>>)
    ensures Prepend([], back) == back
  {
    if back.Some? {
      assert [] + back.value == back.value;
    }
  }

  lemma PrependTwice(a: seq<Node>, b: seq<Node>, back: Option<seq<Node>>)
    ensures Prepend(a, Prepend(b, back)) == Prepend(a + b, back)
  {
    if back.Some? {
      assert a + (b + back.value) == a + b + back.value;
    }
  }

  predicate Readable(tag: byte, content: seq<byte>) {
    tag % 32 != 31 && |content| < 0x1_0000_0000
  }

  function Make(tag: byte, content: seq<byte>): Node {
    Node(tag, content, Encode(tag, content))
  }

  // Reading what was written ------------------------------------------------

  lemma LengthBound(size: nat)
    ensures |ToBig(size)| <= 4 <==> size < 0x1_0000_0000
  {
    ToBigSize(size, 4);
    assert Pow256(2) == 65536;
    assert Pow256(4) == 65536 * 65536;
  }

  /** The reader recovers the written element and stops exactly after it. */
  lemma ReadDer(before: seq<byte>, tag: byte, content: seq<byte>, rest: seq<byte>)
    requires Readable(tag, content)
    ensures Read(before + Encode(tag, content) + rest, |before|)
         == Some((Make(tag, content), |before| + |Encode(tag, content)|))
  {
    hide Read, FromBig, ToBig, Length;
    LengthIsShortest(|content|);
    var raw := before + Encode(tag, content) + rest;
    var k, size := |before|, |content|;
    var body := k + 1 + |Length(size)|;
    assert raw[k + 1..body] == Length(size);
    assert raw[body..body + size] == content;
    assert raw[k..body + size] == Encode(tag, content);
    if size < 128 {
      ReadShort(raw, k, content);
    } else {
      FromToBig(size);
      LengthBound(size);
      assert raw[k + 2..body] == raw[k + 1..body][1..] == ToBig(size);
      ReadLong(raw, k, ToBig(size), content);
    }
  }

  lemma ReadShort(raw: seq<byte>, k: nat, content: seq<byte>)
    requires k + 2 + |content| <= |raw| && raw[k] % 32 != 31
    requires raw[k + 1] == |content| < 128 && raw[k + 2..k + 2 + |content|] == content
    ensures Read(raw, k)
         == Some((Node(raw[k], content, raw[k..k + 2 + |content|]), k + 2 + |content|))
  {
  }

  lemma {:induction false} ReadLong(raw: seq<byte>, k: nat, digits: seq<byte>, content: seq<byte>)
    requires k + 2 + |digits| + |content| <= |raw| && raw[k] % 32 != 31
    requires 1 <= |digits| <= 4 && digits[0] != 0 && FromBig(digits) == |content| >= 128
    requires raw[k + 1] == 128 + |digits| && raw[k + 2..k + 2 + |digits|] == digits
    requires raw[k + 2 + |digits|..k + 2 + |digits| + |content|] == content
    ensures var end := k + 2 + |digits| + |content|;
      Read(raw, k) == Some((Node(raw[k], content, raw[k..end]), end))
  {
    hide FromBig, Body, Read;
    FirstOf(raw, k + 2, digits);
    BodyReads(raw, k, k + 2 + |digits|, content);
    LongRead(raw, k, |digits|);
  }

  lemma FirstOf(raw: seq<byte>, k: nat, digits: seq<byte>)
    requires k + |digits| <= |raw| && digits != [] && raw[k..k + |digits|] == digits
    ensures raw[k] == digits[0]
  {
  }

  /** The long form, step by step: the counted octets give the size. */
  lemma {:induction false} LongRead(raw: seq<byte>, k: nat, width: nat)
    requires k + 2 + width <= |raw| && raw[k] % 32 != 31 && 1 <= width <= 4 && raw[k + 1] == 128 + width
    requires raw[k + 2] != 0 && FromBig(raw[k + 2..k + 2 + width]) >= 128
    ensures Read(raw, k) == Body(raw, k, raw[k], k + 2 + width, FromBig(raw[k + 2..k + 2 + width]))
  {
    hide FromBig, Body;
  }

  lemma BodyReads(raw: seq<byte>, start: nat, body: nat, content: seq<byte>)
    requires start <= body && body + |content| <= |raw| && start < |raw|
    requires raw[body..body + |content|] == content
    ensures var end := body + |content|;
      Body(raw, start, raw[start], body, |content|) == Some((Node(raw[start], content, raw[start..end]), end))
  {
  }

  /** Whatever the reader accepts is the writer's own output: one encoding per element. */
  lemma ReadIsDer(raw: seq<byte>, offset: nat)
    ensures Read(raw, offset).Some? ==>
      var (node, end) := Read(raw, offset).value;
      && node == Make(node.tag, node.content)
      && node.raw == raw[offset..end]
      && Readable(node.tag, node.content)
  {
    hide FromBig, Length;
    if Read(raw, offset).Some? {
      var (node, end) := Read(raw, offset).value;
      var start := end - |node.content|;
      assert raw[offset + 1..start] == Length(|node.content|) && |node.content| < 0x1_0000_0000 by {
        LengthRead(raw, offset);
      }
      assert raw[offset..end] == [raw[offset]] + raw[offset + 1..start] + raw[start..end];
    }
  }

  lemma LengthRead(raw: seq<byte>, offset: nat)
    requires Read(raw, offset).Some?
    ensures var (node, end) := Read(raw, offset).value;
      && offset + 2 <= end - |node.content|
      && raw[offset + 1..end - |node.content|] == Length(|node.content|)
      && |node.content| < 0x1_0000_0000
  {
    hide FromBig, ToBig, Length, Read, Body;
    var size := raw[offset + 1];
    LengthIsShortest(|Read(raw, offset).value.0.content|);
    if size < 128 {
      ShortMeans(raw, offset);
      assert raw[offset + 1..offset + 2] == [size];
    } else {
      LongMeans(raw, offset);
      var digits := raw[offset + 2..offset + 2 + size % 128];
      ToFromBig(digits);
      LengthBound(FromBig(digits));
      assert raw[offset + 1..offset + 2 + size % 128] == [size] + digits;
    }
  }

  lemma ShortMeans(raw: seq<byte>, offset: nat)
    requires Read(raw, offset).Some? && raw[offset + 1] < 128
    ensures var (node, end) := Read(raw, offset).value;
      |node.content| == raw[offset + 1] && end - |node.content| == offset + 2
  {
    hide FromBig;
  }

  lemma LongMeans(raw: seq<byte>, offset: nat)
    requires Read(raw, offset).Some? && raw[offset + 1] >= 128
    ensures var (node, end) := Read(raw, offset).value;
      var width := raw[offset + 1] % 128;
      && 1 <= width <= 4 && offset + 2 + width <= end && end - |node.content| == offset + 2 + width
      && raw[offset + 2] != 0 && |node.content| == FromBig(raw[offset + 2..offset + 2 + width]) >= 128
  {
    hide FromBig;
  }

  lemma SingleIff(raw: seq<byte>, tag: byte, content: seq<byte>)
    ensures Single(raw, tag) == Some(Make(tag, content))
        <==> (Readable(tag, content) && raw == Encode(tag, content))
  {
    ReadIsDer(raw, 0);
    assert raw[0..|raw|] == raw;
    if Readable(tag, content) && raw == Encode(tag, content) {
      ReadDer([], tag, content, []);
      assert [] + Encode(tag, content) + [] == raw;
    }
  }

  // Sequences of elements ---------------------------------------------------

  function Raws(nodes: seq<Node>): seq<byte> {
    if nodes == [] then [] else nodes[0].raw + Raws(nodes[1..])
  }

  ghost predicate AllMade(nodes: seq<Node>) {
    forall i :: 0 <= i < |nodes| ==>
      nodes[i] == Make(nodes[i].tag, nodes[i].content) && Readable(nodes[i].tag, nodes[i].content)
  }

  /** The raw pieces of the children, in order, are the content: nothing is lost or invented. */
  lemma {:induction false} ElementsConcatenate(content: seq<byte>, offset: nat)
    requires offset <= |content|
    ensures Elements(content, offset).Some? ==>
      && AllMade(Elements(content, offset).value)
      && Raws(Elements(content, offset).value) == content[offset..]
    decreases |content| - offset
  {
    hide Read, Encode;
    if offset < |content| && Elements(content, offset).Some? {
      ReadIsDer(content, offset);
      var (item, next) := Read(content, offset).value;
      ElementsConcatenate(content, next);
      var nodes := Elements(content, offset).value;
      assert nodes[1..] == Elements(content, next).value;
      assert content[offset..] == content[offset..next] + content[next..];
    }
  }

  /** Conversely every concatenation of written elements splits back into them. */
  lemma {:induction false} ElementsOfRaws(before: seq<byte>, nodes: seq<Node>)
    requires AllMade(nodes)
    ensures Elements(before + Raws(nodes), |before|) == Some(nodes)
    decreases |nodes|
  {
    hide Read, Encode;
    if nodes != [] {
      var item, rest := nodes[0], Raws(nodes[1..]);
      ReadDer(before, item.tag, item.content, rest);
      assert before + Raws(nodes) == before + item.raw + rest;
      ElementsOfRaws(before + item.raw, nodes[1..]);
      assert [item] + nodes[1..] == nodes;
    }
  }

  /** Splitting is exactly the inverse of concatenating encodings. */
  lemma ChildrenIff(content: seq<byte>, nodes: seq<Node>)
    ensures Elements(content, 0) == Some(nodes) <==> (AllMade(nodes) && content == Raws(nodes))
  {
    ElementsConcatenate(content, 0);
    assert content[0..] == content;
    if AllMade(nodes) && content == Raws(nodes) {
      ElementsOfRaws([], nodes);
      assert [] + Raws(nodes) == content;
    }
  }

  // INTEGER -----------------------------------------------------------------

  /** Section 8.3 of ITU-T X.690, bounded to 65 content octets by the profile. */
  function Integer(value: Node, tag: byte := 2): Option<int> {
    if value.tag != tag || |value.content| > 65 || !Minimal(value.content) then None
    else Some(SignedBig(value.content))
  }

  /** Accepted contents are the unique shortest two's complement form of their value. */
  lemma IntegerIff(value: Node, tag: byte, v: int)
    ensures Integer(value, tag) == Some(v)
        <==> (value.tag == tag && value.content == ToSigned(v) && |ToSigned(v)| <= 65)
  {
    SignedToSigned(v);
    if Minimal(value.content) {
      ToSignedSigned(value.content);
    }
  }
}
