/** UTF-8 (section 3 of RFC 3629) for strings of Unicode scalar values. */
module Utf8 {
  import opened Bytes

  /** The first octet says how many follow; each of those carries six bits. */
  function Encode(c: char): (r: seq<byte>)
    ensures 1 <= |r| <= 4
  {
    var n := c as int;
    var high := n / 0x40;
    var higher := high / 0x40;
    if n < 0x80 then [n]
    else if n < 0x800 then [0xC0 + high, Tail(n)]
    else if n < 0x1_0000 then [0xE0 + higher, Tail(high), Tail(n)]
    else [0xF0 + higher / 0x40, Tail(higher), Tail(high), Tail(n)]
  }

  /** A continuation octet: the low six bits. */
  function Tail(n: nat): byte {
    0x80 + n % 0x40
  }

  function EncodeAll(s: string): seq<byte> {
    if s == "" then [] else Encode(s[0]) + EncodeAll(s[1..])
  }

  /** The value that the octets of a character carry. */
  function Value(r: seq<byte>): int
    requires 1 <= |r| <= 4
  {
    match |r|
    case 1 => r[0] as int
    case 2 => Joined(r[0] as int - 0xC0, r[1])
    case 3 => Joined(Joined(r[0] as int - 0xE0, r[1]), r[2])
    case _ => Joined(Joined(Joined(r[0] as int - 0xF0, r[1]), r[2]), r[3])
  }

  function Joined(high: int, tail: byte): int {
    high * 0x40 + (tail as int - 0x80)
  }

  /** How many octets a character takes, as its first octet shows. */
  function Length(first: byte): nat {
    if first < 0x80 then 1 else if first < 0xE0 then 2 else if first < 0xF0 then 3 else 4
  }

  lemma JoinedTail(n: nat)
    ensures Joined(n / 0x40, Tail(n)) == n
  {
  }

  lemma ValueEncode(c: char)
    ensures Value(Encode(c)) == c as int && |Encode(c)| == Length(Encode(c)[0])
  {
    hide Tail, Joined;
    var n := c as int;
    JoinedTail(n);
    JoinedTail(n / 0x40);
    JoinedTail(n / 0x40 / 0x40);
  }

  /** No encoding is the beginning of another character's. */
  lemma EncodePrefix(c: char, d: char, r: seq<byte>, s: seq<byte>)
    requires Encode(c) + r == Encode(d) + s
    ensures c == d && r == s
  {
    hide Encode, Value, Length;
    ValueEncode(c);
    ValueEncode(d);
    var x, y := Encode(c), Encode(d);
    assert x[0] == (x + r)[0] && y[0] == (y + s)[0];
    assert x == (x + r)[..|x|] && y == (y + s)[..|y|];
    assert r == (x + r)[|x|..] && s == (y + s)[|y|..];
  }

  /** Different strings have different bytes. */
  lemma {:induction false} EncodeInjective(s: string, t: string)
    requires EncodeAll(s) == EncodeAll(t)
    ensures s == t
  {
    hide Encode;
    if s != "" && t != "" {
      EncodePrefix(s[0], t[0], EncodeAll(s[1..]), EncodeAll(t[1..]));
      EncodeInjective(s[1..], t[1..]);
      assert s == [s[0]] + s[1..] && t == [t[0]] + t[1..];
    }
  }
}
