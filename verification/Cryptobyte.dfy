/** The readers and length-prefixed writers that the handshake messages are built with. */
module Cryptobyte {
  import opened Common

  type U16 = x: int | 0 <= x < 0x1_0000

  datatype Read<+T> = Short | Got(value: T, rest: Bytes)

  function Take(s: Bytes, n: nat): Read<Bytes> {
    if |s| < n then Short else Got(s[..n], s[n..])
  }

  function ReadU16(s: Bytes): (r: Read<U16>)
    ensures r.Got? ==> |r.rest| + 2 == |s|
  {
    if |s| < 2 then Short else Got(s[0] as int * 256 + s[1] as int, s[2..])
  }

  /** A field of `n` big-endian bytes giving the length of what follows. */
  function ReadPrefixed(s: Bytes, n: nat): (r: Read<Bytes>)
    ensures r.Got? ==> |s| == n + |r.value| + |r.rest|
  {
    if |s| < n then Short else Take(s[n..], BigEndian(s[..n]))
  }

  /** Big-endian in `n` bytes; higher bytes are cut off. */
  function Fixed(v: nat, n: nat): (b: Bytes)
    ensures |b| == n
  {
    if n == 0 then [] else Fixed(v / 256, n - 1) + [v % 256]
  }

  /** Length-prefixed content, refused when the length does not fit its prefix. */
  function Prefixed(content: Bytes, n: nat): Option<Bytes> {
    if |content| < Pow256(n) then Some(Fixed(|content|, n) + content) else None
  }

  function EncodeU16(v: U16): Bytes {
    [v / 256, v % 256]
  }

  function EncodeList(vs: seq<U16>): (b: Bytes)
    ensures |b| == 2 * |vs|
  {
    if vs == [] then [] else EncodeList(vs[..|vs| - 1]) + EncodeU16(vs[|vs| - 1])
  }

  function DecodeList(s: Bytes): (r: Option<seq<U16>>)
    ensures r.Some? ==> |s| == 2 * |r.value|
  {
    if s == [] then Some([])
    else match ReadU16(s)
      case Short => None
      case Got(v, rest) => (match DecodeList(rest) case None => None case Some(vs) => Some([v] + vs))
  }

  lemma {:induction false} FixedValue(v: nat, n: nat)
    requires v < Pow256(n)
    ensures BigEndian(Fixed(v, n)) == v
  {
    if n > 0 {
      FixedValue(v / 256, n - 1);
      assert Fixed(v, n)[..n - 1] == Fixed(v / 256, n - 1);
    }
  }

  /** Reading a written field gives back the content and leaves what follows it. */
  lemma PrefixedRoundTrip(content: Bytes, n: nat, rest: Bytes)
    requires Prefixed(content, n).Some?
    ensures ReadPrefixed(Prefixed(content, n).value + rest, n) == Got(content, rest)
  {
    var head := Fixed(|content|, n);
    var s := head + content + rest;
    FixedValue(|content|, n);
    assert s[..n] == head && s[n..] == content + rest;
    assert (content + rest)[..|content|] == content && (content + rest)[|content|..] == rest;
  }

  lemma EncodeU16RoundTrip(v: U16, rest: Bytes)
    ensures ReadU16(EncodeU16(v) + rest) == Got(v, rest)
  {
    assert (EncodeU16(v) + rest)[2..] == rest;
  }

  lemma {:induction false} EncodeListCons(v: U16, vs: seq<U16>)
    ensures EncodeList([v] + vs) == EncodeU16(v) + EncodeList(vs)
  {
    var all := [v] + vs;
    if vs == [] {
      assert all[..0] == [] && EncodeList([]) == [];
    } else {
      var front := vs[..|vs| - 1];
      assert all[..|all| - 1] == [v] + front;
      EncodeListCons(v, front);
    }
  }

  lemma {:induction false} ListRoundTrip(vs: seq<U16>)
    ensures DecodeList(EncodeList(vs)) == Some(vs)
  {
    if vs != [] {
      var v, rest := vs[0], vs[1..];
      assert vs == [v] + rest;
      EncodeListCons(v, rest);
      EncodeU16RoundTrip(v, EncodeList(rest));
      ListRoundTrip(rest);
    }
  }

  /** A list is written as the two bytes of each number in turn, high byte first. */
  lemma {:induction false} ListBytes(vs: seq<U16>, i: nat)
    requires i < |vs|
    ensures EncodeList(vs)[2 * i] == vs[i] / 256 && EncodeList(vs)[2 * i + 1] == vs[i] % 256
  {
    var front := vs[..|vs| - 1];
    if i < |front| {
      ListBytes(front, i);
    }
  }

  /** The bytes of a length field, high byte first. */
  lemma LengthBytes(v: nat)
    ensures v < 256 ==> Fixed(v, 1) == [v % 256]
    ensures v < 65536 ==> Fixed(v, 2) == [v / 256 % 256, v % 256]
    ensures v < 16777216 ==> Fixed(v, 3) == [v / 65536 % 256, v / 256 % 256, v % 256]
  {
    LowBytes(v, v / 256, v / 256 / 256);
    TwoDivisions(v);
  }

  lemma LowBytes(v: nat, a: nat, b: nat)
    requires a == v / 256 && b == a / 256
    ensures Fixed(v, 1) == [v % 256]
    ensures Fixed(v, 2) == [a % 256, v % 256]
    ensures Fixed(v, 3) == [b % 256, a % 256, v % 256]
  {
    LowByte(v);
    LowByte(a);
    LowByte(b);
    hide Fixed;
    assert Fixed(v, 2) == [a % 256] + [v % 256];
    assert Fixed(v, 3) == [b % 256] + [a % 256] + [v % 256];
  }

  lemma TwoDivisions(v: nat)
    ensures v / 256 / 256 == v / 65536
  {
    var a := v / 256;
    var b := a / 256;
    var r := a % 256 * 256 + v % 256;
    assert v == b * 65536 + r;
    Quotient(b, r, 65536);
  }

  lemma LowByte(v: nat)
    ensures Fixed(v, 1) == [v % 256]
    ensures Fixed(v, 2) == Fixed(v / 256, 1) + [v % 256]
    ensures Fixed(v, 3) == Fixed(v / 256, 2) + [v % 256]
  {
    assert Fixed(v / 256, 0) == [];
  }

  method EncodeEach(vs: seq<U16>) returns (b: Bytes)
    ensures b == EncodeList(vs)
  {
    b := [];
    for i := 0 to |vs|
      invariant b == EncodeList(vs[..i])
    {
      assert vs[..i + 1][..i] == vs[..i];
      b := b + EncodeU16(vs[i]);
    }
    assert vs[..|vs|] == vs;
  }

  method DecodeEach(s: Bytes) returns (r: Option<seq<U16>>)
    ensures r == DecodeList(s)
  {
    var rest := s;
    var vs: seq<U16> := [];
    while rest != []
      invariant DecodeList(s).Some? <==> DecodeList(rest).Some?
      invariant DecodeList(rest).Some? ==> DecodeList(s).value == vs + DecodeList(rest).value
      decreases |rest|
    {
      var next := ReadU16(rest);
      if next.Short? {
        return None;
      }
      vs := vs + [next.value];
      rest := next.rest;
    }
    assert vs + [] == vs;
    return Some(vs);
  }
}
