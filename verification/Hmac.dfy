/** The keyed hash of crypto/hmac/hmac.go, with its saved-state shortcut, against the
    definition in section 2 of RFC 2104. */
module Hmac {
  import opened Common

  /** A hash algorithm. A hash object's state is the bytes fed so far; `save` is its binary
      form when the object offers one, and `load` reads it back. */
  datatype Algorithm = Algorithm(digest: Bytes -> Bytes, size: nat, blockSize: nat,
                                 save: Bytes -> Option<Bytes>, load: Bytes -> Bytes)

  ghost predicate Lawful(alg: Algorithm) {
    && (forall m :: |alg.digest(m)| == alg.size)
    && (forall m :: alg.save(m).Some? ==> alg.load(alg.save(m).value) == m)
    && alg.size > 0
  }

  function Xor(b: Byte, mask: Byte): Byte {
    ((b as bv8) ^ (mask as bv8)) as int
  }

  function XorAll(s: Bytes, mask: Byte): (r: Bytes)
    ensures |r| == |s| && forall i :: 0 <= i < |s| ==> r[i] == Xor(s[i], mask)
  {
    seq(|s|, i requires 0 <= i < |s| => Xor(s[i], mask))
  }

  /** The key, hashed when it is longer than a block, filled up to one block. */
  function KeyBlock(alg: Algorithm, key: Bytes): (k: Bytes)
    ensures |k| == alg.blockSize
  {
    var short := if |key| > alg.blockSize then alg.digest(key) else key;
    var n := Min(|short|, alg.blockSize);
    short[..n] + Zeros(alg.blockSize - n)
  }

  const IPAD: Byte := 0x36
  const OPAD: Byte := 0x5c

  function InnerPad(alg: Algorithm, key: Bytes): Bytes {
    XorAll(KeyBlock(alg, key), IPAD)
  }

  function OuterPad(alg: Algorithm, key: Bytes): Bytes {
    XorAll(KeyBlock(alg, key), OPAD)
  }

  /** The definition: the outer pad and the inner digest, hashed. */
  function Mac(alg: Algorithm, key: Bytes, msg: Bytes): Bytes {
    alg.digest(OuterPad(alg, key) + alg.digest(InnerPad(alg, key) + msg))
  }

  /** Byte `j` of the key as it enters the pads: a key longer than a block is hashed, a shorter
      one filled up with zeros. */
  function KeyByte(alg: Algorithm, key: Bytes, j: nat): Byte {
    var short := if |key| > alg.blockSize then alg.digest(key) else key;
    if j < |short| then short[j] else 0
  }

  /** Section 2 of RFC 2104: with the key's bytes exclusive-or 0x36 as inner and 0x5c as outer
      pad, each as long as a block. */
  lemma MacIsRfc2104(alg: Algorithm, key: Bytes, msg: Bytes, inner: Bytes, outer: Bytes)
    requires |inner| == |outer| == alg.blockSize
    requires forall j :: 0 <= j < alg.blockSize ==>
               && inner[j] == ((KeyByte(alg, key, j) as bv8) ^ 0x36) as int
               && outer[j] == ((KeyByte(alg, key, j) as bv8) ^ 0x5c) as int
    ensures Mac(alg, key, msg) == alg.digest(outer + alg.digest(inner + msg))
  {
    var block := KeyBlock(alg, key);
    assert forall j :: 0 <= j < alg.blockSize ==> block[j] == KeyByte(alg, key, j);
    assert inner == InnerPad(alg, key);
    assert outer == OuterPad(alg, key);
  }

  class Digest {
    const alg: Algorithm
    var fed: Bytes

    constructor (alg: Algorithm)
      ensures this.alg == alg && fed == []
    {
      this.alg := alg;
      fed := [];
    }

    method Write(p: Bytes)
      modifies this
      ensures fed == old(fed) + p
    {
      fed := fed + p;
    }

    method Sum(prefix: Bytes) returns (r: Bytes)
      ensures r == prefix + alg.digest(fed)
    {
      r := prefix + alg.digest(fed);
    }

    method Reset()
      modifies this
      ensures fed == []
    {
      fed := [];
    }

    method MarshalBinary() returns (r: Option<Bytes>)
      ensures r == alg.save(fed)
    {
      r := alg.save(fed);
    }

    method UnmarshalBinary(data: Bytes)
      modifies this
      ensures fed == alg.load(data)
    {
      fed := alg.load(data);
    }
  }

  class HMAC {
    var opad: Bytes
    var ipad: Bytes
    const outer: Digest
    const inner: Digest
    var marshaled: bool

    ghost const alg: Algorithm
    ghost const key: Bytes
    ghost var written: Bytes

    /** The pads hold either the padded key or, once marshaled, the hash states after it
        has been fed. */
    ghost predicate Valid()
      reads this, inner, outer
    {
      && Lawful(alg) && inner != outer && inner.alg == outer.alg == alg
      && (if marshaled then alg.load(ipad) == InnerPad(alg, key) && alg.load(opad) == OuterPad(alg, key)
          else ipad == InnerPad(alg, key) && opad == OuterPad(alg, key))
      && inner.fed == InnerPad(alg, key) + written
    }

    constructor (alg: Algorithm, key: Bytes)
      requires Lawful(alg)
      ensures Valid() && this.alg == alg && this.key == key && written == []
      ensures fresh(inner) && fresh(outer)
    {
      var o := new Digest(alg);
      var i := new Digest(alg);
      var k := key;
      if |key| > alg.blockSize {
        o.Write(key);
        assert o.fed == key;
        k := o.Sum([]);
        assert k == alg.digest(key);
      }
      var n := Min(|k|, alg.blockSize);
      var padded := k[..n] + Zeros(alg.blockSize - n);
      var ip, op := padded, padded;
      for j := 0 to |ip|
        invariant |ip| == |padded|
        invariant forall m :: 0 <= m < |padded| ==> ip[m] == if m < j then Xor(padded[m], 0x36) else padded[m]
      {
        ip := ip[j := Xor(ip[j], 0x36)];
      }
      for j := 0 to |op|
        invariant |op| == |padded|
        invariant forall m :: 0 <= m < |padded| ==> op[m] == if m < j then Xor(padded[m], 0x5c) else padded[m]
      {
        op := op[j := Xor(op[j], 0x5c)];
      }
      i.Write(ip);
      assert ip == XorAll(padded, 0x36) && op == XorAll(padded, 0x5c);
      ipad, opad, marshaled := ip, op, false;
      inner, outer := i, o;
      this.alg, this.key, written := alg, key, [];
    }

    /** Whatever the pads hold, the sum is the definition on what was written since the
        last reset. */
    method Sum(prefix: Bytes) returns (r: Bytes)
      requires Valid()
      modifies outer
      ensures Valid() && written == old(written)
      ensures r == prefix + Mac(alg, key, written)
    {
      var buf := inner.Sum(prefix);
      if marshaled {
        outer.UnmarshalBinary(opad);
      } else {
        outer.Reset();
        outer.Write(opad);
      }
      assert outer.fed == OuterPad(alg, key);
      assert buf[|prefix|..] == alg.digest(inner.fed) && buf[..|prefix|] == prefix;
      outer.Write(buf[|prefix|..]);
      r := outer.Sum(buf[..|prefix|]);
    }

    method Write(p: Bytes)
      requires Valid()
      modifies this`written, inner
      ensures Valid() && written == old(written) + p
    {
      inner.Write(p);
      written := written + p;
    }

    method Reset()
      requires Valid()
      modifies this, inner, outer
      ensures Valid() && written == []
    {
      written := [];
      if marshaled {
        inner.UnmarshalBinary(ipad);
        return;
      }
      inner.Reset();
      inner.Write(ipad);
      var imarshal := inner.MarshalBinary();
      if imarshal.None? {
        return;
      }
      outer.Reset();
      outer.Write(opad);
      assert outer.fed == opad;
      var omarshal := outer.MarshalBinary();
      if omarshal.None? {
        return;
      }
      ipad := imarshal.value;
      opad := omarshal.value;
      marshaled := true;
    }
  }

  // --- Every sequence of calls ----------------------------------------------------------

  datatype Call = CallWrite(p: Bytes) | CallSum(prefix: Bytes) | CallReset

  function WrittenSince(calls: seq<Call>): Bytes {
    if calls == [] then []
    else match Last(calls)
      case CallWrite(p) => WrittenSince(Front(calls)) + p
      case CallSum(_) => WrittenSince(Front(calls))
      case CallReset => []
  }

  /** What the definition answers to each `Sum` of a sequence of calls. */
  function Answers(alg: Algorithm, key: Bytes, calls: seq<Call>): seq<Bytes> {
    if calls == [] then []
    else
      Answers(alg, key, Front(calls))
      + match Last(calls)
        case CallSum(prefix) => [prefix + Mac(alg, key, WrittenSince(Front(calls)))]
        case _ => []
  }

  /** The object refines the definition over every sequence of calls. */
  method Replay(alg: Algorithm, key: Bytes, calls: seq<Call>) returns (answers: seq<Bytes>)
    requires Lawful(alg)
    ensures answers == Answers(alg, key, calls)
  {
    var h := new HMAC(alg, key);
    answers := [];
    for i := 0 to |calls|
      invariant h.Valid() && h.alg == alg && h.key == key
      invariant fresh(h) && fresh(h.inner) && fresh(h.outer)
      invariant h.written == WrittenSince(calls[..i])
      invariant answers == Answers(alg, key, calls[..i])
    {
      assert Front(calls[..i + 1]) == calls[..i] && Last(calls[..i + 1]) == calls[i];
      match calls[i] {
        case CallWrite(p) => h.Write(p);
        case CallSum(prefix) =>
          var r := h.Sum(prefix);
          answers := answers + [r];
        case CallReset => h.Reset();
      }
    }
    assert calls[..|calls|] == calls;
  }
}
