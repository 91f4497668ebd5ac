/** Key derivation (e2ewebsocket/prf.go): P_hash of section 5 of RFC 5246, the PRF and the
    key block of its section 6.3. */
module Prf {
  import opened Common
  import opened Hmac

  /** The chain A(0) = seed, A(i+1) = HMAC(secret, A(i)). */
  function Chain(alg: Algorithm, secret: Bytes, seed: Bytes, i: nat): Bytes {
    if i == 0 then seed else Mac(alg, secret, Chain(alg, secret, seed, i - 1))
  }

  /** Block i of the stream, counting from zero: HMAC(secret, A(i+1) + seed). */
  function Block(alg: Algorithm, secret: Bytes, seed: Bytes, i: nat): Bytes {
    Mac(alg, secret, Chain(alg, secret, seed, i + 1) + seed)
  }

  /** Byte j of the unbounded stream of blocks. */
  ghost function StreamByte(alg: Algorithm, secret: Bytes, seed: Bytes, j: nat): Byte
    requires Lawful(alg)
  {
    Block(alg, secret, seed, j / alg.size)[j % alg.size]
  }

  ghost function Stream(alg: Algorithm, secret: Bytes, seed: Bytes, n: nat): (s: Bytes)
    requires Lawful(alg)
    ensures |s| == n && forall j :: 0 <= j < n ==> s[j] == StreamByte(alg, secret, seed, j)
  {
    seq(n, j requires 0 <= j < n => StreamByte(alg, secret, seed, j))
  }

  lemma InBlock(i: nat, size: nat, o: nat)
    requires o < size
    ensures (i * size + o) / size == i && (i * size + o) % size == o
  {
    RemainderUnique(i * size + o, i, o, size);
    var d := (i * size + o) / size - i;
    assert d * size == 0 by {
      assert d * size == (i * size + o) / size * size - i * size;
    }
    MultipleIsFar(d, size);
  }

  method MacOf(h: HMAC, a: Bytes, b: Bytes) returns (m: Bytes)
    requires h.Valid()
    modifies h, h.inner, h.outer
    ensures h.Valid() && m == Mac(h.alg, h.key, a + b)
  {
    h.Reset();
    h.Write(a);
    h.Write(b);
    assert [] + a + b == a + b;
    m := h.Sum([]);
    assert [] + Mac(h.alg, h.key, a + b) == Mac(h.alg, h.key, a + b);
  }

  lemma SizePositive(alg: Algorithm)
    requires Lawful(alg)
    ensures alg.size > 0
  {
  }

  /** A block lies in the stream from its index times the digest size on. */
  lemma BlockBytes(alg: Algorithm, secret: Bytes, seed: Bytes, i: nat, b: Bytes)
    requires Lawful(alg) && b == Block(alg, secret, seed, i)
    ensures |b| == alg.size
    ensures forall o :: 0 <= o < alg.size ==> StreamByte(alg, secret, seed, i * alg.size + o) == b[o]
  {
    MacSize(alg, secret, Chain(alg, secret, seed, i + 1) + seed);
    forall o | 0 <= o < alg.size ensures StreamByte(alg, secret, seed, i * alg.size + o) == b[o] {
      InBlock(i, alg.size, o);
    }
  }

  /** Fills `result` with the stream, whatever its length. */
  method PHash(alg: Algorithm, result: array<Byte>, secret: Bytes, seed: Bytes)
    requires Lawful(alg)
    modifies result
    ensures result[..] == Stream(alg, secret, seed, result.Length)
  {
    hide Mac, Lawful, StreamByte;
    SizePositive(alg);
    var h := new HMAC(alg, secret);
    h.Write(seed);
    assert [] + seed == seed;
    var a := h.Sum([]);
    assert [] + Mac(alg, secret, seed) == Mac(alg, secret, seed);
    var done := 0;
    ghost var i := 0;
    assert a == Chain(alg, secret, seed, 1) by { assert Chain(alg, secret, seed, 0) == seed; }
    while done < result.Length
      invariant h.Valid() && h.alg == alg && h.key == secret
      invariant fresh(h) && fresh(h.inner) && fresh(h.outer)
      invariant done == Min(i * alg.size, result.Length)
      invariant a == Chain(alg, secret, seed, i + 1)
      invariant forall j :: 0 <= j < done ==> result[j] == StreamByte(alg, secret, seed, j)
      decreases result.Length - done
    {
      var b := MacOf(h, a, seed);
      var n := CopyAt(result, done, b);
      BlockBytes(alg, secret, seed, i, b);
      if n > 0 { assert done == i * alg.size; }
      forall j | done <= j < done + n ensures result[j] == StreamByte(alg, secret, seed, j) {
        assert result[done + (j - done)] == b[j - done];
        assert StreamByte(alg, secret, seed, i * alg.size + (j - done)) == b[j - done];
      }
      assert (i + 1) * alg.size == i * alg.size + alg.size;
      done := done + n;
      i := i + 1;
      a := MacOf(h, a, []);
      assert Chain(alg, secret, seed, i) + [] == Chain(alg, secret, seed, i);
    }
  }

  lemma MacSize(alg: Algorithm, key: Bytes, msg: Bytes)
    requires Lawful(alg)
    ensures |Mac(alg, key, msg)| == alg.size
  {
  }

  method PRF(alg: Algorithm, secret: Bytes, purpose: Bytes, seed: Bytes, keyLen: nat) returns (result: Bytes)
    requires Lawful(alg)
    ensures result == Derive(alg, secret, purpose, seed, keyLen)
  {
    var out := new Byte[keyLen];
    PHash(alg, out, secret, purpose + seed);
    result := out[..];
  }

  ghost function Derive(alg: Algorithm, secret: Bytes, purpose: Bytes, seed: Bytes, keyLen: nat): (out: Bytes)
    requires Lawful(alg)
    ensures |out| == keyLen
  {
    Stream(alg, secret, purpose + seed, keyLen)
  }

  /** A shorter request is a prefix of a longer one. */
  lemma ShorterIsPrefix(alg: Algorithm, secret: Bytes, purpose: Bytes, seed: Bytes, m: nat, n: nat)
    requires Lawful(alg) && m <= n
    ensures Derive(alg, secret, purpose, seed, m) == Derive(alg, secret, purpose, seed, n)[..m]
  {
  }

  /** Blocks of the stream are consecutive: from any block boundary on, a block's worth of
      derived bytes is that block. */
  lemma WholeBlocks(alg: Algorithm, secret: Bytes, seed: Bytes, i: nat, n: nat)
    requires Lawful(alg) && i * alg.size + alg.size <= n
    ensures Stream(alg, secret, seed, n)[i * alg.size..i * alg.size + alg.size] == Block(alg, secret, seed, i)
  {
    var cut := Stream(alg, secret, seed, n)[i * alg.size..i * alg.size + alg.size];
    forall o | 0 <= o < alg.size ensures cut[o] == Block(alg, secret, seed, i)[o] {
      InBlock(i, alg.size, o);
    }
  }

  /** Section 5 of RFC 5246, for any chain A(0) = seed, A(i+1) = HMAC(secret, A(i)): the stream
      is the blocks HMAC(secret, A(i+1) + seed) one after the other. */
  lemma StreamIsPHash(alg: Algorithm, secret: Bytes, seed: Bytes, chain: nat -> Bytes, i: nat, n: nat)
    requires Lawful(alg) && chain(0) == seed && forall k: nat :: chain(k + 1) == Mac(alg, secret, chain(k))
    requires i * alg.size + alg.size <= n
    ensures Stream(alg, secret, seed, n)[i * alg.size..i * alg.size + alg.size]
            == Mac(alg, secret, chain(i + 1) + seed)
  {
    hide Mac, Lawful, Stream;
    ChainIs(alg, secret, seed, chain, i + 1);
    WholeBlocks(alg, secret, seed, i, n);
  }

  lemma {:induction false} ChainIs(alg: Algorithm, secret: Bytes, seed: Bytes, chain: nat -> Bytes, i: nat)
    requires chain(0) == seed && forall k: nat :: chain(k + 1) == Mac(alg, secret, chain(k))
    ensures chain(i) == Chain(alg, secret, seed, i)
  {
    hide Mac;
    if i > 0 {
      ChainIs(alg, secret, seed, chain, i - 1);
      assert chain(i - 1 + 1) == Mac(alg, secret, chain(i - 1));
    }
  }

  /** Up to two digests' worth of derived bytes written out. */
  lemma DerivedBytes(alg: Algorithm, secret: Bytes, purpose: Bytes, seed: Bytes, n: nat)
    requires Lawful(alg) && n <= 2 * alg.size
    ensures var s := purpose + seed;
            var a1 := Mac(alg, secret, s);
            var a2 := Mac(alg, secret, a1);
            var both := Mac(alg, secret, a1 + s) + Mac(alg, secret, a2 + s);
            |both| == 2 * alg.size && Derive(alg, secret, purpose, seed, n) == both[..n]
  {
    var s := purpose + seed;
    TwoBlocks(alg, secret, s);
    ShorterIsPrefix(alg, secret, purpose, seed, n, 2 * alg.size);
  }

  lemma TwoBlocks(alg: Algorithm, secret: Bytes, s: Bytes)
    requires Lawful(alg)
    ensures var a1 := Mac(alg, secret, s);
            var a2 := Mac(alg, secret, a1);
            Stream(alg, secret, s, 2 * alg.size) == Mac(alg, secret, a1 + s) + Mac(alg, secret, a2 + s)
  {
    hide Mac, Lawful, Stream;
    var all := Stream(alg, secret, s, 2 * alg.size);
    WholeBlocks(alg, secret, s, 0, 2 * alg.size);
    WholeBlocks(alg, secret, s, 1, 2 * alg.size);
    assert Chain(alg, secret, s, 0) == s && Chain(alg, secret, s, 1) == Mac(alg, secret, s);
    assert Chain(alg, secret, s, 2) == Mac(alg, secret, Mac(alg, secret, s));
    assert all == all[0..alg.size] + all[alg.size..2 * alg.size];
  }

  const MASTER_SECRET_LENGTH: nat := 48
  const FINISHED_VERIFY_LENGTH: nat := 12

  function Ascii(s: string): Bytes
  {
    seq(|s|, i requires 0 <= i < |s| => s[i] as int % 256)
  }

  ghost function MasterSecret(alg: Algorithm, preMaster: Bytes, initiatorRandom: Bytes, responderRandom: Bytes): Bytes
    requires Lawful(alg)
  {
    Derive(alg, preMaster, Ascii("master secret"), initiatorRandom + responderRandom, MASTER_SECRET_LENGTH)
  }

  /** "master secret" and "key expansion" in bytes. */
  const MASTER_LABEL: Bytes := [109, 97, 115, 116, 101, 114, 32, 115, 101, 99, 114, 101, 116]
  const EXPANSION_LABEL: Bytes := [107, 101, 121, 32, 101, 120, 112, 97, 110, 115, 105, 111, 110]

  /** The master secret: 48 bytes derived from the premaster secret with the label and both
      randoms, the initiator's first. */
  lemma MasterSecretBytes(alg: Algorithm, preMaster: Bytes, ir: Bytes, rr: Bytes)
    requires Lawful(alg) && 24 <= alg.size
    ensures var s := [109, 97, 115, 116, 101, 114, 32, 115, 101, 99, 114, 101, 116] + ir + rr;
            var a1 := Mac(alg, preMaster, s);
            var a2 := Mac(alg, preMaster, a1);
            var both := Mac(alg, preMaster, a1 + s) + Mac(alg, preMaster, a2 + s);
            |both| >= 48 && MasterSecret(alg, preMaster, ir, rr) == both[..48]
  {
    hide Mac, Lawful, Derive;
    assert Ascii("master secret") == MASTER_LABEL;
    assert MASTER_LABEL + (ir + rr) == MASTER_LABEL + ir + rr;
    DerivedBytes(alg, preMaster, MASTER_LABEL, ir + rr, 48);
  }

  /** The key block: derived from the master secret with its label and both randoms, here the
      responder's first. */
  lemma KeyBlockBytes(alg: Algorithm, master: Bytes, ir: Bytes, rr: Bytes, n: nat)
    requires Lawful(alg) && n <= 2 * alg.size
    ensures var s := [107, 101, 121, 32, 101, 120, 112, 97, 110, 115, 105, 111, 110] + rr + ir;
            var a1 := Mac(alg, master, s);
            var a2 := Mac(alg, master, a1);
            var both := Mac(alg, master, a1 + s) + Mac(alg, master, a2 + s);
            |both| >= n && KeyMaterial(alg, master, ir, rr, n) == both[..n]
  {
    hide Mac, Lawful, Derive;
    assert Ascii("key expansion") == EXPANSION_LABEL;
    assert EXPANSION_LABEL + (rr + ir) == EXPANSION_LABEL + rr + ir;
    DerivedBytes(alg, master, EXPANSION_LABEL, rr + ir, n);
  }

  method MasterFromPreMasterSecret(alg: Algorithm, preMaster: Bytes, initiatorRandom: Bytes, responderRandom: Bytes)
    returns (master: Bytes)
    requires Lawful(alg)
    ensures master == MasterSecret(alg, preMaster, initiatorRandom, responderRandom)
    ensures |master| == 48
  {
    hide Ascii, Derive;
    var seed := initiatorRandom;
    seed := seed + responderRandom;
    master := PRF(alg, preMaster, Ascii("master secret"), seed, MASTER_SECRET_LENGTH);
  }

  datatype Keys = Keys(initiatorMAC: Bytes, responderMAC: Bytes, initiatorKey: Bytes, responderKey: Bytes,
                       initiatorIV: Bytes, responderIV: Bytes)

  function KeyBlockLen(macLen: nat, keyLen: nat, ivLen: nat): nat {
    2 * macLen + 2 * keyLen + 2 * ivLen
  }

  /** The key block of a master secret; note that its seed has the responder first. */
  ghost function KeyMaterial(alg: Algorithm, master: Bytes, initiatorRandom: Bytes, responderRandom: Bytes, n: nat): (block: Bytes)
    requires Lawful(alg)
    ensures |block| == n
  {
    Derive(alg, master, Ascii("key expansion"), responderRandom + initiatorRandom, n)
  }

  /** The pieces of a key block, one after the other. */
  function CutKeys(block: Bytes, macLen: nat, keyLen: nat, ivLen: nat): (k: Keys)
    requires |block| == KeyBlockLen(macLen, keyLen, ivLen)
    ensures |k.initiatorMAC| == |k.responderMAC| == macLen
    ensures |k.initiatorKey| == |k.responderKey| == keyLen
    ensures |k.initiatorIV| == |k.responderIV| == ivLen
  {
    var keys, ivs := 2 * macLen, 2 * macLen + 2 * keyLen;
    Keys(block[..macLen], block[macLen..keys], block[keys..keys + keyLen], block[keys + keyLen..ivs],
         block[ivs..ivs + ivLen], block[ivs + ivLen..])
  }

  /** Cuts the key block into six consecutive pieces that make it up completely. */
  method KeysFromMasterSecret(alg: Algorithm, master: Bytes, initiatorRandom: Bytes, responderRandom: Bytes,
                              macLen: nat, keyLen: nat, ivLen: nat) returns (k: Keys)
    requires Lawful(alg)
    ensures k.initiatorMAC + k.responderMAC + k.initiatorKey + k.responderKey + k.initiatorIV + k.responderIV
            == KeyMaterial(alg, master, initiatorRandom, responderRandom, KeyBlockLen(macLen, keyLen, ivLen))
    ensures |k.initiatorMAC| == |k.responderMAC| == macLen
    ensures |k.initiatorKey| == |k.responderKey| == keyLen
    ensures |k.initiatorIV| == |k.responderIV| == ivLen
    ensures k == CutKeys(KeyMaterial(alg, master, initiatorRandom, responderRandom, KeyBlockLen(macLen, keyLen, ivLen)),
                         macLen, keyLen, ivLen)
  {
    hide Derive, Ascii;
    var n := 2 * macLen + 2 * keyLen + 2 * ivLen;
    var material := PRF(alg, master, Ascii("key expansion"), responderRandom + initiatorRandom, n);
    assert |material| == n;
    var initiatorMAC, responderMAC, afterMACs := CutTwo(material, macLen);
    var initiatorKey, responderKey, afterKeys := CutTwo(afterMACs, keyLen);
    var initiatorIV, responderIV, rest := CutTwo(afterKeys, ivLen);
    k := Keys(initiatorMAC, responderMAC, initiatorKey, responderKey, initiatorIV, responderIV);
    assert rest == [] && afterKeys == initiatorIV + responderIV;
    Flatten(initiatorMAC, responderMAC, initiatorKey, responderKey, initiatorIV, responderIV);
    PiecesAreCuts(k);
  }

  lemma PiecesAreCuts(k: Keys)
    requires |k.initiatorMAC| == |k.responderMAC| && |k.initiatorKey| == |k.responderKey| && |k.initiatorIV| == |k.responderIV|
    ensures var block := k.initiatorMAC + k.responderMAC + k.initiatorKey + k.responderKey + k.initiatorIV + k.responderIV;
            && |block| == KeyBlockLen(|k.initiatorMAC|, |k.initiatorKey|, |k.initiatorIV|)
            && CutKeys(block, |k.initiatorMAC|, |k.initiatorKey|, |k.initiatorIV|) == k
  {
  }

  method CutTwo(material: Bytes, n: nat) returns (a: Bytes, b: Bytes, rest: Bytes)
    requires 2 * n <= |material|
    ensures |a| == |b| == n && material == a + b + rest
  {
    a := material[..n];
    rest := material[n..];
    b := rest[..n];
    rest := rest[n..];
  }

  lemma Flatten(a: Bytes, b: Bytes, c: Bytes, d: Bytes, e: Bytes, f: Bytes)
    ensures a + b + (c + d + (e + f)) == a + b + c + d + e + f
  {
    assert c + d + (e + f) == c + d + e + f;
    assert a + b + (c + d + e + f) == a + b + (c + d + e) + f;
    assert a + b + (c + d + e) == a + b + (c + d) + e;
    assert a + b + (c + d) == a + b + c + d;
  }
}
