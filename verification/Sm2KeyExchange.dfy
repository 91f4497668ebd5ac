/** The SM2 authenticated key exchange of crypto/sm2keyexch/keyexchange.c, section 6.1 of
    GB/T 32918.3-2016 with the key derivation left abstract. A point of the curve's
    order-n group is written as its multiple of the generator, the point at infinity
    being 0. */
module Sm2KeyExchange {
  import opened Common

  function NumBits(n: nat): nat {
    if n == 0 then 0 else 1 + NumBits(n / 2)
  }

  function PowTwo(w: nat): (p: nat)
    ensures p > 0
  {
    if w == 0 then 1 else 2 * PowTwo(w - 1)
  }

  /** The curve and the primitives the exchange is built on. */
  datatype Suite = Suite(
    order: nat,
    cofactor: nat,
    xCoordinate: nat -> nat,
    encode: nat -> Bytes,
    decode: Bytes -> Option<nat>,
    keyData: nat -> Bytes,
    digest: Bytes -> Bytes,
    digestLen: nat,
    kdf: (Bytes, nat) -> Bytes,
    orderBytes: nat)

  /** Octets decode to the point they encode, uncompressed points carry two coordinates,
      and digests have their length. */
  ghost predicate Lawful(s: Suite) {
    && s.order > 1
    && (forall p :: 0 < p < s.order ==> s.decode(s.encode(p)) == Some(p))
    && (forall p :: 0 < p < s.order ==> |s.encode(p)| >= 1 + 2 * s.orderBytes)
    && (forall m :: |s.digest(m)| == s.digestLen)
    && (forall b :: s.decode(b).Some? ==> s.decode(b).value < s.order)
  }

  const MAX_ID_LEN: nat := 8191

  predicate UsableId(id: Bytes) {
    0 < |id| <= MAX_ID_LEN && 0 !in id
  }

  /** The digest that binds an identity to its public key. An identity is a C string. */
  function IdDigest(s: Suite, id: Bytes, pub: nat): Option<Bytes> {
    if !UsableId(id) then None
    else Some(s.digest([|id| * 8 / 256 % 256, |id| * 8 % 256] + id + s.keyData(pub)))
  }

  datatype Kap = Kap(suite: Suite, privateKey: nat, remotePublic: nat, idDigest: Bytes, remoteIdDigest: Bytes,
                     initiator: bool, doChecksum: bool, t: nat, point: nat, ptBuf: Bytes, checksum: Bytes)

  function Public(s: Suite, d: nat): nat
    requires s.order > 0
  {
    d % s.order
  }

  function TwoPowW(s: Suite): (p: nat)
    ensures p > 0
  {
    var bits := NumBits(s.order);
    PowTwo(if bits >= 1 then (bits + 1) / 2 - 1 else 0)
  }

  /** The truncated x-coordinate with the bit above it set. */
  function Reduced(s: Suite, point: nat): nat {
    s.xCoordinate(point) % TwoPowW(s) + TwoPowW(s)
  }

  function Init(s: Suite, d: nat, id: Bytes, remotePub: nat, rid: Bytes, initiator: bool, doChecksum: bool): Option<Kap>
    requires s.order > 0
  {
    var own, other := IdDigest(s, id, Public(s, d)), IdDigest(s, rid, remotePub);
    if own.None? || other.None? then None
    else Some(Kap(s, d, remotePub, own.value, other.value, initiator, doChecksum, 0, 0, [], []))
  }

  /** `r` is the ephemeral secret, drawn until it is not zero. */
  function PrepareKap(k: Kap, r: nat): Kap
    requires k.suite.order > 0
  {
    var n := k.suite.order;
    var point := r % n;
    k.(point := point,
       t := (Reduced(k.suite, point) * r % n + k.privateKey) % n * k.suite.cofactor % n,
       ptBuf := k.suite.encode(point))
  }

  function Agreed(s: Suite, t: nat, remotePub: nat, remotePoint: nat): nat
    requires s.order > 0
  {
    t * ((Reduced(s, remotePoint) * remotePoint % s.order + remotePub) % s.order) % s.order
  }

  function Coordinates(k: Kap, octets: Bytes): Bytes {
    octets[Min(1, |octets|)..Min(|octets|, 1 + 2 * k.suite.orderBytes)]
  }

  function XPart(k: Kap, shared: Bytes): Bytes {
    shared[Min(1, |shared|)..Min(|shared|, 1 + k.suite.orderBytes)]
  }

  function YPart(k: Kap, shared: Bytes): Bytes {
    shared[Min(|shared|, 1 + k.suite.orderBytes)..Min(|shared|, 1 + 2 * k.suite.orderBytes)]
  }

  function SharedInput(k: Kap, shared: Bytes): Bytes {
    if k.initiator then shared + k.idDigest + k.remoteIdDigest else shared + k.remoteIdDigest + k.idDigest
  }

  function InnerDigest(k: Kap, shared: Bytes, remotePt: Bytes): Bytes {
    k.suite.digest(
      if k.initiator then
        XPart(k, shared) + k.idDigest + k.remoteIdDigest + Coordinates(k, k.ptBuf) + Coordinates(k, remotePt)
      else
        XPart(k, shared) + k.remoteIdDigest + k.idDigest + Coordinates(k, remotePt) + Coordinates(k, k.ptBuf))
  }

  function Confirmation(k: Kap, tag: Byte, shared: Bytes, inner: Bytes): Bytes {
    k.suite.digest([tag] + YPart(k, shared) + inner)
  }

  datatype Computed = Computed(kap: Kap, key: Bytes, checksum: Bytes)

  function ComputeKap(k: Kap, remoteOctets: Bytes, keyLen: nat): Option<Computed>
    requires k.suite.order > 0
  {
    match k.suite.decode(remoteOctets)
    case None => None
    case Some(remote) =>
      var u := Agreed(k.suite, k.t, k.remotePublic, remote);
      if remote == 0 || u == 0 then None
      else
        var shared := k.suite.encode(u);
        var input := SharedInput(k, shared);
        var key := k.suite.kdf(input[Min(1, |input|)..], keyLen);
        if !k.doChecksum then Some(Computed(k.(point := u), key, []))
        else
          var inner := InnerDigest(k, shared, k.suite.encode(remote));
          var two, three := Confirmation(k, 2, shared, inner), Confirmation(k, 3, shared, inner);
          if k.initiator then Some(Computed(k.(point := u, checksum := two), key, three))
          else Some(Computed(k.(point := u, checksum := three), key, two))
  }

  predicate CheckKap(k: Kap, checksum: Bytes) {
    k.doChecksum ==> |checksum| == k.suite.digestLen && k.checksum == checksum
  }

  // --- The truncated coordinate -----------------------------------------------------------

  predicate IsPowerOfTwo(p: nat) {
    p == 1 || (p > 1 && p % 2 == 0 && IsPowerOfTwo(p / 2))
  }

  lemma {:induction false} PowTwoIsOne(w: nat)
    ensures IsPowerOfTwo(PowTwo(w))
  {
    if w > 0 { PowTwoIsOne(w - 1); }
  }

  lemma {:induction false} BitsBound(n: nat)
    requires n >= 1
    ensures NumBits(n) >= 1 && PowTwo(NumBits(n) - 1) <= n < PowTwo(NumBits(n))
  {
    if n > 1 { BitsBound(n / 2); }
  }

  lemma {:induction false} PowTwoSum(a: nat, b: nat)
    ensures PowTwo(a + b) == PowTwo(a) * PowTwo(b)
  {
    if a > 0 {
      PowTwoSum(a - 1, b);
      assert PowTwo(a) == 2 * PowTwo(a - 1) && PowTwo(a + b) == 2 * PowTwo(a - 1 + b);
      DoubledProduct(PowTwo(a - 1), PowTwo(b));
    }
  }

  lemma DoubledProduct(x: nat, y: nat)
    ensures 2 * (x * y) == (2 * x) * y
  {
  }

  /** Of two different powers of two the larger is at least twice the smaller. */
  lemma {:induction false} PowersApart(p: nat, q: nat)
    requires IsPowerOfTwo(p) && IsPowerOfTwo(q) && p < q
    ensures 2 * p <= q
  {
    if p > 1 { PowersApart(p / 2, q / 2); }
  }

  lemma SquareFits(p: nat, q: nat)
    requires 2 * p <= q
    ensures 4 * (p * p) <= q * q
  {
    assert q * q >= (2 * p) * q && (2 * p) * q >= (2 * p) * (2 * p) by {
      Monotone(2 * p, q, q);
      Monotone(2 * p, q, 2 * p);
    }
    assert (2 * p) * (2 * p) == 4 * (p * p);
  }

  lemma Monotone(a: nat, b: nat, c: nat)
    requires a <= b
    ensures a * c <= b * c
  {
    assert b * c - a * c == (b - a) * c;
  }

  lemma WidthSquares(s: Suite)
    requires s.order >= 1
    ensures IsPowerOfTwo(TwoPowW(s))
    ensures TwoPowW(s) * TwoPowW(s) <= s.order < 4 * (TwoPowW(s) * TwoPowW(s))
  {
    var n := s.order;
    var bits := NumBits(n);
    BitsBound(n);
    var w := (bits + 1) / 2 - 1;
    PowTwoIsOne(w);
    PowTwoSum(w, w);
    hide NumBits, IsPowerOfTwo;
    assert bits == 2 * w + 1 || bits == 2 * w + 2;
    assert PowTwo(2 * w + 1) == 2 * PowTwo(2 * w) && PowTwo(2 * w + 2) == 2 * PowTwo(2 * w + 1);
    assert PowTwo(2 * w) == PowTwo(w) * PowTwo(w);
  }

  /** The width is the one power of two whose square is at most the order, and more than a
      quarter of it: 2 to the 127 for an order of 256 bits. */
  lemma WidthExactlyWhen(s: Suite, p: nat)
    requires s.order >= 1
    ensures p == TwoPowW(s) <==> IsPowerOfTwo(p) && p * p <= s.order < 4 * (p * p)
  {
    hide TwoPowW;
    WidthSquares(s);
    var q := TwoPowW(s);
    if IsPowerOfTwo(p) && p < q {
      PowersApart(p, q);
      SquareFits(p, q);
    }
    if IsPowerOfTwo(p) && q < p {
      PowersApart(q, p);
      SquareFits(q, p);
    }
  }

  /** The reduced coordinate of a point keeps the low bits of its x-coordinate and sets the
      one above them. */
  lemma ReducedMeans(s: Suite, point: nat)
    ensures TwoPowW(s) <= Reduced(s, point) < 2 * TwoPowW(s)
    ensures Reduced(s, point) % TwoPowW(s) == s.xCoordinate(point) % TwoPowW(s)
  {
    hide TwoPowW;
    var p, x := TwoPowW(s), s.xCoordinate(point);
    RemainderUnique(x % p + p, 1, x % p, p);
  }

  // --- Arithmetic modulo the order ------------------------------------------------------

  lemma AddMultiple(x: int, k: nat, n: nat)
    requires n > 0
    ensures (x + k * n) % n == x % n
  {
    assert x == x / n * n + x % n;
    assert (x / n + k) * n == x / n * n + k * n;
    RemainderUnique(x + k * n, x / n + k, x % n, n);
  }

  lemma MulModLeft(a: nat, b: nat, n: nat)
    requires n > 0
    ensures (a % n * b) % n == (a * b) % n
  {
    var q := a / n;
    assert a == q * n + a % n;
    assert a * b == a % n * b + (q * b) * n by {
      assert (q * n + a % n) * b == q * n * b + a % n * b;
      assert q * n * b == (q * b) * n;
    }
    AddMultiple(a % n * b, q * b, n);
  }

  lemma MulModRight(a: nat, b: nat, n: nat)
    requires n > 0
    ensures (a * (b % n)) % n == (a * b) % n
  {
    MulModLeft(b, a, n);
    assert b % n * a == a * (b % n) && b * a == a * b;
  }

  lemma AddMod(a: nat, b: nat, n: nat)
    requires n > 0
    ensures (a % n + b) % n == (a + b) % n
  {
    var q := a / n;
    assert a + b == (a % n + b) + q * n;
    AddMultiple(a % n + b, q, n);
  }

  lemma AddMods(a: nat, b: nat, n: nat)
    requires n > 0
    ensures (a % n + b % n) % n == (a + b) % n
  {
    AddMod(a, b % n, n);
    AddMod(b, a, n);
  }

  /** Either side's agreed point is the cofactor times the product of the two peers'
      combined secrets. */
  lemma AgreedIsProduct(s: Suite, d: nat, r: nat, rd: nat, rr: nat, k: Kap)
    requires s.order > 1 && k.suite == s && k.privateKey == d
    ensures var own := Reduced(s, r % s.order) * r + d;
            var other := Reduced(s, rr % s.order) * rr + rd;
            && PrepareKap(k, r).t == own * s.cofactor % s.order
            && Agreed(s, PrepareKap(k, r).t, Public(s, rd), rr % s.order) == (own * s.cofactor * other) % s.order
  {
    hide Reduced;
    var n := s.order;
    var x, rx := Reduced(s, r % n), Reduced(s, rr % n);
    var own, other := x * r + d, rx * rr + rd;
    var t := PrepareKap(k, r).t;
    AddMod(x * r, d, n);
    MulModLeft(own, s.cofactor, n);
    assert t == own * s.cofactor % n;
    MulModRight(rx, rr, n);
    AddMods(rx * rr, rd, n);
    assert (rx * (rr % n) % n + rd % n) % n == other % n;
    MulModRight(t, other, n);
    MulModLeft(own * s.cofactor, other, n);
  }

  lemma Commutes(a: nat, h: nat, b: nat)
    ensures a * h * b == b * h * a
  {
  }

  /** Two honest ends of one exchange: one initiator, each knowing the other's public key
      and both identities. */
  predicate Facing(a: Kap, b: Kap) {
    && a.suite.order > 1
    && a.initiator != b.initiator
    && a.doChecksum == b.doChecksum
    && a.idDigest == b.remoteIdDigest && a.remoteIdDigest == b.idDigest
    && a.remotePublic == Public(a.suite, b.privateKey)
    && b.remotePublic == Public(a.suite, a.privateKey)
  }

  ghost predicate SameSuite(a: Kap, b: Kap) {
    a.suite == b.suite
  }

  /** Contexts that two peers initialise for each other, with the identities swapped, each
      other's public keys and opposite roles, face each other; and both can be initialised
      exactly when both identities are usable. */
  lemma InitialisedFacing(s: Suite, d: nat, id: Bytes, rd: nat, rid: Bytes, initiator: bool, doChecksum: bool)
    requires s.order > 1
    ensures var a := Init(s, d, id, Public(s, rd), rid, initiator, doChecksum);
            var b := Init(s, rd, rid, Public(s, d), id, !initiator, doChecksum);
            && (a.Some? <==> UsableId(id) && UsableId(rid))
            && (b.Some? <==> UsableId(id) && UsableId(rid))
            && (a.Some? ==> SameSuite(a.value, b.value) && Facing(a.value, b.value))
  {
  }

  /** Both ends reach the same point, for all keys and ephemeral secrets. */
  lemma SamePoint(a: Kap, b: Kap, ra: nat, rb: nat)
    requires SameSuite(a, b) && Facing(a, b)
    ensures Agreed(a.suite, PrepareKap(a, ra).t, a.remotePublic, rb % a.suite.order)
            == Agreed(a.suite, PrepareKap(b, rb).t, b.remotePublic, ra % a.suite.order)
  {
    var s := a.suite;
    AgreedIsProduct(s, a.privateKey, ra, b.privateKey, rb, a);
    AgreedIsProduct(s, b.privateKey, rb, a.privateKey, ra, b);
    hide Reduced, Agreed, PrepareKap;
    Commutes(Reduced(s, ra % s.order) * ra + a.privateKey, s.cofactor, Reduced(s, rb % s.order) * rb + b.privateKey);
  }

  /** From one point on, the role branches of the two ends build the same key input and
      the same two confirmations, stored and sent the other way round. */
  lemma RolesAgree(a: Kap, b: Kap, shared: Bytes)
    requires SameSuite(a, b) && Facing(a, b)
    ensures SharedInput(a, shared) == SharedInput(b, shared)
    ensures InnerDigest(a, shared, b.ptBuf) == InnerDigest(b, shared, a.ptBuf)
    ensures XPart(a, shared) == XPart(b, shared) && YPart(a, shared) == YPart(b, shared)
  {
  }

  lemma EphemeralPoint(k: Kap, r: nat)
    requires Lawful(k.suite) && 0 < r < k.suite.order
    ensures PrepareKap(k, r).ptBuf == k.suite.encode(r)
    ensures k.suite.decode(PrepareKap(k, r).ptBuf) == Some(r)
  {
    hide Reduced;
    assert r % k.suite.order == r;
  }

  /** With confirmation asked for, the final check passes for this checksum and no other;
      without, it always passes. */
  ghost predicate OnlyAccepts(k: Kap, expected: Bytes) {
    forall checksum :: CheckKap(k, checksum) <==> !k.doChecksum || checksum == expected
  }

  /** Agreement: the two ends fail together, exactly when the agreed point is infinity,
      and otherwise derive the same key and accept each other's confirmation only. */
  lemma KeyAgreement(a: Kap, b: Kap, ra: nat, rb: nat, keyLen: nat)
    requires SameSuite(a, b) && Facing(a, b) && Lawful(a.suite)
    requires 0 < ra < a.suite.order && 0 < rb < a.suite.order
    ensures var pa, pb := PrepareKap(a, ra), PrepareKap(b, rb);
            var ka, kb := ComputeKap(pa, pb.ptBuf, keyLen), ComputeKap(pb, pa.ptBuf, keyLen);
            && (ka.Some? <==> Agreed(a.suite, pa.t, a.remotePublic, rb) != 0)
            && (ka.Some? <==> kb.Some?)
            && (ka.Some? ==> ka.value.key == kb.value.key
                             && OnlyAccepts(ka.value.kap, kb.value.checksum)
                             && OnlyAccepts(kb.value.kap, ka.value.checksum))
  {
    hide PrepareKap, ComputeKap, Agreed, Facing, Lawful, OnlyAccepts, SameSuite, Reduced;
    SameOrder(a, b);
    var s := a.suite;
    var pa, pb := PrepareKap(a, ra), PrepareKap(b, rb);
    EphemeralPoint(a, ra);
    EphemeralPoint(b, rb);
    SamePoint(a, b, ra, rb);
    assert ra % s.order == ra && rb % s.order == rb;
    var u := Agreed(s, pa.t, a.remotePublic, rb);
    PreparedFacing(a, b, ra, rb);
    MatchingOutcomes(pa, pb, ra, rb, u, keyLen);
  }

  /** The whole exchange between two peers from initialisation on. */
  lemma ExchangeFromInit(s: Suite, d: nat, id: Bytes, rd: nat, rid: Bytes, initiator: bool, doChecksum: bool,
                         ra: nat, rb: nat, keyLen: nat)
    requires Lawful(s) && UsableId(id) && UsableId(rid)
    requires 0 < ra < s.order && 0 < rb < s.order
    ensures var a := Init(s, d, id, Public(s, rd), rid, initiator, doChecksum);
            var b := Init(s, rd, rid, Public(s, d), id, !initiator, doChecksum);
            && a.Some? && b.Some? && a.value.suite == b.value.suite == s
            && (var pa, pb := PrepareKap(a.value, ra), PrepareKap(b.value, rb);
                var ka, kb := ComputeKap(pa, pb.ptBuf, keyLen), ComputeKap(pb, pa.ptBuf, keyLen);
                && (ka.Some? <==> Agreed(s, pa.t, Public(s, rd), rb) != 0)
                && (ka.Some? <==> kb.Some?)
                && (ka.Some? ==> ka.value.key == kb.value.key
                                 && OnlyAccepts(ka.value.kap, kb.value.checksum)
                                 && OnlyAccepts(kb.value.kap, ka.value.checksum)))
  {
    hide PrepareKap, ComputeKap, Agreed, Facing, OnlyAccepts, IdDigest, UsableId;
    InitialisedFacing(s, d, id, rd, rid, initiator, doChecksum);
    var a := Init(s, d, id, Public(s, rd), rid, initiator, doChecksum).value;
    var b := Init(s, rd, rid, Public(s, d), id, !initiator, doChecksum).value;
    KeyAgreement(a, b, ra, rb, keyLen);
  }

  lemma SameOrder(a: Kap, b: Kap)
    requires SameSuite(a, b)
    ensures a.suite == b.suite
  {
  }

  lemma PreparedFacing(a: Kap, b: Kap, ra: nat, rb: nat)
    requires SameSuite(a, b) && Facing(a, b)
    ensures var pa, pb := PrepareKap(a, ra), PrepareKap(b, rb);
            && SameSuite(pa, pb) && Facing(pa, pb)
            && pa.suite == a.suite && pa.remotePublic == a.remotePublic && pb.remotePublic == b.remotePublic
  {
    hide Reduced;
  }

  lemma MatchingOutcomes(pa: Kap, pb: Kap, ra: nat, rb: nat, u: nat, keyLen: nat)
    requires SameSuite(pa, pb) && Facing(pa, pb) && Lawful(pa.suite)
    requires 0 < ra < pa.suite.order && 0 < rb < pa.suite.order
    requires pa.ptBuf == pa.suite.encode(ra) && pb.ptBuf == pa.suite.encode(rb)
    requires u == Agreed(pa.suite, pa.t, pa.remotePublic, rb) == Agreed(pa.suite, pb.t, pb.remotePublic, ra)
    ensures var ka, kb := ComputeKap(pa, pb.ptBuf, keyLen), ComputeKap(pb, pa.ptBuf, keyLen);
            && (ka.Some? <==> u != 0)
            && (kb.Some? <==> u != 0)
            && (u != 0 ==> ka.value.key == kb.value.key
                           && OnlyAccepts(ka.value.kap, kb.value.checksum)
                           && OnlyAccepts(kb.value.kap, ka.value.checksum))
  {
    hide Agreed, ComputeKap, Lawful, InnerDigest, SharedInput, Confirmation, XPart, YPart;
    var s := pa.suite;
    ComputeForm(pa, pb.ptBuf, rb, keyLen);
    ComputeForm(pb, pa.ptBuf, ra, keyLen);
    if u != 0 {
      RolesAgree(pa, pb, s.encode(u));
      ConfirmationsMeet(pa, pb, s.encode(u));
    }
  }

  lemma ComputeForm(k: Kap, octets: Bytes, remote: nat, keyLen: nat)
    requires Lawful(k.suite) && 0 < remote < k.suite.order
    requires octets == k.suite.encode(remote)
    ensures var u := Agreed(k.suite, k.t, k.remotePublic, remote);
            var c := ComputeKap(k, octets, keyLen);
            && (c.None? <==> u == 0)
            && (u != 0 ==>
                  var shared := k.suite.encode(u);
                  var input := SharedInput(k, shared);
                  var inner := InnerDigest(k, shared, octets);
                  && c.value.key == k.suite.kdf(input[Min(1, |input|)..], keyLen)
                  && c.value.kap.doChecksum == k.doChecksum && c.value.kap.suite.digestLen == k.suite.digestLen
                  && (k.doChecksum ==>
                        && c.value.kap.checksum == Confirmation(k, if k.initiator then 2 else 3, shared, inner)
                        && c.value.checksum == Confirmation(k, if k.initiator then 3 else 2, shared, inner)))
  {
    hide Agreed, Reduced, SharedInput, InnerDigest, Confirmation;
  }

  lemma ConfirmationsMeet(a: Kap, b: Kap, shared: Bytes)
    requires SameSuite(a, b) && Lawful(a.suite)
    requires YPart(a, shared) == YPart(b, shared)
    requires InnerDigest(a, shared, b.ptBuf) == InnerDigest(b, shared, a.ptBuf)
    ensures forall tag: Byte :: Confirmation(a, tag, shared, InnerDigest(a, shared, b.ptBuf))
                                == Confirmation(b, tag, shared, InnerDigest(b, shared, a.ptBuf))
    ensures forall tag: Byte, inner :: |Confirmation(a, tag, shared, inner)| == a.suite.digestLen
  {
    hide InnerDigest;
  }

  lemma PointUnused(k: Kap, p: nat)
    ensures forall shared, pt :: InnerDigest(k.(point := p), shared, pt) == InnerDigest(k, shared, pt)
    ensures forall tag: Byte, shared, inner ::
              Confirmation(k.(point := p), tag, shared, inner) == Confirmation(k, tag, shared, inner)
  {
  }

  // --- The standard's formulas -------------------------------------------------------------

  /** Uncompressed points are the byte 4 and two coordinates of equal length. */
  ghost predicate Uncompressed(s: Suite, x: nat -> Bytes, y: nat -> Bytes) {
    forall p :: 0 < p < s.order ==>
      s.encode(p) == [4] + x(p) + y(p) && |x(p)| == |y(p)| == s.orderBytes
  }

  /** The identity digest hashes the length in bits, the identity and the public key; it is
      refused for an identity that is empty, holds a zero byte or is longer than 65535 bits. */
  lemma IdDigestMeans(s: Suite, id: Bytes, pub: nat)
    ensures IdDigest(s, id, pub).None? <==> id == [] || 0 in id || 8 * |id| > 65535
    ensures IdDigest(s, id, pub).Some? ==>
              exists high: Byte, low: Byte :: high as int * 256 + low as int == 8 * |id|
                && IdDigest(s, id, pub).value == s.digest([high, low] + id + s.keyData(pub))
  {
    if IdDigest(s, id, pub).Some? {
      var high: Byte, low: Byte := |id| * 8 / 256 % 256, |id| * 8 % 256;
      assert high as int * 256 + low as int == 8 * |id|;
    }
  }

  /** What a peer derives from the agreed point `u`, its own point and the other's: the key
      from the coordinates of `u` and both identity digests, initiator first; the checksums
      from tag, y-coordinate and the digest of the x-coordinate, the identity digests and both
      points, initiator first. The initiator sends the one tagged 3 and expects that tagged 2. */
  lemma StandardFormulas(k: Kap, own: nat, octets: Bytes, remote: nat, keyLen: nat, x: nat -> Bytes, y: nat -> Bytes)
    requires k.suite.order > 0 && Uncompressed(k.suite, x, y)
    requires 0 < own < k.suite.order && k.ptBuf == k.suite.encode(own)
    requires 0 < remote < k.suite.order && k.suite.decode(octets) == Some(remote)
    ensures var s := k.suite;
            var u := Agreed(s, k.t, k.remotePublic, remote);
            var c := ComputeKap(k, octets, keyLen);
            var first, second := if k.initiator then own else remote, if k.initiator then remote else own;
            var ids := if k.initiator then k.idDigest + k.remoteIdDigest else k.remoteIdDigest + k.idDigest;
            var inner := s.digest(x(u) + ids + x(first) + y(first) + x(second) + y(second));
            && (c.None? <==> u == 0)
            && (u != 0 ==>
                  && c.value.key == s.kdf(x(u) + y(u) + ids, keyLen)
                  && (k.doChecksum ==>
                        && c.value.checksum == s.digest([if k.initiator then 3 else 2] + y(u) + inner)
                        && c.value.kap.checksum == s.digest([if k.initiator then 2 else 3] + y(u) + inner)))
  {
    hide Agreed, Reduced, InnerDigest, SharedInput, Confirmation, Coordinates, XPart, YPart;
    var s := k.suite;
    var u := Agreed(s, k.t, k.remotePublic, remote);
    AgreedBelowOrder(s, k.t, k.remotePublic, remote);
    if u != 0 {
      var shared := s.encode(u);
      PartsOf(k, x, y, u);
      PartsOf(k, x, y, own);
      PartsOf(k, x, y, remote);
      InputOf(k, shared, x(u), y(u));
      InnerOf(k, shared, s.encode(remote), x(u), x(own), y(own), x(remote), y(remote));
      ConfirmationOf(k, shared, y(u));
    }
  }

  lemma AgreedBelowOrder(s: Suite, t: nat, remotePub: nat, remote: nat)
    requires s.order > 0
    ensures Agreed(s, t, remotePub, remote) < s.order
  {
  }

  lemma PartsOf(k: Kap, x: nat -> Bytes, y: nat -> Bytes, p: nat)
    requires Uncompressed(k.suite, x, y) && 0 < p < k.suite.order
    ensures var e := k.suite.encode(p);
            e == [4] + x(p) + y(p) && XPart(k, e) == x(p) && YPart(k, e) == y(p) && Coordinates(k, e) == x(p) + y(p)
  {
    var e := k.suite.encode(p);
    assert e == [4] + (x(p) + y(p));
  }

  lemma InputOf(k: Kap, shared: Bytes, xu: Bytes, yu: Bytes)
    requires shared == [4] + xu + yu
    ensures var input := SharedInput(k, shared);
            input[Min(1, |input|)..]
            == xu + yu + if k.initiator then k.idDigest + k.remoteIdDigest else k.remoteIdDigest + k.idDigest
  {
    var ids := if k.initiator then k.idDigest + k.remoteIdDigest else k.remoteIdDigest + k.idDigest;
    assert SharedInput(k, shared) == [4] + (xu + yu + ids);
  }

  lemma InnerOf(k: Kap, shared: Bytes, remotePt: Bytes, xu: Bytes, xo: Bytes, yo: Bytes, xr: Bytes, yr: Bytes)
    requires XPart(k, shared) == xu && Coordinates(k, k.ptBuf) == xo + yo && Coordinates(k, remotePt) == xr + yr
    ensures InnerDigest(k, shared, remotePt)
            == k.suite.digest(if k.initiator then xu + (k.idDigest + k.remoteIdDigest) + xo + yo + xr + yr
                              else xu + (k.remoteIdDigest + k.idDigest) + xr + yr + xo + yo)
  {
    hide XPart, Coordinates;
    assert xu + k.idDigest + k.remoteIdDigest + (xo + yo) + (xr + yr)
           == xu + (k.idDigest + k.remoteIdDigest) + xo + yo + xr + yr;
    assert xu + k.remoteIdDigest + k.idDigest + (xr + yr) + (xo + yo)
           == xu + (k.remoteIdDigest + k.idDigest) + xr + yr + xo + yo;
  }

  lemma ConfirmationOf(k: Kap, shared: Bytes, yu: Bytes)
    requires YPart(k, shared) == yu
    ensures forall tag: Byte, inner :: Confirmation(k, tag, shared, inner) == k.suite.digest([tag] + yu + inner)
  {
  }

  // --- The context object ---------------------------------------------------------------

  class KapContext {
    const suite: Suite
    const privateKey: nat
    const remotePublic: nat
    const idDigest: Bytes
    const remoteIdDigest: Bytes
    const initiator: bool
    const doChecksum: bool
    var t: nat
    var point: nat
    var ptBuf: Bytes
    var checksum: Bytes

    constructor (k: Kap)
      requires k.suite.order > 0
      ensures Value() == k
    {
      suite, privateKey, remotePublic := k.suite, k.privateKey, k.remotePublic;
      idDigest, remoteIdDigest, initiator, doChecksum := k.idDigest, k.remoteIdDigest, k.initiator, k.doChecksum;
      t, point, ptBuf, checksum := k.t, k.point, k.ptBuf, k.checksum;
    }

    /** Sets up a context, or refuses an identity. */
    static method Initialise(s: Suite, d: nat, id: Bytes, remotePub: nat, rid: Bytes, initiator: bool, doChecksum: bool)
      returns (r: Option<KapContext>)
      requires s.order > 0
      ensures var k := Init(s, d, id, remotePub, rid, initiator, doChecksum);
              (r.Some? <==> k.Some?) && (r.Some? ==> fresh(r.value) && r.value.Value() == k.value)
    {
      var own := IdDigest(s, id, Public(s, d));
      if own.None? {
        return None;
      }
      var other := IdDigest(s, rid, remotePub);
      if other.None? {
        return None;
      }
      var ctx := new KapContext(Kap(s, d, remotePub, own.value, other.value, initiator, doChecksum, 0, 0, [], []));
      return Some(ctx);
    }

    ghost function Value(): Kap
      reads this
    {
      Kap(suite, privateKey, remotePublic, idDigest, remoteIdDigest, initiator, doChecksum, t, point, ptBuf, checksum)
    }

    method Prepare(r: nat) returns (ephemeral: Bytes)
      requires suite.order > 0
      modifies this
      ensures Value() == PrepareKap(old(Value()), r) && ephemeral == ptBuf
    {
      point := r % suite.order;
      var x := suite.xCoordinate(point);
      x := x % TwoPowW(suite);
      x := x + TwoPowW(suite);
      t := x * r % suite.order;
      t := (t + privateKey) % suite.order;
      t := t * suite.cofactor % suite.order;
      ephemeral := suite.encode(point);
      ptBuf := ephemeral;
    }

    /** Fails like the source on an undecodable point or an agreed point at infinity; the
        working point is overwritten step by step either way. */
    method ComputeKey(remotePoint: Bytes, keyLen: nat) returns (r: Option<(Bytes, Bytes)>)
      requires suite.order > 0
      modifies this`point, this`checksum
      ensures r.None? <==> ComputeKap(old(Value()), remotePoint, keyLen).None?
      ensures r.Some? ==> Computed(Value(), r.value.0, r.value.1) == ComputeKap(old(Value()), remotePoint, keyLen).value
    {
      hide Confirmation, InnerDigest;
      var n := suite.order;
      var remote := suite.decode(remotePoint);
      if remote.None? {
        return None;
      }
      point := remote.value;
      if point == 0 {
        return None;
      }
      var remotePt := suite.encode(point);
      var x := suite.xCoordinate(point);
      x := x % TwoPowW(suite);
      x := x + TwoPowW(suite);
      point := x * point % n;
      point := (point + remotePublic) % n;
      point := t * point % n;
      if point == 0 {
        return None;
      }
      var shared := suite.encode(point);
      var input := shared;
      if initiator {
        input := input + idDigest;
        input := input + remoteIdDigest;
      } else {
        input := input + remoteIdDigest;
        input := input + idDigest;
      }
      var key := suite.kdf(input[Min(1, |input|)..], keyLen);
      var out: Bytes := [];
      PointUnused(old(Value()), point);
      if doChecksum {
        out := Confirm(shared, remotePt);
      }
      return Some((key, out));
    }

    /** Keeps the confirmation expected from the peer and returns the one to send. */
    method Confirm(shared: Bytes, remotePt: Bytes) returns (out: Bytes)
      modifies this`checksum
      ensures var k := old(Value());
              var inner := InnerDigest(k, shared, remotePt);
              && checksum == Confirmation(k, if initiator then 2 else 3, shared, inner)
              && out == Confirmation(k, if initiator then 3 else 2, shared, inner)
    {
      var k := suite.orderBytes;
      var own := ptBuf[Min(1, |ptBuf|)..Min(|ptBuf|, 1 + 2 * k)];
      var other := remotePt[Min(1, |remotePt|)..Min(|remotePt|, 1 + 2 * k)];
      var buf := shared[Min(1, |shared|)..Min(|shared|, 1 + k)];
      if initiator {
        buf := buf + idDigest;
        buf := buf + remoteIdDigest;
        buf := buf + own;
        buf := buf + other;
      } else {
        buf := buf + remoteIdDigest;
        buf := buf + idDigest;
        buf := buf + other;
        buf := buf + own;
      }
      var inner := suite.digest(buf);
      var y := shared[Min(|shared|, 1 + k)..Min(|shared|, 1 + 2 * k)];
      var two := suite.digest([2] + y + inner);
      if initiator {
        checksum := two;
      } else {
        out := two;
      }
      var three := suite.digest([3] + y + inner);
      if initiator {
        out := three;
      } else {
        checksum := three;
      }
    }

    method FinalCheck(received: Bytes) returns (ok: bool)
      ensures ok == CheckKap(Value(), received)
    {
      if doChecksum {
        if |received| != suite.digestLen {
          return false;
        }
        if checksum != received {
          return false;
        }
      }
      return true;
    }
  }
}
