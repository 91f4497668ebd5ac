/** The key exchange messages of both suites (e2ewebsocket/key_agreement.go and
    key_agreement_sm2mlkem.go): what each peer writes, how the other takes it apart, and
    the premaster secret both arrive at. */
module KeyExchange {
  import opened Common
  import opened Cryptobyte
  import opened Sm2KeyExchange

  const NAMED_CURVE: Byte := 3
  const SM2_CURVE: U16 := 4152
  const SM2_WITH_SM3: U16 := 0x0909
  const KEM_GROUP: U16 := 0x11EE
  const CIPHERTEXT_SIZE: nat := 1088
  const KEM_SECRET_SIZE: nat := 32
  const SECRET_LEN: nat := 32

  /** One peer's end of the exchange. `kap` is its initialised SM2 context, whose role is
      the peer's role, `r` its ephemeral secret; `signedForm` is what is signed for schemes
      other than SM2 with SM3, which signs the message itself; the ciphertext and its secret
      are what encapsulating to the other peer yields. */
  datatype Agent = Agent(
    kap: Kap, r: nat,
    sign: Bytes -> Bytes, verifyRemote: (Bytes, Bytes) -> bool,
    signedForm: (U16, Bytes) -> Option<Bytes>,
    ciphertext: Bytes, secret: Bytes, decapsulate: Bytes -> Option<Bytes>)

  datatype Reason = Malformed | UnsupportedCurve | UnsupportedGroup | WrongAlgorithm | BadSignature | BadCiphertext

  /** `Crash`: the source indexes into an empty ephemeral point. */
  datatype Outcome = Secret(preMaster: Bytes) | Refused(reason: Reason) | Crash

  // --- Writing --------------------------------------------------------------------------

  /** Lengths are cut to the bytes they are written in. */
  function Sm2Params(ra: Bytes): Bytes {
    [NAMED_CURVE, SM2_CURVE / 256, SM2_CURVE % 256, |ra| % 256] + ra
  }

  function KemParams(ciphertext: Bytes): Bytes {
    [KEM_GROUP / 256, KEM_GROUP % 256, |ciphertext| / 256 % 256, |ciphertext| % 256] + ciphertext
  }

  function SignaturePart(scheme: U16, signature: Bytes): Bytes {
    [scheme / 256, scheme % 256, |signature| / 256 % 256, |signature| % 256] + signature
  }

  function WhatIsSigned(a: Agent, scheme: U16, message: Bytes): Option<Bytes> {
    if scheme == SM2_WITH_SM3 then Some(message) else a.signedForm(scheme, message)
  }

  /** The initiator's random comes first on both sides. */
  function Message(initiatorRandom: Bytes, responderRandom: Bytes, params: Bytes): Bytes {
    initiatorRandom + responderRandom + params
  }

  function Signed(a: Agent, scheme: U16, ir: Bytes, rr: Bytes, params: Bytes): Option<Bytes> {
    match WhatIsSigned(a, scheme, Message(ir, rr, params))
    case None => None
    case Some(m) => Some(params + SignaturePart(scheme, a.sign(m)))
  }

  function GenerateSm2(a: Agent, scheme: U16, ir: Bytes, rr: Bytes): Option<Bytes>
    requires a.kap.suite.order > 0
  {
    Signed(a, scheme, ir, rr, Sm2Params(PrepareKap(a.kap, a.r).ptBuf))
  }

  function GenerateHybrid(a: Agent, scheme: U16, ir: Bytes, rr: Bytes): Option<Bytes>
    requires a.kap.suite.order > 0
  {
    var ra := PrepareKap(a.kap, a.r).ptBuf;
    if |ra| > 255 then None else Signed(a, scheme, ir, rr, Sm2Params(ra) + KemParams(a.ciphertext))
  }

  // --- Reading --------------------------------------------------------------------------

  function BE16(s: Bytes): U16
    requires |s| >= 2
  {
    s[0] as int * 256 + s[1] as int
  }

  /** Scheme, length and signature must fill what follows the parameters; only SM2 with SM3
      is accepted. */
  function CheckSignature(a: Agent, scheme: U16, ir: Bytes, rr: Bytes, params: Bytes, sig: Bytes): Option<Reason> {
    if |sig| < 4 then Some(Malformed)
    else if BE16(sig) != scheme then Some(WrongAlgorithm)
    else if BE16(sig[2..]) as int + 4 != |sig| then Some(Malformed)
    else if scheme != SM2_WITH_SM3 then Some(Malformed)
    else if !a.verifyRemote(Message(ir, rr, params), sig[4..]) then Some(BadSignature)
    else None
  }

  function Sm2Secret(a: Agent, ephemeral: Bytes): Outcome
    requires a.kap.suite.order > 0
  {
    if ephemeral == [] then Crash
    else match ComputeKap(PrepareKap(a.kap, a.r), ephemeral, SECRET_LEN)
      case None => Refused(Malformed)
      case Some(computed) => Secret(computed.key)
  }

  datatype Params = Found(params: Bytes) | NotFound(reason: Reason)

  /** The SM2 parameters, which must leave `minimum - 4` bytes after them. */
  function CurvePart(key: Bytes, minimum: nat): (p: Params)
    requires minimum >= 4
    ensures p.Found? ==> 4 <= |p.params| <= |key| - (minimum - 4)
  {
    if |key| < minimum then NotFound(Malformed)
    else if key[0] != NAMED_CURVE || BE16(key[1..]) != SM2_CURVE then NotFound(UnsupportedCurve)
    else if key[3] as int + minimum > |key| then NotFound(Malformed)
    else Found(key[..4 + key[3] as int])
  }

  /** The secret is computed before the signature is looked at. */
  function ProcessSm2(a: Agent, scheme: U16, ir: Bytes, rr: Bytes, key: Bytes): Outcome
    requires a.kap.suite.order > 0
  {
    match CurvePart(key, 4)
    case NotFound(reason) => Refused(reason)
    case Found(params) =>
      var sig := key[|params|..];
      var secret := Sm2Secret(a, params[4..]);
      if |sig| < 2 then Refused(Malformed)
      else if !secret.Secret? then secret
      else match CheckSignature(a, scheme, ir, rr, params, sig)
        case None => secret
        case Some(reason) => Refused(reason)
  }

  /** The signature covers both parameter blocks and is checked first. */
  function ProcessHybrid(a: Agent, scheme: U16, ir: Bytes, rr: Bytes, key: Bytes): Outcome
    requires a.kap.suite.order > 0
  {
    match CurvePart(key, 8)
    case NotFound(reason) => Refused(reason)
    case Found(params) =>
      var rest := key[|params|..];
      var n := BE16(rest[2..]) as int;
      if BE16(rest) != KEM_GROUP then Refused(UnsupportedGroup)
      else if n != CIPHERTEXT_SIZE || 4 + n > |rest| then Refused(Malformed)
      else match CheckSignature(a, scheme, ir, rr, params + rest[..4 + n], rest[4 + n..])
        case Some(reason) => Refused(reason)
        case None => Combined(a, Sm2Secret(a, params[4..]), rest[4..4 + n])
  }

  /** The SM2 secret, the initiator's KEM secret and the responder's, in this order. */
  function Combined(a: Agent, sm2: Outcome, ciphertext: Bytes): Outcome {
    if sm2.Crash? then Crash
    else if sm2.Refused? then Refused(Malformed)
    else match a.decapsulate(ciphertext)
      case None => Refused(BadCiphertext)
      case Some(remote) =>
        if |a.secret| != KEM_SECRET_SIZE || |remote| != KEM_SECRET_SIZE then Refused(Malformed)
        else Secret(if a.kap.initiator then sm2.preMaster + a.secret + remote else sm2.preMaster + remote + a.secret)
  }

  // --- Round trips ----------------------------------------------------------------------

  /** The SM2 parameters are found again exactly when the point's length fits its byte. */
  lemma ParamsReadBack(ra: Bytes, rest: Bytes, minimum: nat)
    requires 4 <= minimum <= 4 + |rest|
    ensures CurvePart(Sm2Params(ra) + rest, minimum) == Found(Sm2Params(ra)) <==> |ra| <= 255
  {
    var key := Sm2Params(ra) + rest;
    assert key[1..][0] == key[1] && key[1..][1] == key[2];
    assert key[..4 + |ra|] == Sm2Params(ra);
    if |ra| > 255 {
      assert |key[..4 + key[3] as int]| != |Sm2Params(ra)|;
    }
  }

  /** A written signature part is accepted exactly when the signature verifies over the
      same message, its length fits two bytes and its scheme is the negotiated one. */
  lemma SignatureReadsBack(a: Agent, scheme: U16, ir: Bytes, rr: Bytes, params: Bytes, sent: U16, signature: Bytes)
    ensures CheckSignature(a, scheme, ir, rr, params, SignaturePart(sent, signature)).None?
            <==> sent == scheme == SM2_WITH_SM3 && |signature| <= 65535
                 && a.verifyRemote(Message(ir, rr, params), signature)
  {
    var sig := SignaturePart(sent, signature);
    assert sig[4..] == signature;
    assert sig[2..][0] == sig[2] && sig[2..][1] == sig[3];
  }

  /** The peer's parser recovers the parameters and the signature exactly when both lengths
      fit, and then checks the signature over the very bytes that were signed. */
  lemma Sm2RoundTrip(a: Agent, scheme: U16, ir: Bytes, rr: Bytes, ra: Bytes, signature: Bytes)
    requires a.kap.suite.order > 0 && Sm2Secret(a, ra).Secret? && ra != [] && |ra| <= 255
    ensures var out := ProcessSm2(a, scheme, ir, rr, Sm2Params(ra) + SignaturePart(scheme, signature));
            && (out.Secret? <==> scheme == SM2_WITH_SM3 && |signature| <= 65535
                                 && a.verifyRemote(Message(ir, rr, Sm2Params(ra)), signature))
            && (out.Secret? ==> out == Sm2Secret(a, ra))
  {
    hide ComputeKap, CheckSignature, CurvePart, Sm2Secret;
    var key := Sm2Params(ra) + SignaturePart(scheme, signature);
    ParamsReadBack(ra, SignaturePart(scheme, signature), 4);
    assert key[|Sm2Params(ra)|..] == SignaturePart(scheme, signature);
    assert Sm2Params(ra)[4..] == ra;
    SignatureReadsBack(a, scheme, ir, rr, Sm2Params(ra), scheme, signature);
  }

  /** The same for the hybrid message: a signature over both parameter blocks that is
      accepted leads to the secrets of exactly the point and the ciphertext that were sent. */
  lemma HybridRoundTrip(a: Agent, scheme: U16, ir: Bytes, rr: Bytes, ra: Bytes, ciphertext: Bytes, signature: Bytes)
    requires a.kap.suite.order > 0 && |ra| <= 255 && |ciphertext| == CIPHERTEXT_SIZE
    ensures var params := Sm2Params(ra) + KemParams(ciphertext);
            var out := ProcessHybrid(a, scheme, ir, rr, params + SignaturePart(scheme, signature));
            if scheme == SM2_WITH_SM3 && |signature| <= 65535 && a.verifyRemote(Message(ir, rr, params), signature)
            then out == Combined(a, Sm2Secret(a, ra), ciphertext)
            else out.Refused?
  {
    hide ComputeKap, CheckSignature, CurvePart, Sm2Secret, SignaturePart, Combined;
    var sig := SignaturePart(scheme, signature);
    var rest := KemParams(ciphertext) + sig;
    var params := Sm2Params(ra) + KemParams(ciphertext);
    assert params + sig == Sm2Params(ra) + rest;
    ParamsReadBack(ra, rest, 8);
    assert (Sm2Params(ra) + rest)[|Sm2Params(ra)|..] == rest;
    assert Sm2Params(ra)[4..] == ra;
    KemReadsBack(ciphertext, sig);
    SignatureReadsBack(a, scheme, ir, rr, params, scheme, signature);
  }

  lemma KemReadsBack(ciphertext: Bytes, rest: Bytes)
    requires |ciphertext| == CIPHERTEXT_SIZE
    ensures var s := KemParams(ciphertext) + rest;
            && |s| >= 4 + CIPHERTEXT_SIZE && BE16(s) == KEM_GROUP && BE16(s[2..]) == CIPHERTEXT_SIZE
            && s[..4 + CIPHERTEXT_SIZE] == KemParams(ciphertext)
            && s[4..4 + CIPHERTEXT_SIZE] == ciphertext && s[4 + CIPHERTEXT_SIZE..] == rest
  {
    var s := KemParams(ciphertext) + rest;
    assert s[2..][0] == s[2] && s[2..][1] == s[3];
  }

  // --- The bytes written, signed and accepted ----------------------------------------------

  /** What a peer sends in the SM2 suite: curve 4152 by name, its point, the scheme, and a
      signature over both randoms, the initiator's first, and these parameters. */
  lemma Sm2Bytes(a: Agent, ir: Bytes, rr: Bytes)
    requires a.kap.suite.order > 0
    ensures var ra := PrepareKap(a.kap, a.r).ptBuf;
            var params := [3, 16, 56, |ra| % 256] + ra;
            var sig := a.sign(ir + rr + params);
            GenerateSm2(a, 0x0909, ir, rr) == Some(params + [9, 9, |sig| / 256 % 256, |sig| % 256] + sig)
  {
    hide PrepareKap;
    var ra := PrepareKap(a.kap, a.r).ptBuf;
    var params: Bytes := [3, 16, 56, |ra| % 256] + ra;
    assert Sm2Params(ra) == params;
    var sig := a.sign(ir + rr + params);
    assert params + ([9, 9, |sig| / 256 % 256, |sig| % 256] + sig) == params + [9, 9, |sig| / 256 % 256, |sig| % 256] + sig;
  }

  /** In the hybrid suite the group and the ciphertext follow the point and are signed too; a
      point of more than 255 bytes is not sent. */
  lemma HybridBytes(a: Agent, ir: Bytes, rr: Bytes)
    requires a.kap.suite.order > 0
    ensures var ra := PrepareKap(a.kap, a.r).ptBuf;
            var ct := a.ciphertext;
            var params := [3, 16, 56, |ra| % 256] + ra + [0x11, 0xEE, |ct| / 256 % 256, |ct| % 256] + ct;
            var sig := a.sign(ir + rr + params);
            GenerateHybrid(a, 0x0909, ir, rr)
            == if |ra| > 255 then None else Some(params + [9, 9, |sig| / 256 % 256, |sig| % 256] + sig)
  {
    hide PrepareKap;
    var ra := PrepareKap(a.kap, a.r).ptBuf;
    var ct := a.ciphertext;
    var params: Bytes := [3, 16, 56, |ra| % 256] + ra + [0x11, 0xEE, |ct| / 256 % 256, |ct| % 256] + ct;
    assert Sm2Params(ra) + KemParams(ct) == params;
    var sig := a.sign(ir + rr + params);
    assert params + ([9, 9, |sig| / 256 % 256, |sig| % 256] + sig) == params + [9, 9, |sig| / 256 % 256, |sig| % 256] + sig;
  }

  /** `sig` is the scheme 0x0909, which must have been negotiated, a length that it fills, and
      a signature of the other peer over the randoms and `params`. */
  predicate SignedOver(a: Agent, scheme: U16, ir: Bytes, rr: Bytes, params: Bytes, sig: Bytes) {
    && scheme == 0x0909 && |sig| >= 4 && sig[0] == sig[1] == 9
    && sig[2] as int * 256 + sig[3] as int == |sig| - 4
    && a.verifyRemote(ir + rr + params, sig[4..])
  }

  lemma CheckedExactlyWhen(a: Agent, scheme: U16, ir: Bytes, rr: Bytes, params: Bytes, sig: Bytes)
    ensures CheckSignature(a, scheme, ir, rr, params, sig).None? <==> SignedOver(a, scheme, ir, rr, params, sig)
  {
    if |sig| >= 4 {
      assert sig[2..][0] == sig[2] && sig[2..][1] == sig[3];
      assert BE16(sig) == 0x0909 <==> sig[0] == sig[1] == 9;
    }
  }

  /** Exactly which SM2 messages are accepted, of any bytes, and that the premaster secret is
      the 32 bytes the exchange derives with the point in the message. */
  lemma Sm2AcceptedExactlyWhen(a: Agent, scheme: U16, ir: Bytes, rr: Bytes, key: Bytes)
    requires a.kap.suite.order > 0
    ensures var n := if |key| >= 4 then key[3] as int else 0;
            var out := ProcessSm2(a, scheme, ir, rr, key);
            var computed := if |key| >= 4 + n then ComputeKap(PrepareKap(a.kap, a.r), key[Min(4, |key|)..Min(4 + n, |key|)], 32)
                            else None;
            && (out.Secret? <==>
                  && |key| >= 4 + n && n > 0 && key[..3] == [3, 16, 56] && computed.Some?
                  && SignedOver(a, scheme, ir, rr, key[..4 + n], key[4 + n..]))
            && (out.Secret? ==> out.preMaster == computed.value.key)
  {
    hide PrepareKap, ComputeKap, CheckSignature, SignedOver;
    if |key| >= 4 {
      var n := key[3] as int;
      CurveBytes(key);
      if |key| >= 4 + n {
        CheckedExactlyWhen(a, scheme, ir, rr, key[..4 + n], key[4 + n..]);
        assert key[..4 + n][4..] == key[4..4 + n];
        ShortUnsigned(a, scheme, ir, rr, key[..4 + n], key[4 + n..]);
      }
    }
  }

  lemma CurveBytes(key: Bytes)
    requires |key| >= 4
    ensures key[0] == NAMED_CURVE && BE16(key[1..]) == SM2_CURVE <==> key[..3] == [3, 16, 56]
  {
    assert key[1..][0] == key[1] && key[1..][1] == key[2];
    assert key[..3] == [key[0], key[1], key[2]];
    assert key[1] as int * 256 + key[2] as int == 4152 <==> key[1] == 16 && key[2] == 56;
  }

  lemma ShortUnsigned(a: Agent, scheme: U16, ir: Bytes, rr: Bytes, params: Bytes, sig: Bytes)
    ensures |sig| < 4 ==> !SignedOver(a, scheme, ir, rr, params, sig)
  {
  }

  /** The same for the hybrid suite: group 0x11EE, a ciphertext of 1088 bytes that decapsulates,
      KEM secrets of 32 bytes; and the premaster secret is the three secrets in role order. */
  lemma HybridAcceptedExactlyWhen(a: Agent, scheme: U16, ir: Bytes, rr: Bytes, key: Bytes)
    requires a.kap.suite.order > 0 && |key| >= 8 && |key| >= 4 + key[3] as int + 1092
    ensures var n := key[3] as int;
            var m := 4 + n;
            var out := ProcessHybrid(a, scheme, ir, rr, key);
            var computed := ComputeKap(PrepareKap(a.kap, a.r), key[4..m], 32);
            var remote := a.decapsulate(key[m + 4..m + 1092]);
            && (out.Secret? <==>
                  && n > 0 && key[..3] == [3, 16, 56] && key[m..m + 4] == [0x11, 0xEE, 4, 64] && computed.Some?
                  && remote.Some? && |remote.value| == |a.secret| == 32
                  && SignedOver(a, scheme, ir, rr, key[..m + 1092], key[m + 1092..]))
            && (out.Secret? ==> out.preMaster == if a.kap.initiator then computed.value.key + a.secret + remote.value
                                                 else computed.value.key + remote.value + a.secret)
  {
    hide PrepareKap, ComputeKap, CheckSignature, SignedOver;
    var m := 4 + key[3] as int;
    var rest := key[m..];
    CurveBytes(key);
    GroupBytes(rest);
    assert rest[..4] == key[m..m + 4] && rest[..1092] == key[m..m + 1092];
    assert key[..m] + rest[..1092] == key[..m + 1092] && rest[1092..] == key[m + 1092..];
    assert rest[4..1092] == key[m + 4..m + 1092] && key[..m][4..] == key[4..m];
    CheckedExactlyWhen(a, scheme, ir, rr, key[..m + 1092], key[m + 1092..]);
  }

  lemma GroupBytes(rest: Bytes)
    requires |rest| >= 4
    ensures BE16(rest) == KEM_GROUP && BE16(rest[2..]) as int == CIPHERTEXT_SIZE <==> rest[..4] == [0x11, 0xEE, 4, 64]
  {
    assert rest[2..][0] == rest[2] && rest[2..][1] == rest[3];
    assert rest[..4] == [rest[0], rest[1], rest[2], rest[3]];
    assert rest[0] as int * 256 + rest[1] as int == 0x11EE <==> rest[0] == 0x11 && rest[1] == 0xEE;
    assert rest[2] as int * 256 + rest[3] as int == 1088 <==> rest[2] == 4 && rest[3] == 64;
  }

  /** A hybrid message too short for point and ciphertext is refused. */
  lemma ShortHybridRefused(a: Agent, scheme: U16, ir: Bytes, rr: Bytes, key: Bytes)
    requires a.kap.suite.order > 0 && (|key| < 8 || |key| < 4 + key[3] as int + 1092)
    ensures ProcessHybrid(a, scheme, ir, rr, key).Refused?
  {
    hide Sm2Secret, CheckSignature, Combined;
  }

  // --- Both peers arrive at one premaster secret ------------------------------------------

  ghost predicate SignaturesVerify(a: Agent, b: Agent) {
    forall m :: b.verifyRemote(m, a.sign(m)) && |a.sign(m)| <= 65535
  }

  /** Two honest ends: SM2 contexts that face each other, points that fit their length byte,
      and signatures that the other end verifies. */
  ghost predicate Partners(a: Agent, b: Agent): (partners: bool)
    ensures partners ==> a.kap.suite.order > 0 && b.kap.suite.order > 0
  {
    && SameSuite(a.kap, b.kap) && Facing(a.kap, b.kap) && Lawful(a.kap.suite)
    && 0 < a.r < a.kap.suite.order && 0 < b.r < b.kap.suite.order
    && (forall p :: 0 < p < a.kap.suite.order ==> |a.kap.suite.encode(p)| <= 255)
    && SignaturesVerify(a, b) && SignaturesVerify(b, a)
  }

  /** Partners are what comes of initialising two contexts for each other. */
  lemma InitialisedPartners(s: Suite, d: nat, id: Bytes, rd: nat, rid: Bytes, initiator: bool, a: Agent, b: Agent)
    requires Lawful(s) && UsableId(id) && UsableId(rid)
    requires Init(s, d, id, Public(s, rd), rid, initiator, true) == Some(a.kap)
    requires Init(s, rd, rid, Public(s, d), id, !initiator, true) == Some(b.kap)
    requires 0 < a.r < s.order && 0 < b.r < s.order
    requires forall p :: 0 < p < s.order ==> |s.encode(p)| <= 255
    requires SignaturesVerify(a, b) && SignaturesVerify(b, a)
    ensures Partners(a, b)
  {
    hide Facing, SignaturesVerify, IdDigest, UsableId, Lawful;
    assert s.order > 1 by { LawfulOrder(s); }
    InitialisedFacing(s, d, id, rd, rid, initiator, true);
  }

  lemma LawfulOrder(s: Suite)
    requires Lawful(s)
    ensures s.order > 1
  {
  }

  /** Decapsulation undoes encapsulation, with the sizes of ML-KEM-768. */
  predicate KemPartners(a: Agent, b: Agent) {
    && |a.ciphertext| == CIPHERTEXT_SIZE && |a.secret| == KEM_SECRET_SIZE && b.decapsulate(a.ciphertext) == Some(a.secret)
    && |b.ciphertext| == CIPHERTEXT_SIZE && |b.secret| == KEM_SECRET_SIZE && a.decapsulate(b.ciphertext) == Some(b.secret)
  }

  /** The point both ends arrive at; the exchange cannot go on when it is at infinity. */
  function AgreedPoint(a: Agent, b: Agent): nat
    requires a.kap.suite.order > 0
  {
    Agreed(a.kap.suite, PrepareKap(a.kap, a.r).t, a.kap.remotePublic, b.r)
  }

  function Ephemeral(a: Agent): Bytes
    requires a.kap.suite.order > 0
  {
    PrepareKap(a.kap, a.r).ptBuf
  }

  /** What the SM2 part comes to at both ends. */
  lemma SameSm2Secret(a: Agent, b: Agent)
    requires Partners(a, b)
    ensures Ephemeral(a) != [] && |Ephemeral(a)| <= 255 && Ephemeral(b) != [] && |Ephemeral(b)| <= 255
    ensures Sm2Secret(a, Ephemeral(b)) == Sm2Secret(b, Ephemeral(a))
    ensures if AgreedPoint(a, b) != 0 then Sm2Secret(a, Ephemeral(b)).Secret?
            else Sm2Secret(a, Ephemeral(b)) == Refused(Malformed)
  {
    hide ComputeKap, PrepareKap, SignaturesVerify, CheckKap, Agreed;
    KeyAgreement(a.kap, b.kap, a.r, b.r, SECRET_LEN);
    EphemeralPoint(a.kap, a.r);
    EphemeralPoint(b.kap, b.r);
  }

  /** Each end accepts the other's SM2 message, and both hold the same premaster secret,
      except exactly when the agreed point is at infinity: then both refuse. */
  lemma Sm2Premaster(a: Agent, b: Agent, ir: Bytes, rr: Bytes)
    requires Partners(a, b)
    ensures var ka, kb := GenerateSm2(a, SM2_WITH_SM3, ir, rr), GenerateSm2(b, SM2_WITH_SM3, ir, rr);
            && ka.Some? && kb.Some?
            && ProcessSm2(a, SM2_WITH_SM3, ir, rr, kb.value) == ProcessSm2(b, SM2_WITH_SM3, ir, rr, ka.value)
            && (ProcessSm2(a, SM2_WITH_SM3, ir, rr, kb.value).Secret? <==> AgreedPoint(a, b) != 0)
  {
    hide Partners, ProcessSm2, Sm2Secret, PrepareKap, AgreedPoint, Sm2Params, SignaturePart;
    SameSm2Secret(a, b);
    Sm2Accepts(a, b, ir, rr);
    PartnersSwap(a, b);
    Sm2Accepts(b, a, ir, rr);
  }

  lemma PartnersSwap(a: Agent, b: Agent)
    requires Partners(a, b)
    ensures Partners(b, a)
  {
    hide SignaturesVerify;
    SameOrder(a.kap, b.kap);
  }

  lemma Sm2Accepts(a: Agent, b: Agent, ir: Bytes, rr: Bytes)
    requires Partners(a, b)
    ensures ProcessSm2(a, SM2_WITH_SM3, ir, rr, GenerateSm2(b, SM2_WITH_SM3, ir, rr).value) == Sm2Secret(a, Ephemeral(b))
  {
    hide ProcessSm2, Sm2Secret, PrepareKap, Sm2Params, SignaturePart, Message, Lawful, Facing;
    SameSm2Secret(a, b);
    var params := Sm2Params(Ephemeral(b));
    var signature := b.sign(Message(ir, rr, params));
    assert a.verifyRemote(Message(ir, rr, params), signature) && |signature| <= 65535;
    if Sm2Secret(a, Ephemeral(b)).Secret? {
      Sm2RoundTrip(a, SM2_WITH_SM3, ir, rr, Ephemeral(b), signature);
    } else {
      RefusedAlike(a, SM2_WITH_SM3, ir, rr, Ephemeral(b), signature);
    }
  }

  lemma RefusedAlike(a: Agent, scheme: U16, ir: Bytes, rr: Bytes, ra: Bytes, signature: Bytes)
    requires a.kap.suite.order > 0 && |ra| <= 255 && !Sm2Secret(a, ra).Secret?
    ensures ProcessSm2(a, scheme, ir, rr, Sm2Params(ra) + SignaturePart(scheme, signature)) == Sm2Secret(a, ra)
  {
    hide Sm2Secret, CurvePart, CheckSignature;
    var key := Sm2Params(ra) + SignaturePart(scheme, signature);
    ParamsReadBack(ra, SignaturePart(scheme, signature), 4);
    assert key[|Sm2Params(ra)|..] == SignaturePart(scheme, signature);
    assert Sm2Params(ra)[4..] == ra;
  }

  /** In the hybrid suite both ends concatenate the SM2 secret, the initiator's KEM secret
      and the responder's, and both refuse exactly when the agreed point is at infinity. */
  lemma HybridPremaster(a: Agent, b: Agent, ir: Bytes, rr: Bytes)
    requires Partners(a, b) && KemPartners(a, b)
    ensures var ka, kb := GenerateHybrid(a, SM2_WITH_SM3, ir, rr), GenerateHybrid(b, SM2_WITH_SM3, ir, rr);
            && ka.Some? && kb.Some?
            && (var out := ProcessHybrid(a, SM2_WITH_SM3, ir, rr, kb.value);
                && out == ProcessHybrid(b, SM2_WITH_SM3, ir, rr, ka.value)
                && (out.Secret? <==> AgreedPoint(a, b) != 0)
                && (out.Secret? ==>
                      && Sm2Secret(a, Ephemeral(b)).Secret?
                      && out.preMaster == Sm2Secret(a, Ephemeral(b)).preMaster
                                          + if a.kap.initiator then a.secret + b.secret else b.secret + a.secret))
  {
    hide Partners, ProcessHybrid, Sm2Secret, PrepareKap, AgreedPoint, Sm2Params, KemParams, SignaturePart, GenerateHybrid;
    SameSm2Secret(a, b);
    HybridAccepts(a, b, ir, rr);
    PartnersSwap(a, b);
    HybridAccepts(b, a, ir, rr);
    OppositeRoles(a, b);
    var sm2 := Sm2Secret(a, Ephemeral(b));
    if sm2.Secret? {
      var s := sm2.preMaster;
      assert s + a.secret + b.secret == s + (a.secret + b.secret);
      assert s + b.secret + a.secret == s + (b.secret + a.secret);
    }
  }

  lemma OppositeRoles(a: Agent, b: Agent)
    requires Partners(a, b)
    ensures a.kap.initiator != b.kap.initiator
  {
    hide SignaturesVerify;
  }

  lemma HybridAccepts(a: Agent, b: Agent, ir: Bytes, rr: Bytes)
    requires Partners(a, b) && KemPartners(a, b)
    ensures GenerateHybrid(b, SM2_WITH_SM3, ir, rr).Some?
    ensures ProcessHybrid(a, SM2_WITH_SM3, ir, rr, GenerateHybrid(b, SM2_WITH_SM3, ir, rr).value)
            == Combined(a, Sm2Secret(a, Ephemeral(b)), b.ciphertext)
  {
    hide ProcessHybrid, Sm2Secret, PrepareKap, Sm2Params, KemParams, SignaturePart, Message, Lawful, Facing, Combined;
    SameSm2Secret(a, b);
    var params := Sm2Params(Ephemeral(b)) + KemParams(b.ciphertext);
    var signature := b.sign(Message(ir, rr, params));
    assert a.verifyRemote(Message(ir, rr, params), signature) && |signature| <= 65535;
    HybridRoundTrip(a, SM2_WITH_SM3, ir, rr, Ephemeral(b), b.ciphertext, signature);
  }

  // --- The key agreement objects ----------------------------------------------------------

  class ExchangeContext {
    const agent: Agent
    const ctxLocal: KapContext
    var kxmLocal: Bytes
    var localKEMSecret: Bytes
    var preMasterSecret: Bytes

    constructor (agent: Agent)
      requires agent.kap.suite.order > 0
      ensures this.agent == agent && Fresh() && fresh(ctxLocal)
    {
      this.agent := agent;
      ctxLocal := new KapContext(agent.kap);
      kxmLocal, localKEMSecret, preMasterSecret := [], [], [];
    }

    ghost predicate Fresh()
      reads this, ctxLocal
    {
      agent.kap.suite.order > 0 && ctxLocal.Value() == agent.kap
    }

    /** The ephemeral key has been made. */
    ghost predicate Prepared()
      reads this, ctxLocal
    {
      agent.kap.suite.order > 0 && ctxLocal.Value() == PrepareKap(agent.kap, agent.r)
    }

    static method CurveParams(ra: Bytes) returns (params: Bytes)
      ensures params == Sm2Params(ra)
    {
      var key := new Byte[4 + |ra|];
      key[0] := 3;
      key[1] := SM2_CURVE / 256;
      key[2] := SM2_CURVE % 256;
      key[3] := |ra| % 256;
      var n := CopyAt(key, 4, ra);
      assert key[..4 + |ra|] == Sm2Params(ra);
      params := key[..];
    }

    static method GroupParams(ciphertext: Bytes) returns (params: Bytes)
      ensures params == KemParams(ciphertext)
    {
      var kem := new Byte[4 + |ciphertext|];
      kem[0] := KEM_GROUP / 256;
      kem[1] := KEM_GROUP % 256;
      kem[2] := |ciphertext| / 256 % 256;
      kem[3] := |ciphertext| % 256;
      var n := CopyAt(kem, 4, ciphertext);
      assert kem[..4 + |ciphertext|] == KemParams(ciphertext);
      params := kem[..];
    }

    /** Joins the slices, as the source does for SM2 with SM3. */
    static method HashForKeyExchange(slices: seq<Bytes>) returns (signed: Bytes)
      ensures |slices| == 3 ==> signed == Message(slices[0], slices[1], slices[2])
    {
      signed := [];
      for i := 0 to |slices|
        invariant i == 0 ==> signed == []
        invariant |slices| == 3 && i == 1 ==> signed == slices[0]
        invariant |slices| == 3 && i == 2 ==> signed == slices[0] + slices[1]
        invariant |slices| == 3 && i == 3 ==> signed == slices[0] + slices[1] + slices[2]
      {
        assert [] + slices[i] == slices[i];
        signed := signed + slices[i];
      }
    }

    method SignParams(scheme: U16, ir: Bytes, rr: Bytes, params: Bytes) returns (r: Option<Bytes>)
      modifies this`kxmLocal
      ensures r == Signed(agent, scheme, ir, rr, params)
    {
      var message := HashForKeyExchange([ir, rr, params]);
      var signed := if scheme == SM2_WITH_SM3 then Some(message) else agent.signedForm(scheme, message);
      if signed.None? {
        return None;
      }
      var signature := agent.sign(signed.value);
      kxmLocal := params;
      kxmLocal := kxmLocal + [scheme / 256, scheme % 256];
      kxmLocal := kxmLocal + [|signature| / 256 % 256, |signature| % 256];
      kxmLocal := kxmLocal + signature;
      assert kxmLocal == params + SignaturePart(scheme, signature);
      return Some(kxmLocal);
    }

    method GenerateSm2Local(scheme: U16, ir: Bytes, rr: Bytes) returns (r: Option<Bytes>)
      requires Fresh()
      modifies this`kxmLocal, ctxLocal
      ensures Prepared() && r == GenerateSm2(agent, scheme, ir, rr)
    {
      hide PrepareKap, Sm2Params, Signed;
      var ra := ctxLocal.Prepare(agent.r);
      var params := CurveParams(ra);
      r := SignParams(scheme, ir, rr, params);
    }

    method GenerateHybridLocal(scheme: U16, ir: Bytes, rr: Bytes) returns (r: Option<Bytes>)
      requires Fresh()
      modifies this`kxmLocal, this`localKEMSecret, ctxLocal
      ensures Prepared() && r == GenerateHybrid(agent, scheme, ir, rr)
      ensures r.Some? ==> localKEMSecret == agent.secret
    {
      hide PrepareKap, Sm2Params, KemParams, Signed;
      var ra := ctxLocal.Prepare(agent.r);
      if |ra| > 255 {
        return None;
      }
      var params := CurveParams(ra);
      localKEMSecret := agent.secret;
      var kem := GroupParams(agent.ciphertext);
      r := SignParams(scheme, ir, rr, params + kem);
    }

    method CheckSignaturePart(scheme: U16, ir: Bytes, rr: Bytes, params: Bytes, sig: Bytes) returns (r: Option<Reason>)
      ensures r == CheckSignature(agent, scheme, ir, rr, params, sig)
    {
      if |sig| < 4 {
        return Some(Malformed);
      }
      if BE16(sig) != scheme {
        return Some(WrongAlgorithm);
      }
      var rest := sig[2..];
      var sigLen := BE16(rest) as int;
      if sigLen + 2 != |rest| {
        return Some(Malformed);
      }
      rest := rest[2..];
      assert rest == sig[4..];
      if scheme != SM2_WITH_SM3 {
        return Some(Malformed);
      }
      var signed := HashForKeyExchange([ir, rr, params]);
      if !agent.verifyRemote(signed, rest) {
        return Some(BadSignature);
      }
      return None;
    }

    method ComputeSecret(ephemeral: Bytes) returns (o: Outcome)
      requires Prepared()
      modifies ctxLocal
      ensures o == Sm2Secret(agent, ephemeral)
    {
      hide ComputeKap;
      if ephemeral == [] {
        return Crash;
      }
      var computed := ctxLocal.ComputeKey(ephemeral, 32);
      if computed.None? {
        return Refused(Malformed);
      }
      return Secret(computed.value.0);
    }

    method ProcessSm2Remote(scheme: U16, ir: Bytes, rr: Bytes, key: Bytes) returns (o: Outcome)
      requires Prepared()
      modifies this`preMasterSecret, ctxLocal
      ensures o == ProcessSm2(agent, scheme, ir, rr, key)
    {
      hide PrepareKap, Sm2Secret, CheckSignature;
      if |key| < 4 {
        return Refused(Malformed);
      }
      if key[0] != 3 || BE16(key[1..]) != SM2_CURVE {
        return Refused(UnsupportedCurve);
      }
      var publicLen := key[3] as int;
      if publicLen + 4 > |key| {
        return Refused(Malformed);
      }
      var params := key[..4 + publicLen];
      var sig := key[4 + publicLen..];
      if |sig| < 2 {
        return Refused(Malformed);
      }
      o := ComputeSecret(params[4..]);
      if !o.Secret? {
        return;
      }
      preMasterSecret := o.preMaster;
      var refused := CheckSignaturePart(scheme, ir, rr, params, sig);
      if refused.Some? {
        return Refused(refused.value);
      }
    }

    method ProcessHybridRemote(scheme: U16, ir: Bytes, rr: Bytes, key: Bytes) returns (o: Outcome)
      requires Prepared() && localKEMSecret == agent.secret
      modifies ctxLocal
      ensures o == ProcessHybrid(agent, scheme, ir, rr, key)
    {
      hide PrepareKap, Sm2Secret, CheckSignature;
      if |key| < 8 {
        return Refused(Malformed);
      }
      if key[0] != 3 || BE16(key[1..]) != SM2_CURVE {
        return Refused(UnsupportedCurve);
      }
      var publicLen := key[3] as int;
      if publicLen + 8 > |key| {
        return Refused(Malformed);
      }
      var sm2Params := key[..4 + publicLen];
      var offset := 4 + publicLen;
      ghost var rest := key[offset..];
      assert key[offset..offset + 2] == rest[..2] && key[offset + 2..offset + 4] == rest[2..4];
      if BE16(key[offset..offset + 2]) != KEM_GROUP {
        return Refused(UnsupportedGroup);
      }
      var n := BE16(key[offset + 2..offset + 4]) as int;
      if n != 1088 || offset + 4 + n > |key| {
        return Refused(Malformed);
      }
      var params := key[..offset + 4 + n];
      var ciphertext := key[offset + 4..offset + 4 + n];
      var sig := key[offset + 4 + n..];
      assert params == sm2Params + rest[..4 + n] && ciphertext == rest[4..4 + n] && sig == rest[4 + n..];
      var refused := CheckSignaturePart(scheme, ir, rr, params, sig);
      if refused.Some? {
        return Refused(refused.value);
      }
      var sm2 := ComputeSecret(sm2Params[4..]);
      if sm2.Crash? {
        return Crash;
      }
      if sm2.Refused? {
        return Refused(Malformed);
      }
      var remote := agent.decapsulate(ciphertext);
      if remote.None? {
        return Refused(BadCiphertext);
      }
      if |localKEMSecret| != 32 || |remote.value| != 32 {
        return Refused(Malformed);
      }
      var secret := sm2.preMaster;
      if agent.kap.initiator {
        secret := secret + localKEMSecret;
        secret := secret + remote.value;
      } else {
        secret := secret + remote.value;
        secret := secret + localKEMSecret;
      }
      return Secret(secret);
    }
  }
}
