/** The handshake with the repository's two suites: peers whose key agreement is that of
    KeyExchange meet what the handshake asks of honest peers
    (e2ewebsocket/key_agreement_factory_sm2mlkem.go). */
module HandshakeKeys {
  import opened Common
  import opened Cryptobyte
  import opened KeyExchange
  import opened Negotiation
  import HalfConn
  import HandshakeMessage
  import Hmac
  import FinishedHash
  import Prf
  import opened HandshakeSpec
  import opened HandshakeRefinement
  import opened HandshakeRuns

  const SM2_SUITE: U16 := 0x002b
  const HYBRID_SUITE: U16 := 0x0031

  /** The key agreement a suite names. */
  function ExchangeOf(a: Agent): Terms -> Option<Bytes>
    requires a.kap.suite.order > 0
  {
    (t: Terms) =>
      if t.suite == SM2_SUITE then GenerateSm2(a, t.scheme, t.initiatorRandom, t.responderRandom)
      else if t.suite == HYBRID_SUITE then GenerateHybrid(a, t.scheme, t.initiatorRandom, t.responderRandom)
      else None
  }

  function Accepted(o: Outcome): Option<Bytes> {
    if o.Secret? then Some(o.preMaster) else None
  }

  function PreMasterOf(a: Agent): (Terms, Bytes) -> Option<Bytes>
    requires a.kap.suite.order > 0
  {
    (t: Terms, key: Bytes) =>
      if t.suite == SM2_SUITE then Accepted(ProcessSm2(a, t.scheme, t.initiatorRandom, t.responderRandom, key))
      else if t.suite == HYBRID_SUITE then Accepted(ProcessHybrid(a, t.scheme, t.initiatorRandom, t.responderRandom, key))
      else None
  }

  ghost predicate Uses(p: Party, a: Agent)
    requires a.kap.suite.order > 0
  {
    p.keyExchange == ExchangeOf(a) && p.preMaster == PreMasterOf(a)
  }

  /** Under either suite two partners' exchanges succeed, and agree, exactly when the point
      they agree on is not at infinity. */
  lemma AgentsAgree(p: Party, r: Party, a: Agent, b: Agent, t: Terms)
    requires Partners(a, b) && Uses(p, a) && Uses(r, b)
    requires t.suite == SM2_SUITE || (t.suite == HYBRID_SUITE && KemPartners(a, b))
    requires t.scheme == SM2_WITH_SM3
    ensures p.keyExchange(t).Some? && r.keyExchange(t).Some?
    ensures p.preMaster(t, r.keyExchange(t).value) == r.preMaster(t, p.keyExchange(t).value)
    ensures p.preMaster(t, r.keyExchange(t).value).Some? <==> AgreedPoint(a, b) != 0
  {
    hide Partners, KemPartners, GenerateSm2, GenerateHybrid, ProcessSm2, ProcessHybrid, AgreedPoint;
    Sm2Premaster(a, b, t.initiatorRandom, t.responderRandom);
    if t.suite == HYBRID_SUITE {
      HybridPremaster(a, b, t.initiatorRandom, t.responderRandom);
    }
  }

  /** And so they meet the handshake's condition on key agreement, when the message fits. */
  lemma HandshakeKeysAgree(p: Party, r: Party, a: Agent, b: Agent, t: Terms)
    requires Partners(a, b) && Uses(p, a) && Uses(r, b)
    requires t.suite == SM2_SUITE || (t.suite == HYBRID_SUITE && KemPartners(a, b))
    requires t.scheme == SM2_WITH_SM3 && p.keyExchange(t).Some?
    ensures KeysAgree(p, r, t) <==>
              AgreedPoint(a, b) != 0
              && |HandshakeMessage.MarshalKeyExchange(p.keyExchange(t).value)| <= MAX_HANDSHAKE
  {
    hide Partners, KemPartners, ExchangeOf, PreMasterOf, AgreedPoint, HandshakeMessage.MarshalKeyExchange;
    AgentsAgree(p, r, a, b, t);
  }

  /** Which key agreement a suite runs: 0x002b that of SM2 alone, 0x0031 the hybrid one, whose
      secret holds both KEM secrets; no other suite has one. */
  lemma SuitePremaster(a: Agent, b: Agent, t: Terms)
    requires Partners(a, b) && t.scheme == SM2_WITH_SM3 && AgreedPoint(a, b) != 0
    ensures Sm2Secret(a, Ephemeral(b)).Secret?
    ensures var sm2 := Sm2Secret(a, Ephemeral(b)).preMaster;
            && (t.suite == 0x002b ==>
                  ExchangeOf(b)(t).Some? && PreMasterOf(a)(t, ExchangeOf(b)(t).value) == Some(sm2))
            && (t.suite == 0x0031 && KemPartners(a, b) ==>
                  ExchangeOf(b)(t).Some?
                  && PreMasterOf(a)(t, ExchangeOf(b)(t).value)
                     == Some(sm2 + if a.kap.initiator then a.secret + b.secret else b.secret + a.secret))
            && (t.suite !in {0x002b, 0x0031} ==> ExchangeOf(b)(t).None?)
  {
    hide Partners, KemPartners, GenerateSm2, GenerateHybrid, ProcessSm2, ProcessHybrid, AgreedPoint, Sm2Secret;
    SameSm2Secret(a, b);
    Sm2Accepts(a, b, t.initiatorRandom, t.responderRandom);
    Sm2Premaster(a, b, t.initiatorRandom, t.responderRandom);
    if KemPartners(a, b) {
      HybridPremaster(a, b, t.initiatorRandom, t.responderRandom);
    }
  }

  // --- The repository's own crypto --------------------------------------------------------

  const SUITE_ORDER: seq<U16> := [HYBRID_SUITE, SM2_SUITE]
  const SCHEME_ORDER: seq<U16> := [SM2_WITH_SM3]

  /** Key and fixed nonce lengths of SM4-128-GCM, which has no separate MAC key. */
  const KEY_LEN: nat := 16
  const IV_LEN: nat := 4

  datatype Primitives = Primitives(sha256: Hmac.Algorithm, sm3: Hmac.Algorithm, newAead: (Bytes, Bytes) -> HalfConn.Aead)

  ghost predicate LawfulPrimitives(x: Primitives) {
    && Hmac.Lawful(x.sha256) && Hmac.Lawful(x.sm3)
    && forall key, iv :: HalfConn.Lawful(x.newAead(key, iv)) && x.newAead(key, iv).explicitNonceLen > 0
  }

  /** A peer's randomness suffices for the explicit nonces that are drawn. */
  ghost predicate EnoughRandom(x: Primitives, rand: Bytes) {
    forall key, iv :: x.newAead(key, iv).explicitNonceLen >= 16 ==> |rand| >= x.newAead(key, iv).explicitNonceLen
  }

  /** Only the hybrid suite carries the flag for SM3; the other falls back to SHA-256. */
  function HashOf(x: Primitives, suite: U16): Hmac.Algorithm {
    if suite == HYBRID_SUITE then x.sm3 else x.sha256
  }

  ghost function TrafficCiphers(x: Primitives, suite: U16, master: Bytes, ir: Bytes, rr: Bytes): Ciphers
    requires LawfulPrimitives(x)
  {
    var block := Prf.KeyMaterial(HashOf(x, suite), master, ir, rr, Prf.KeyBlockLen(0, KEY_LEN, IV_LEN));
    var k := Prf.CutKeys(block, 0, KEY_LEN, IV_LEN);
    Ciphers(x.newAead(k.initiatorKey, k.initiatorIV), x.newAead(k.responderKey, k.responderIV))
  }

  ghost function FinishedSumOf(x: Primitives, suite: U16, master: Bytes, name: string, transcript: Bytes): (sum: Bytes)
    requires LawfulPrimitives(x)
    ensures |sum| == 12
  {
    FinishedHash.Sum(HashOf(x, suite), master, name, transcript)
  }

  /** Key derivation and Finished sums by P_hash. */
  ghost function SuiteCrypto(x: Primitives, versionOrder: seq<U16>): Crypto
    requires LawfulPrimitives(x)
  {
    Crypto(versionOrder, SUITE_ORDER, SCHEME_ORDER, {SM2_SUITE, HYBRID_SUITE},
           (suite: U16, pre, ir, rr) => Prf.MasterSecret(HashOf(x, suite), pre, ir, rr),
           (suite: U16, master, ir, rr) => TrafficCiphers(x, suite, master, ir, rr),
           (suite: U16, master, name, transcript) => FinishedSumOf(x, suite, master, name, transcript))
  }

  /** Two peers with the repository's crypto and key agreement, whose hellos share a suite
      and the signature scheme. */
  ghost predicate AgentPeers(x: Primitives, c: Crypto, p: Party, r: Party, a: Agent, b: Agent): (peers: bool)
    ensures peers ==> a.kap.suite.order > 0 && b.kap.suite.order > 0
  {
    && LawfulPrimitives(x) && c == SuiteCrypto(x, c.versionOrder)
    && Orderly(c, p) && Orderly(c, r) && p.id != r.id
    && Share(p.hello.suites, r.hello.suites) && Share(p.hello.schemes, r.hello.schemes)
    && EnoughRandom(x, p.rand) && EnoughRandom(x, r.rand)
    && Partners(a, b) && Uses(p, a) && Uses(r, b)
    && (TermsOf(p, r).suite == HYBRID_SUITE ==> KemPartners(a, b))
  }

  /** Both key exchange messages are short enough to be read. */
  predicate MessagesFit(p: Party, r: Party, t: Terms) {
    && (p.keyExchange(t).Some? ==> |HandshakeMessage.MarshalKeyExchange(p.keyExchange(t).value)| <= MAX_HANDSHAKE)
    && (r.keyExchange(t).Some? ==> |HandshakeMessage.MarshalKeyExchange(r.keyExchange(t).value)| <= MAX_HANDSHAKE)
  }

  lemma AgreedTerms(x: Primitives, c: Crypto, p: Party, r: Party, a: Agent, b: Agent)
    requires AgentPeers(x, c, p, r, a, b)
    ensures var t := TermsOf(p, r);
            && t == TermsOf(r, p)
            && t.suite in {SM2_SUITE, HYBRID_SUITE} && t.scheme == SM2_WITH_SM3
  {
    hide Intersect, Partners, KemPartners, Uses, EnoughRandom, LawfulPrimitives;
    SameTerms(c, p, r);
    PicksMostPreferred(SUITE_ORDER, p.hello.suites, r.hello.suites);
    PicksMostPreferred(SCHEME_ORDER, p.hello.schemes, r.hello.schemes);
    assert Intersect(p.hello.suites, r.hello.suites) in SUITE_ORDER;
    assert Intersect(p.hello.schemes, r.hello.schemes) in SCHEME_ORDER;
  }

  lemma CiphersLawful(x: Primitives, c: Crypto, rand: Bytes)
    requires LawfulPrimitives(x) && EnoughRandom(x, rand) && c == SuiteCrypto(x, c.versionOrder)
    ensures forall s, m, i, q :: LawfulFor(c.ciphers(s, m, i, q).initiator, rand)
                                 && LawfulFor(c.ciphers(s, m, i, q).responder, rand)
    ensures forall s, m, n, h :: |c.finishedSum(s, m, n, h)| == 12
  {
    hide HalfConn.Lawful, Hmac.Lawful;
    forall s: U16, m, i, q
      ensures LawfulFor(c.ciphers(s, m, i, q).initiator, rand) && LawfulFor(c.ciphers(s, m, i, q).responder, rand)
    {
      hide Prf.KeyMaterial, Prf.CutKeys;
      assert c.ciphers(s, m, i, q) == TrafficCiphers(x, s, m, i, q);
    }
  }

  /** Such peers are honest peers of the handshake exactly when the point they agree on is
      not at infinity and their messages fit. */
  lemma AgentPeersHonest(x: Primitives, c: Crypto, p: Party, r: Party, a: Agent, b: Agent)
    requires AgentPeers(x, c, p, r, a, b)
    ensures Honest(c, p, r) <==> AgreedPoint(a, b) != 0 && MessagesFit(p, r, TermsOf(p, r))
  {
    hide Partners, KemPartners, Uses, AgreedPoint, LawfulPrimitives, EnoughRandom, TermsOf, Orderly, LawfulFor,
      HandshakeMessage.MarshalKeyExchange;
    var t := TermsOf(p, r);
    AgreedTerms(x, c, p, r, a, b);
    CiphersLawful(x, c, p.rand);
    CiphersLawful(x, c, r.rand);
    AgentsAgree(p, r, a, b, t);
  }

  /** And then every run of theirs can be completed, in agreement, with the master secret
      that the PRF derives from the premaster secret of their key agreement. */
  lemma AgentPeersComplete(x: Primitives, c: Crypto, p: Party, r: Party, a: Agent, b: Agent, events: seq<Event>)
    returns (more: seq<Event>)
    requires AgentPeers(x, c, p, r, a, b)
    requires AgreedPoint(a, b) != 0 && MessagesFit(p, r, TermsOf(p, r))
    requires Run(c, p, r, events).Some? && events != []
    ensures Run(c, p, r, events + more).Some? && Finished(Run(c, p, r, events + more).value)
    ensures var n := Run(c, p, r, events + more).value;
            var t := TermsOf(p, r);
            && Agreement(c, n.a, n.b, p, r) && Agreement(c, n.b, n.a, r, p)
            && ExchangeOf(b)(t).Some? && PreMasterOf(a)(t, ExchangeOf(b)(t).value).Some?
            && LawfulPrimitives(x)
            && n.a.master == n.b.master
            && n.a.master == Prf.MasterSecret(HashOf(x, t.suite), PreMasterOf(a)(t, ExchangeOf(b)(t).value).value,
                                              t.initiatorRandom, t.responderRandom)
  {
    hide AgentPeers, AgreedPoint, MessagesFit, Run, Honest, Agreement, TermsOf, Prf.MasterSecret, ExchangeOf, PreMasterOf, Master;
    AgentPeersHonest(x, c, p, r, a, b);
    more := EveryRunCompletes(c, p, r, events);
    PeersAgree(c, p, r, events + more);
    CompletedHolds(c, p, r, events + more);
    MasterDerived(x, c, p, r, a, b);
    SameMasters(c, Run(c, p, r, events + more).value, p, r);
  }

  lemma SameMasters(c: Crypto, n: Net, p: Party, r: Party)
    requires Agreement(c, n.a, n.b, p, r)
    ensures n.a.master == n.b.master
  {
  }

  lemma MasterDerived(x: Primitives, c: Crypto, p: Party, r: Party, a: Agent, b: Agent)
    requires AgentPeers(x, c, p, r, a, b) && AgreedPoint(a, b) != 0
    ensures var t := TermsOf(p, r);
            && ExchangeOf(b)(t).Some? && PreMasterOf(a)(t, ExchangeOf(b)(t).value).Some?
            && LawfulPrimitives(x)
            && Master(c, p, r) == Prf.MasterSecret(HashOf(x, t.suite), PreMasterOf(a)(t, ExchangeOf(b)(t).value).value,
                                                   t.initiatorRandom, t.responderRandom)
  {
    hide Partners, KemPartners, AgreedPoint, EnoughRandom, TermsOf, Orderly, Prf.MasterSecret, LawfulPrimitives,
      ExchangeOf, PreMasterOf;
    AgreedTerms(x, c, p, r, a, b);
    AgentsAgree(p, r, a, b, TermsOf(p, r));
  }

  // --- The bytes of a completed handshake --------------------------------------------------

  /** The hellos and key exchanges of a handshake, of either kind that of the peer with the
      larger name first. */
  function ExchangedBytes(p: Party, r: Party, t: Terms): Bytes
    requires p.hello.versions != [] && r.hello.versions != []
    requires HandshakeMessage.MarshalHello(p.hello).Some? && HandshakeMessage.MarshalHello(r.hello).Some?
    requires p.keyExchange(t).Some? && r.keyExchange(t).Some?
  {
    var hp, hr := HandshakeMessage.MarshalHello(p.hello).value, HandshakeMessage.MarshalHello(r.hello).value;
    var kp, kr := HandshakeMessage.MarshalKeyExchange(p.keyExchange(t).value),
                  HandshakeMessage.MarshalKeyExchange(r.keyExchange(t).value);
    if LexLess(r.id, p.id) then hp + hr + kp + kr else hr + hp + kr + kp
  }

  lemma ExchangesDone(x: Primitives, c: Crypto, p: Party, r: Party, a: Agent, b: Agent)
    requires AgentPeers(x, c, p, r, a, b)
    ensures p.hello.versions != [] && r.hello.versions != []
    ensures HandshakeMessage.MarshalHello(p.hello).Some? && HandshakeMessage.MarshalHello(r.hello).Some?
    ensures var t := TermsOf(p, r);
            && p.keyExchange(t).Some? && r.keyExchange(t).Some?
            && FullTranscript(p, r) == ExchangedBytes(p, r, t)
  {
    hide Partners, KemPartners, Uses, EnoughRandom, LawfulPrimitives, TermsOf, HandshakeMessage.MarshalHello,
      HandshakeMessage.MarshalKeyExchange;
    AgreedTerms(x, c, p, r, a, b);
    AgentsAgree(p, r, a, b, TermsOf(p, r));
    OrderlyWrites(c, p);
    OrderlyWrites(c, r);
  }

  /** What a completed peer's transcript is: the exchanged messages in role order, and the
      other's Finished, which is type 20, length 12 and the first twelve bytes of
      HMAC(master, HMAC(master, s) + s), s being the other's name and the hash of the exchanged
      messages; with SHA-256 under suite 0x002b and SM3 under 0x0031. */
  lemma CompletedTranscript(x: Primitives, c: Crypto, p: Party, r: Party, a: Agent, b: Agent, events: seq<Event>)
    requires AgentPeers(x, c, p, r, a, b) && AgreedPoint(a, b) != 0 && MessagesFit(p, r, TermsOf(p, r))
    requires x.sha256.size >= 12 && x.sm3.size >= 12
    requires Run(c, p, r, events).Some? && Run(c, p, r, events).value.a.phase == Complete
    ensures p.hello.versions != [] && r.hello.versions != []
    ensures HandshakeMessage.MarshalHello(p.hello).Some? && HandshakeMessage.MarshalHello(r.hello).Some?
    ensures p.keyExchange(TermsOf(p, r)).Some? && r.keyExchange(TermsOf(p, r)).Some?
    ensures var n := Run(c, p, r, events).value.a;
            var h := if n.suite == 0x002b then x.sha256 else x.sm3;
            var t := ExchangedBytes(p, r, TermsOf(p, r));
            var s := Prf.Ascii(r.id) + h.digest(t);
            var mac := Hmac.Mac(h, n.master, Hmac.Mac(h, n.master, s) + s);
            && n.suite in {0x002b, 0x0031} && |mac| >= 12
            && n.transcript == t + [20, 0, 0, 12] + mac[..12]
  {
    hide AgentPeers, AgreedPoint, MessagesFit, Run, Honest, TermsOf, Prf.Ascii, Hmac.Mac, Master, FullTranscript, ExchangedBytes,
      FinishedBytes, CipherIn, CipherOut, HandshakeMessage.MarshalHello, Share;
    AgentPeersHonest(x, c, p, r, a, b);
    CompletedHolds(c, p, r, events);
    ExchangesDone(x, c, p, r, a, b);
    AgreedTerms(x, c, p, r, a, b);
    FinishedIs(x, c, p, r, a, b);
    var n := Run(c, p, r, events).value.a;
    assert n.transcript == FullTranscript(p, r) + FinishedBytes(c, r, p);
  }

  lemma FinishedIs(x: Primitives, c: Crypto, p: Party, r: Party, a: Agent, b: Agent)
    requires AgentPeers(x, c, p, r, a, b) && Honest(c, p, r) && x.sha256.size >= 12 && x.sm3.size >= 12
    ensures var suite := TermsOf(p, r).suite;
            var h := if suite == 0x002b then x.sha256 else x.sm3;
            var s := Prf.Ascii(r.id) + h.digest(FullTranscript(p, r));
            var mac := Hmac.Mac(h, Master(c, p, r), Hmac.Mac(h, Master(c, p, r), s) + s);
            |mac| >= 12 && FinishedBytes(c, r, p) == [20, 0, 0, 12] + mac[..12]
  {
    hide Partners, KemPartners, Uses, EnoughRandom, Prf.Ascii, Hmac.Mac, Master, FullTranscript, Honest, Orderly, TermsOf,
      FinishedHash.Sum, Hmac.Lawful, HalfConn.Lawful;
    HonestBoth(c, p, r);
    SameSecrets(c, p, r);
    AgreedTerms(x, c, p, r, a, b);
    var suite := TermsOf(p, r).suite;
    FinishedHash.SumBytes(HashOf(x, suite), Master(c, p, r), r.id, FullTranscript(p, r));
    HandshakeMessage.OtherWire([], FinishedSum(c, r, p));
  }

  /** Which pieces of the key block protect which direction: the peer with the larger name sends
      under the key in bytes 0 to 15 and the fixed nonce in bytes 32 to 35, the other under those
      in bytes 16 to 31 and 36 to 39; the block is derived from the master secret with the label
      "key expansion" and both randoms, that of the peer with the smaller name first. */
  lemma CompletedCiphers(x: Primitives, c: Crypto, p: Party, r: Party, a: Agent, b: Agent, events: seq<Event>)
    requires AgentPeers(x, c, p, r, a, b) && AgreedPoint(a, b) != 0 && MessagesFit(p, r, TermsOf(p, r))
    requires x.sha256.size >= 20 && x.sm3.size >= 20
    requires Run(c, p, r, events).Some? && Run(c, p, r, events).value.a.phase == Complete
    ensures var n := Run(c, p, r, events).value.a;
            var h := if n.suite == 0x002b then x.sha256 else x.sm3;
            var larger := LexLess(r.id, p.id);
            var randoms := if larger then r.hello.random + p.hello.random else p.hello.random + r.hello.random;
            var s := [107, 101, 121, 32, 101, 120, 112, 97, 110, 115, 105, 111, 110] + randoms;
            var a1 := Hmac.Mac(h, n.master, s);
            var a2 := Hmac.Mac(h, n.master, a1);
            var block := Hmac.Mac(h, n.master, a1 + s) + Hmac.Mac(h, n.master, a2 + s);
            && |block| >= 40
            && var first, second := x.newAead(block[..16], block[32..36]), x.newAead(block[16..32], block[36..40]);
            && n.outHalf.cipher == Some(if larger then first else second)
            && n.inHalf.cipher == Some(if larger then second else first)
  {
    hide AgentPeers, AgreedPoint, MessagesFit, Run, Honest, TermsOf, Hmac.Mac, Master, FullTranscript, FinishedBytes, CipherIn,
      CipherOut, Share;
    AgentPeersHonest(x, c, p, r, a, b);
    CompletedHolds(c, p, r, events);
    AgreedTerms(x, c, p, r, a, b);
    CiphersAre(x, c, p, r, a, b);
  }

  lemma CiphersAre(x: Primitives, c: Crypto, p: Party, r: Party, a: Agent, b: Agent)
    requires AgentPeers(x, c, p, r, a, b) && x.sha256.size >= 20 && x.sm3.size >= 20
    ensures var h := if TermsOf(p, r).suite == 0x002b then x.sha256 else x.sm3;
            var master := Master(c, p, r);
            var larger := LexLess(r.id, p.id);
            var randoms := if larger then r.hello.random + p.hello.random else p.hello.random + r.hello.random;
            var s := [107, 101, 121, 32, 101, 120, 112, 97, 110, 115, 105, 111, 110] + randoms;
            var a1 := Hmac.Mac(h, master, s);
            var a2 := Hmac.Mac(h, master, a1);
            var block := Hmac.Mac(h, master, a1 + s) + Hmac.Mac(h, master, a2 + s);
            && |block| >= 40
            && var first, second := x.newAead(block[..16], block[32..36]), x.newAead(block[16..32], block[36..40]);
            && CipherOut(c, p, r) == (if larger then first else second)
            && CipherIn(c, p, r) == (if larger then second else first)
  {
    hide Partners, KemPartners, Uses, EnoughRandom, Hmac.Mac, Master, Orderly, Hmac.Lawful, HalfConn.Lawful, Share,
      Prf.KeyMaterial, Prf.CutKeys;
    AgreedTerms(x, c, p, r, a, b);
    var t := TermsOf(p, r);
    var h := if t.suite == 0x002b then x.sha256 else x.sm3;
    assert h == HashOf(x, t.suite);
    Prf.KeyBlockBytes(h, Master(c, p, r), t.initiatorRandom, t.responderRandom, 40);
    var text: Bytes := [107, 101, 121, 32, 101, 120, 112, 97, 110, 115, 105, 111, 110];
    assert text + (t.responderRandom + t.initiatorRandom) == text + t.responderRandom + t.initiatorRandom;
    var s := text + (t.responderRandom + t.initiatorRandom);
    var master := Master(c, p, r);
    var a1 := Hmac.Mac(h, master, s);
    CutFor(Hmac.Mac(h, master, a1 + s) + Hmac.Mac(h, master, Hmac.Mac(h, master, a1) + s));
  }

  lemma CutFor(all: Bytes)
    requires |all| >= 40
    ensures var k := Prf.CutKeys(all[..40], 0, KEY_LEN, IV_LEN);
            && k.initiatorKey == all[..16] && k.responderKey == all[16..32]
            && k.initiatorIV == all[32..36] && k.responderIV == all[36..40]
  {
  }
}
