/** A pair of peers, on a group of five elements, that meets every condition the theorems on
    key agreement and handshake ask for, and so completes. */
module HandshakeExample {
  import opened Common
  import opened Cryptobyte
  import HalfConn
  import Hmac
  import opened Sm2KeyExchange
  import opened KeyExchange
  import opened Negotiation
  import Prf
  import opened HandshakeMessage
  import opened HandshakeSpec
  import opened HandshakeRefinement
  import opened HandshakeRuns
  import opened HandshakeKeys

  const NULL_AEAD: HalfConn.Aead := HalfConn.Aead((n, p, a) => p, (n, p, a) => Some(p), 0, 8)

  const NULL_HASH: Hmac.Algorithm := Hmac.Algorithm(m => Zeros(32), 32, 64, m => None, b => [])

  const PRIMITIVES: Primitives := Primitives(NULL_HASH, NULL_HASH, (key, iv) => NULL_AEAD)

  const GROUP: Suite := Suite(5, 1, p => 0, (p: nat) => [p % 256],
                              (b: Bytes) => if |b| == 1 && b[0] < 5 then Some(b[0] as nat) else None,
                              p => [], m => Zeros(32), 32, (b, n) => Zeros(n), 0)

  const SECRET_KEY: nat := 1

  const HELLO: Hello := Hello(Zeros(32), [HYBRID_SUITE], [0x0304], [29], [SM2_WITH_SM3], false, [])

  predicate Usable(name: string) {
    UsableId(Prf.Ascii(name))
  }

  /** The key agreement of one peer with another, in the role their names give it. */
  function AgentOf(own: string, other: string): (a: Agent)
    requires Usable(own) && Usable(other)
    ensures Init(GROUP, SECRET_KEY, Prf.Ascii(own), Public(GROUP, SECRET_KEY), Prf.Ascii(other), Initiates(own, other), true)
            == Some(a.kap)
    ensures a.kap.suite == GROUP && a.r == 1
  {
    var kap := Init(GROUP, SECRET_KEY, Prf.Ascii(own), Public(GROUP, SECRET_KEY), Prf.Ascii(other),
                    Initiates(own, other), true).value;
    Agent(kap, 1, m => [], (m, sig) => true, (scheme, m) => None, Zeros(CIPHERTEXT_SIZE), Zeros(KEM_SECRET_SIZE),
          ct => Some(Zeros(KEM_SECRET_SIZE)))
  }

  function PeerNamed(own: string, other: string): Party
    requires Usable(own) && Usable(other)
  {
    Party(own, HELLO, [], ExchangeOf(AgentOf(own, other)), PreMasterOf(AgentOf(own, other)))
  }

  lemma GroupLawful()
    ensures Lawful(GROUP)
  {
    hide Zeros;
    forall p | 0 < p < GROUP.order ensures GROUP.decode(GROUP.encode(p)) == Some(p) && |GROUP.encode(p)| == 1 {
      assert p % 256 == p;
      assert GROUP.encode(p) == [p];
    }
    forall m ensures |GROUP.digest(m)| == GROUP.digestLen {
      assert GROUP.digest(m) == Zeros(32);
    }
    forall b ensures GROUP.decode(b).Some? ==> GROUP.decode(b).value < GROUP.order {
      if |b| == 1 && b[0] < 5 {
        assert GROUP.decode(b) == Some(b[0] as nat);
      } else {
        assert GROUP.decode(b) == None;
      }
    }
  }

  lemma AgentsArePartners(own: string, other: string)
    requires own != other && Usable(own) && Usable(other)
    ensures Partners(AgentOf(own, other), AgentOf(other, own))
    ensures KemPartners(AgentOf(own, other), AgentOf(other, own))
  {
    hide Init, Lawful, UsableId;
    GroupLawful();
    LexLessTotal(own, other);
    InitialisedPartners(GROUP, SECRET_KEY, Prf.Ascii(own), SECRET_KEY, Prf.Ascii(other), Initiates(own, other),
                        AgentOf(own, other), AgentOf(other, own));
  }

  lemma GroupWidth()
    ensures TwoPowW(GROUP) == 2
  {
    assert NumBits(1) == 1 + NumBits(0);
    assert NumBits(2) == 2;
    assert NumBits(5) == 3;
    assert PowTwo(0) == 1;
    assert PowTwo(1) == 2;
  }

  /** The two agree on the point 4. */
  lemma PointAgreed(own: string, other: string)
    requires Usable(own) && Usable(other)
    ensures AgreedPoint(AgentOf(own, other), AgentOf(other, own)) == 4
  {
    hide TwoPowW, Usable, UsableId;
    GroupWidth();
    var k := AgentOf(own, other).kap;
    assert k.privateKey == 1 && k.remotePublic == 1;
    assert Reduced(GROUP, 1) == 2;
    assert PrepareKap(k, 1).t == 3;
  }

  lemma OrderlyPeer(c: Crypto, own: string, other: string)
    requires Usable(own) && Usable(other)
    requires c.versionOrder == [0x0304] && c.suiteOrder == SUITE_ORDER && c.schemeOrder == SCHEME_ORDER
    ensures Orderly(c, PeerNamed(own, other))
  {
    hide Usable;
    assert [0x0304][0] == 0x0304;
    assert SUITE_ORDER[0] == HYBRID_SUITE && SCHEME_ORDER[0] == SM2_WITH_SM3;
  }

  lemma MessageFits(own: string, other: string, t: Terms)
    requires Usable(own) && Usable(other) && t.suite == HYBRID_SUITE && t.scheme == SM2_WITH_SM3
    ensures ExchangeOf(AgentOf(own, other))(t).Some?
    ensures |MarshalKeyExchange(ExchangeOf(AgentOf(own, other))(t).value)| <= MAX_HANDSHAKE
  {
    hide Usable, TwoPowW, UsableId, Init;
    assert |PrepareKap(AgentOf(own, other).kap, 1).ptBuf| == 1;
  }

  lemma ExamplePeers(own: string, other: string, c: Crypto)
    requires own != other && Usable(own) && Usable(other)
    requires HandshakeKeys.LawfulPrimitives(PRIMITIVES) && c == SuiteCrypto(PRIMITIVES, [0x0304])
    ensures var p, r := PeerNamed(own, other), PeerNamed(other, own);
            && AgentPeers(PRIMITIVES, c, p, r, AgentOf(own, other), AgentOf(other, own))
            && AgreedPoint(AgentOf(own, other), AgentOf(other, own)) != 0
            && MessagesFit(p, r, TermsOf(p, r))
  {
    hide Usable, AgentOf, Partners, KemPartners, Orderly, LawfulPrimitives, SuiteCrypto, AgreedPoint, MarshalKeyExchange,
      ExchangeOf, PreMasterOf;
    var p, r := PeerNamed(own, other), PeerNamed(other, own);
    CryptoOrders(c);
    OrderlyPeer(c, own, other);
    OrderlyPeer(c, other, own);
    AgentsArePartners(own, other);
    PointAgreed(own, other);
    assert HELLO.suites[0] == HYBRID_SUITE && HELLO.schemes[0] == SM2_WITH_SM3;
    assert Intersect([HYBRID_SUITE], [HYBRID_SUITE]) == HYBRID_SUITE;
    assert Intersect([SM2_WITH_SM3], [SM2_WITH_SM3]) == SM2_WITH_SM3;
    var t := TermsOf(p, r);
    assert t.suite == HYBRID_SUITE && t.scheme == SM2_WITH_SM3;
    MessageFits(own, other, t);
    MessageFits(other, own, t);
  }

  lemma CryptoOrders(c: Crypto)
    requires LawfulPrimitives(PRIMITIVES) && c == SuiteCrypto(PRIMITIVES, [0x0304])
    ensures c.versionOrder == [0x0304] && c.suiteOrder == SUITE_ORDER && c.schemeOrder == SCHEME_ORDER
  {
  }

  lemma PrimitivesLawful()
    ensures LawfulPrimitives(PRIMITIVES)
  {
  }

  /** Such peers exist, under any two different names that the key exchange takes, and
      complete from either's start with the hybrid suite. */
  lemma HandshakesHappen(own: string, other: string, starter: Side) returns (c: Crypto, events: seq<Event>)
    requires own != other && Usable(own) && Usable(other)
    ensures var p, r := PeerNamed(own, other), PeerNamed(other, own);
            && AgentPeers(PRIMITIVES, c, p, r, AgentOf(own, other), AgentOf(other, own))
            && Honest(c, p, r)
            && Run(c, p, r, events).Some? && Finished(Run(c, p, r, events).value)
  {
    hide AgentPeers, Finished, PeerNamed, AgentOf, Usable, AgreedPoint, MessagesFit, SuiteCrypto, LawfulPrimitives, Honest,
      TermsOf;
    PrimitivesLawful();
    c := SuiteCrypto(PRIMITIVES, [0x0304]);
    var p, r := PeerNamed(own, other), PeerNamed(other, own);
    ExamplePeers(own, other, c);
    AgentPeersHonest(PRIMITIVES, c, p, r, AgentOf(own, other), AgentOf(other, own));
    var first := [Event(starter, Start)];
    assert Front(first) == [] && Last(first) == Event(starter, Start);
    assert Run(c, p, r, []) == Some(START);
    assert Step(c, p, r, START, Event(starter, Start)).Some?;
    var more := AgentPeersComplete(PRIMITIVES, c, p, r, AgentOf(own, other), AgentOf(other, own), first);
    events := first + more;
  }
}
