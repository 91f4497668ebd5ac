/** One step of the handshake between two honest peers. Everything a peer
    holds is determined by how far it has come, so the byte-level protocol refines a small
    machine of program counters. */
module HandshakeRefinement {
  import opened Common
  import opened Cryptobyte
  import opened HalfConn
  import opened HandshakeMessage
  import opened Negotiation
  import opened Dispatch
  import opened HandshakeSpec

  // --- Honest peers ----------------------------------------------------------------------

  function TermsOf(p: Party, r: Party): Terms {
    TermsFor(p, r.id, Intersect(p.hello.suites, r.hello.suites), Intersect(p.hello.schemes, r.hello.schemes),
             r.hello.random)
  }

  predicate Orderly(c: Crypto, p: Party) {
    && p.hello.versions != [] && p.hello.curves != [] && p.hello.schemes != []
    && |p.hello.random| == RANDOM_LEN && |p.hello.versions| <= 127 && HelloLength(p.hello) <= MAX_HANDSHAKE
    && DrawnFrom(c.versionOrder, p.hello.versions)
    && DrawnFrom(c.suiteOrder, p.hello.suites)
    && DrawnFrom(c.schemeOrder, p.hello.schemes)
  }

  lemma OrderlyWrites(c: Crypto, p: Party)
    requires Orderly(c, p)
    ensures MarshalHello(p.hello).Some? && |MarshalHello(p.hello).value| <= MAX_HANDSHAKE
  {
    hide MarshalHello, DrawnFrom;
    MarshalHelloFits(p.hello);
    MarshalHelloLength(p.hello);
  }

  ghost predicate LawfulFor(c: Aead, rand: Bytes) {
    Lawful(c) && c.explicitNonceLen > 0 && (c.explicitNonceLen >= 16 ==> |rand| >= c.explicitNonceLen)
  }

  predicate KeysAgree(p: Party, r: Party, t: Terms) {
    && p.keyExchange(t).Some? && r.keyExchange(t).Some?
    && |MarshalKeyExchange(p.keyExchange(t).value)| <= MAX_HANDSHAKE
    && p.preMaster(t, r.keyExchange(t).value).Some?
    && p.preMaster(t, r.keyExchange(t).value) == r.preMaster(t, p.keyExchange(t).value)
  }

  /** `p` can complete a handshake with `r`: they share a suite and a scheme, each computes
      from the other's key exchange the same secret, and the ciphers are lawful. */
  ghost predicate Able(c: Crypto, p: Party, r: Party) {
    var t := TermsOf(p, r);
    && Orderly(c, p) && p.id != r.id
    && t.suite != 0 && t.suite in c.known && t.scheme != 0
    && KeysAgree(p, r, t)
    && (forall s, m, i, q :: LawfulFor(c.ciphers(s, m, i, q).initiator, p.rand)
                             && LawfulFor(c.ciphers(s, m, i, q).responder, p.rand))
    && (forall s, m, n, h :: |c.finishedSum(s, m, n, h)| == 12)
  }

  ghost predicate Honest(c: Crypto, a: Party, b: Party): (honest: bool)
    ensures honest ==> a.hello.versions != [] && b.hello.versions != []
  {
    Able(c, a, b) && Able(c, b, a)
  }

  lemma HonestBoth(c: Crypto, p: Party, r: Party)
    requires Honest(c, p, r)
    ensures Honest(c, r, p) && Able(c, p, r) && Able(c, r, p)
  {
    hide Able;
  }

  /** Both sides run the key agreement on the same terms, in opposite roles. */
  lemma SameTerms(c: Crypto, p: Party, r: Party)
    requires Orderly(c, p) && Orderly(c, r) && p.id != r.id
    ensures TermsOf(p, r) == TermsOf(r, p)
    ensures Initiates(p.id, r.id) == !Initiates(r.id, p.id)
    ensures Intersect(p.hello.versions, Decoded(r.hello).versions) == Intersect(r.hello.versions, Decoded(p.hello).versions)
  {
    hide MarshalHello, Intersect, DrawnFrom;
    LexLessTotal(p.id, r.id);
    IntersectSymmetric(c.suiteOrder, p.hello.suites, r.hello.suites);
    IntersectSymmetric(c.schemeOrder, p.hello.schemes, r.hello.schemes);
    VersionsAgree(c.versionOrder, p.hello.versions, r.hello.versions);
  }

  // --- What a run of honest peers computes -----------------------------------------------

  function HelloBytes(p: Party): Bytes {
    if p.hello.versions == [] then [] else Or(MarshalHello(p.hello), [])
  }

  function Exchange(p: Party, r: Party): Bytes {
    MarshalKeyExchange(Or(p.keyExchange(TermsOf(p, r)), []))
  }

  function HellosTranscript(p: Party, r: Party): Bytes {
    if Initiates(p.id, r.id) then HelloBytes(p) + HelloBytes(r) else HelloBytes(r) + HelloBytes(p)
  }

  function FullTranscript(p: Party, r: Party): Bytes {
    HellosTranscript(p, r)
    + (if Initiates(p.id, r.id) then Exchange(p, r) else Exchange(r, p))
    + (if Initiates(p.id, r.id) then Exchange(r, p) else Exchange(p, r))
  }

  function Master(c: Crypto, p: Party, r: Party): Bytes {
    var t := TermsOf(p, r);
    c.masterSecret(t.suite, Or(p.preMaster(t, Or(r.keyExchange(t), [])), []), t.initiatorRandom, t.responderRandom)
  }

  function CiphersOf(c: Crypto, p: Party, r: Party): Ciphers {
    var t := TermsOf(p, r);
    c.ciphers(t.suite, Master(c, p, r), t.initiatorRandom, t.responderRandom)
  }

  function CipherOut(c: Crypto, p: Party, r: Party): Aead {
    if Initiates(p.id, r.id) then CiphersOf(c, p, r).initiator else CiphersOf(c, p, r).responder
  }

  function CipherIn(c: Crypto, p: Party, r: Party): Aead {
    if Initiates(p.id, r.id) then CiphersOf(c, p, r).responder else CiphersOf(c, p, r).initiator
  }

  function FinishedSum(c: Crypto, p: Party, r: Party): Bytes {
    c.finishedSum(TermsOf(p, r).suite, Master(c, p, r), p.id, FullTranscript(p, r))
  }

  function FinishedBytes(c: Crypto, p: Party, r: Party): Bytes {
    Or(MarshalFinished(FinishedSum(c, p, r)), [])
  }

  /** Both peers compute the same master secret and transcript, each one's outgoing cipher
      is the other's incoming one, and the sum each sends is the one the other expects. */
  lemma SameSecrets(c: Crypto, p: Party, r: Party)
    requires Able(c, p, r) && Able(c, r, p)
    ensures Master(c, p, r) == Master(c, r, p)
    ensures FullTranscript(p, r) == FullTranscript(r, p)
    ensures CipherOut(c, p, r) == CipherIn(c, r, p)
    ensures FinishedSum(c, r, p) == c.finishedSum(TermsOf(p, r).suite, Master(c, p, r), r.id, FullTranscript(p, r))
  {
    hide Orderly, Initiates, MarshalKeyExchange, HelloBytes;
    SameTerms(c, p, r);
  }

  // --- Program counters ------------------------------------------------------------------

  /** How far a peer is: the goroutine's phase, the read loop, the number of records the
      loop has taken, and whether the announcement of a cipher is still pending. */
  datatype Pc = Pc(phase: Phase, loop: Loop, got: nat, ready: bool)

  function Rank(phase: Phase): nat {
    match phase
    case Idle => 0
    case WriteHello => 1
    case AwaitHello => 2
    case WriteKeyExchange => 3
    case AwaitKeyExchange => 4
    case PrepareIn => 5
    case PrepareOut => 6
    case WriteCCS => 7
    case SwitchOut => 8
    case WriteFinished => 9
    case AwaitFinished => 10
    case Complete => 11
    case Failed => 12
  }

  function Following(phase: Phase): Phase {
    match phase
    case Idle => WriteHello
    case WriteHello => AwaitHello
    case AwaitHello => WriteKeyExchange
    case WriteKeyExchange => AwaitKeyExchange
    case AwaitKeyExchange => PrepareIn
    case PrepareIn => PrepareOut
    case PrepareOut => WriteCCS
    case WriteCCS => SwitchOut
    case SwitchOut => WriteFinished
    case WriteFinished => AwaitFinished
    case _ => Complete
  }

  /** Records sent, handshake messages taken from the channel, and handshake messages among
      the first `got` records: the third record is the change of cipher. */
  function SentBy(phase: Phase): (n: nat)
    ensures n <= 4
  {
    var k := Rank(phase);
    if k <= 1 then 0 else if k <= 3 then 1 else if k <= 7 then 2 else if k <= 9 then 3 else 4
  }

  function TakenBy(phase: Phase): nat {
    var k := Rank(phase);
    if k <= 2 then 0 else if k <= 4 then 1 else if k <= 10 then 2 else 3
  }

  function Arrived(got: nat): nat {
    if got <= 2 then got else if got == 3 then 2 else 3
  }

  predicate PcOk(pc: Pc) {
    && pc.phase != Failed && pc.loop != Closed
    && pc.got <= 4 && TakenBy(pc.phase) <= Arrived(pc.got)
    && (pc.got > 0 ==> pc.phase != Idle)
    && (pc.loop == Switching ==> pc.got == 3)
    && (pc.got >= 3 && pc.loop == Reading ==> Rank(pc.phase) > 5)
    && (pc.got < 3 || pc.loop == Switching ==> pc.ready == (Rank(pc.phase) > 5))
  }

  predicate Waiting(phase: Phase) {
    phase == AwaitHello || phase == AwaitKeyExchange || phase == AwaitFinished
  }

  /** The third record, the change of cipher, makes the loop wait for a prepared cipher. */
  function TookRecord(pc: Pc): Pc {
    Pc(if pc.phase == Idle then WriteHello else pc.phase,
       if pc.got == 2 && Rank(pc.phase) <= 5 then Switching else Reading,
       pc.got + 1, pc.ready)
  }

  /** One step of the machine, `available` records having been sent by the other peer. */
  function PcStep(pc: Pc, available: nat, action: Action): Option<Pc> {
    match action
    case Start => if pc.phase == Idle then Some(pc.(phase := WriteHello)) else None
    case Handshake =>
      if pc.phase == Idle || pc.phase == Complete || (Waiting(pc.phase) && TakenBy(pc.phase) == Arrived(pc.got)) then None
      else Some(pc.(phase := Following(pc.phase), ready := pc.ready || pc.phase == PrepareIn))
    case Record =>
      if pc.loop != Reading || pc.got == available then None
      else Some(TookRecord(pc))
    case Resume =>
      if pc.loop != Switching || !pc.ready then None else Some(pc.(loop := Reading, ready := false))
  }

  lemma PcStepOk(pc: Pc, available: nat, action: Action)
    requires PcOk(pc) && pc.got <= available <= 4 && PcStep(pc, available, action).Some?
    ensures PcOk(PcStep(pc, available, action).value)
    ensures PcStep(pc, available, action).value.got <= available
  {
  }

  // --- What a peer holds at a program counter ---------------------------------------------

  function Counter(n: Byte): (s: Bytes)
    ensures |s| == COUNTER_LEN
  {
    Zeros(7) + [n]
  }

  function InHalf(c: Crypto, p: Party, r: Party, pc: Pc): Half
    requires PcOk(pc)
  {
    if pc.got <= 2 || pc.loop == Switching then
      Half(None, if Rank(pc.phase) > 5 then Some(CipherIn(c, p, r)) else None, pc.ready, Counter(pc.got))
    else Half(Some(CipherIn(c, p, r)), None, pc.ready, Counter(pc.got - 3))
  }

  function OutHalf(c: Crypto, p: Party, r: Party, phase: Phase): (h: Half)
    ensures |h.counter| == COUNTER_LEN
  {
    var k := Rank(phase);
    if k <= 6 then FRESH
    else if k <= 8 then Half(None, Some(CipherOut(c, p, r)), true, Counter(0))
    else Half(Some(CipherOut(c, p, r)), None, true, Counter(if k == 9 then 0 else 1))
  }

  function Messages(c: Crypto, p: Party, r: Party): (m: seq<Bytes>)
    ensures |m| == 3
  {
    [HelloBytes(p), Exchange(p, r), FinishedBytes(c, p, r)]
  }

  function TranscriptAt(c: Crypto, p: Party, r: Party, phase: Phase): Bytes {
    var k := Rank(phase);
    if k <= 2 then []
    else if k == 3 then HellosTranscript(p, r)
    else if k == 4 then HellosTranscript(p, r) + if Initiates(p.id, r.id) then Exchange(p, r) else []
    else if k <= 10 then FullTranscript(p, r)
    else FullTranscript(p, r) + FinishedBytes(c, r, p)
  }

  function PeerAt(c: Crypto, p: Party, r: Party, pc: Pc): Peer
    requires PcOk(pc) && r.hello.versions != []
  {
    var k := Rank(pc.phase);
    var t := TermsOf(p, r);
    Peer(pc.phase, pc.loop, Messages(c, r, p)[TakenBy(pc.phase)..Arrived(pc.got)],
         InHalf(c, p, r, pc), OutHalf(c, p, r, pc.phase),
         if k >= 3 then Intersect(p.hello.versions, Decoded(r.hello).versions) else 0,
         if k >= 3 then t.suite else 0,
         if k >= 3 then t.scheme else 0,
         if k >= 3 then Decoded(r.hello) else NO_HELLO,
         TranscriptAt(c, p, r, pc.phase),
         if k >= 4 then Exchange(p, r) else [],
         if k >= 5 then Master(c, p, r) else [])
  }

  function FinishedRecord(c: Crypto, p: Party, r: Party): Bytes {
    var s := SealRecord(Half(Some(CipherOut(c, p, r)), None, true, Counter(0)), [HANDSHAKE] + FinishedBytes(c, p, r), p.rand);
    if s.result.Ok? then s.result.data else []
  }

  /** The four records a peer sends. */
  function Records(c: Crypto, p: Party, r: Party): (records: seq<Bytes>)
    ensures |records| == 4
  {
    [[HANDSHAKE] + HelloBytes(p), [HANDSHAKE] + Exchange(p, r), [CHANGE_CIPHER_SPEC] + CCS_TEXT, FinishedRecord(c, p, r)]
  }

  /** A peer at `pc` with the unread records of the other, which has sent `available`. */
  function LocalAt(c: Crypto, p: Party, r: Party, pc: Pc, available: nat, outbox: seq<Bytes>): (l: Local)
    requires PcOk(pc) && r.hello.versions != [] && pc.got <= available <= 4
    ensures |l.peer.outHalf.counter| == COUNTER_LEN
  {
    Local(PeerAt(c, p, r, pc), Records(c, r, p)[pc.got..available], outbox)
  }

  // --- The protocol refines the program counters ------------------------------------------

  lemma CounterSteps(n: Byte)
    requires n < 255
    ensures Inc(Counter(n)) == Counter(n + 1) && !AllOnes(Counter(n))
    ensures Counter(0) == Zeros(COUNTER_LEN)
  {
    assert Counter(n)[..7] == Zeros(7) && Counter(n)[0] == 0;
  }

  lemma PlainSend(h: Half, payload: Bytes, rand: Bytes)
    requires |h.counter| == COUNTER_LEN && h.cipher.None?
    ensures SealRecord(h, payload, rand) == Sealed(h, Ok(payload))
  {
  }

  lemma PlainOpen(h: Half, payload: Bytes)
    requires h.cipher.None? && !AllOnes(h.counter)
    ensures OpenRecord(h, payload) == Sealed(h.(counter := Inc(h.counter)), Ok(payload))
  {
  }

  /** The messages of an honest peer read back as what they are. */
  lemma MessagesRead(c: Crypto, p: Party, r: Party)
    requires Able(c, p, r)
    ensures TakeMessage(HelloBytes(p)) == Some(HelloMsg(Decoded(p.hello)))
    ensures TakeMessage(Exchange(p, r)) == Some(KeyExchangeMsg(Or(p.keyExchange(TermsOf(p, r)), [])))
    ensures MarshalFinished(FinishedSum(c, p, r)).Some?
    ensures TakeMessage(FinishedBytes(c, p, r)) == Some(FinishedMsg(FinishedSum(c, p, r)))
  {
    hide MarshalHello, MarshalKeyExchange, MarshalFinished, ParseMessage, FullTranscript, Master, TermsOf, Intersect, DrawnFrom, LawfulFor;
    OrderlyWrites(c, p);
    MessageRoundTrip(HelloMsg(p.hello));
    MessageRoundTrip(KeyExchangeMsg(Or(p.keyExchange(TermsOf(p, r)), [])));
    FinishedFits(FinishedSum(c, p, r));
    MessageRoundTrip(FinishedMsg(FinishedSum(c, p, r)));
  }

  lemma FinishedFits(v: Bytes)
    requires |v| == 12
    ensures MarshalFinished(v).Some? && |MarshalFinished(v).value| == 16
  {
    PowValues();
  }

  /** `after` is the machine's next state with the records that go with it, or neither
      step is possible. */
  ghost predicate Refined(c: Crypto, p: Party, r: Party, pc: Pc, available: nat, outbox: seq<Bytes>,
                          after: Option<Local>, next: Option<Pc>)
    requires r.hello.versions != [] && available <= 4
  {
    && (after.Some? <==> next.Some?)
    && (next.Some? ==>
          && PcOk(next.value) && next.value.got <= available && SentBy(pc.phase) <= SentBy(next.value.phase)
          && after.value == LocalAt(c, p, r, next.value, available,
                                    outbox + Records(c, p, r)[SentBy(pc.phase)..SentBy(next.value.phase)]))
  }

  /** The goroutine's next program counter when it can move. */
  function Advanced(pc: Pc): Pc {
    pc.(phase := Following(pc.phase), ready := pc.ready || pc.phase == PrepareIn)
  }

  lemma NothingSentWhile(c: Crypto, p: Party, r: Party, outbox: seq<Bytes>, k: nat)
    requires k <= 4
    ensures outbox + Records(c, p, r)[k..k] == outbox
  {
  }

  lemma OneSent(c: Crypto, p: Party, r: Party, outbox: seq<Bytes>, k: nat)
    requires k < 4
    ensures outbox + Records(c, p, r)[k..k + 1] == outbox + [Records(c, p, r)[k]]
  {
    hide FinishedRecord;
  }

  predicate Moves(pc: Pc, next: Pc) {
    PcOk(pc) && PcOk(next) && next == Advanced(pc)
  }

  lemma WriteHelloRefines(c: Crypto, p: Party, r: Party, pc: Pc, next: Pc, available: nat, outbox: seq<Bytes>)
    requires Honest(c, p, r) && Moves(pc, next) && pc.got <= available <= 4 && pc.phase == WriteHello
    ensures WriteHelloStep(p, LocalAt(c, p, r, pc, available, outbox))
            == LocalAt(c, p, r, next, available, outbox + [Records(c, p, r)[0]])
  {
    hide MarshalHello, FinishedRecord, Messages, TermsOf, Intersect, Decoded, SealRecord, KeysAgree, DrawnFrom;
    OrderlyWrites(c, p);
    PlainSend(FRESH, [HANDSHAKE] + HelloBytes(p), p.rand);
  }

  lemma FirstMessage(c: Crypto, r: Party, p: Party, taken: nat, arrived: nat)
    requires taken < arrived <= 3
    ensures Messages(c, r, p)[taken..arrived][0] == [HelloBytes(r), Exchange(r, p), FinishedBytes(c, r, p)][taken]
    ensures Messages(c, r, p)[taken..arrived][1..] == Messages(c, r, p)[taken + 1..arrived]
  {
    hide HelloBytes, Exchange, FinishedBytes;
  }

  lemma AwaitHelloRefines(c: Crypto, p: Party, r: Party, pc: Pc, next: Pc, available: nat, outbox: seq<Bytes>)
    requires Honest(c, p, r) && Moves(pc, next) && pc.got <= available <= 4 && pc.phase == AwaitHello
    ensures var l := LocalAt(c, p, r, pc, available, outbox);
            && l.peer.channel != []
            && ReadHelloStep(c, p, r.id, l) == LocalAt(c, p, r, next, available, outbox)
  {
    hide MarshalHello, Records, Intersect, DrawnFrom, TakeMessage, Exchange, FinishedBytes, KeysAgree, LawfulFor, Messages;
    FirstMessage(c, r, p, 0, Arrived(pc.got));
    OrderlyWrites(c, p);
    OrderlyWrites(c, r);
    MessagesRead(c, r, p);
  }

  lemma TermsHeld(c: Crypto, p: Party, r: Party, pc: Pc)
    requires PcOk(pc) && Orderly(c, r) && Rank(pc.phase) >= 3
    ensures PeerTerms(p, r.id, PeerAt(c, p, r, pc)) == TermsOf(p, r)
  {
    hide Intersect, MarshalHello, DrawnFrom, Messages, TranscriptAt, Exchange, Master, InHalf, OutHalf;
  }

  lemma WriteKeyExchangeRefines(c: Crypto, p: Party, r: Party, pc: Pc, next: Pc, available: nat, outbox: seq<Bytes>)
    requires Honest(c, p, r) && Moves(pc, next) && pc.got <= available <= 4 && pc.phase == WriteKeyExchange
    ensures WriteKeyExchangeStep(p, r.id, LocalAt(c, p, r, pc, available, outbox))
            == LocalAt(c, p, r, next, available, outbox + [Records(c, p, r)[1]])
  {
    hide MarshalHello, FinishedRecord, Messages, TermsOf, Intersect, Decoded, SealRecord, DrawnFrom, MarshalKeyExchange,
      PeerTerms, Orderly, LawfulFor, HellosTranscript;
    assert Orderly(c, r);
    TermsHeld(c, p, r, pc);
    PlainSend(FRESH, [HANDSHAKE] + Exchange(p, r), p.rand);
  }

  lemma AwaitKeyExchangeRefines(c: Crypto, p: Party, r: Party, pc: Pc, next: Pc, available: nat, outbox: seq<Bytes>)
    requires Honest(c, p, r) && Moves(pc, next) && pc.got <= available <= 4 && pc.phase == AwaitKeyExchange
    ensures var l := LocalAt(c, p, r, pc, available, outbox);
            && l.peer.channel != []
            && ReadKeyExchangeStep(c, p, r.id, l) == LocalAt(c, p, r, next, available, outbox)
  {
    hide MarshalHello, Records, Intersect, Decoded, DrawnFrom, TakeMessage, FinishedBytes, LawfulFor, Messages, TermsOf,
      PeerTerms, Orderly, MarshalKeyExchange, HellosTranscript, HelloBytes;
    assert Orderly(c, r);
    FirstMessage(c, r, p, 1, Arrived(pc.got));
    MessagesRead(c, r, p);
    TermsHeld(c, p, r, pc);
    SameTerms(c, p, r);
    var initiator := Initiates(p.id, r.id);
    assert TranscriptAt(c, p, r, pc.phase) + Exchange(r, p) + (if initiator then [] else Exchange(p, r)) == FullTranscript(p, r) by {
      hide Exchange;
      if initiator {
        assert FullTranscript(p, r) + [] == FullTranscript(p, r);
      } else {
        assert HellosTranscript(p, r) + [] == HellosTranscript(p, r);
      }
    }
  }

  lemma CiphersHeld(c: Crypto, p: Party, r: Party, pc: Pc)
    requires PcOk(pc) && Orderly(c, r) && Rank(pc.phase) >= 5
    ensures RemoteCipher(c, p, r.id, PeerAt(c, p, r, pc)) == CipherIn(c, p, r)
    ensures OwnCipher(c, p, r.id, PeerAt(c, p, r, pc)) == CipherOut(c, p, r)
  {
    hide Intersect, MarshalHello, DrawnFrom, Messages, TranscriptAt, Exchange, InHalf, OutHalf, PeerTerms, TermsOf, Master;
    TermsHeld(c, p, r, pc);
  }

  lemma PrepareRefines(c: Crypto, p: Party, r: Party, pc: Pc, next: Pc, available: nat, outbox: seq<Bytes>)
    requires Honest(c, p, r) && Moves(pc, next) && pc.got <= available <= 4
    ensures pc.phase == PrepareIn ==>
              PrepareInStep(c, p, r.id, LocalAt(c, p, r, pc, available, outbox)) == LocalAt(c, p, r, next, available, outbox)
    ensures pc.phase == PrepareOut ==>
              PrepareOutStep(c, p, r.id, LocalAt(c, p, r, pc, available, outbox)) == LocalAt(c, p, r, next, available, outbox)
  {
    hide Messages, Records, TermsOf, Intersect, Decoded, Orderly, Exchange, HelloBytes, FullTranscript, Master,
      RemoteCipher, OwnCipher, CipherIn, CipherOut, LawfulFor, KeysAgree;
    if pc.phase == PrepareIn || pc.phase == PrepareOut {
      assert Orderly(c, r);
      CiphersHeld(c, p, r, pc);
      CounterSteps(0);
    }
  }

  lemma WriteCCSRefines(c: Crypto, p: Party, r: Party, pc: Pc, next: Pc, available: nat, outbox: seq<Bytes>)
    requires Honest(c, p, r) && Moves(pc, next) && pc.got <= available <= 4 && pc.phase == WriteCCS
    ensures Send(p, LocalAt(c, p, r, pc, available, outbox), CHANGE_CIPHER_SPEC, CCS_TEXT, SwitchOut)
            == LocalAt(c, p, r, next, available, outbox + [Records(c, p, r)[2]])
  {
    hide Messages, TermsOf, Intersect, Decoded, Orderly, HelloBytes, FullTranscript, Master, FinishedRecord,
      CipherIn, CipherOut, LawfulFor, KeysAgree, SealRecord, Exchange;
    PlainSend(OutHalf(c, p, r, pc.phase), [CHANGE_CIPHER_SPEC] + CCS_TEXT, p.rand);
  }

  lemma SwitchOutRefines(c: Crypto, p: Party, r: Party, pc: Pc, next: Pc, available: nat, outbox: seq<Bytes>)
    requires Honest(c, p, r) && Moves(pc, next) && pc.got <= available <= 4 && pc.phase == SwitchOut
    ensures SwitchOutStep(LocalAt(c, p, r, pc, available, outbox)) == Some(LocalAt(c, p, r, next, available, outbox))
  {
    hide Messages, TermsOf, Intersect, Decoded, Orderly, HelloBytes, FullTranscript, Master, Records,
      CipherIn, CipherOut, LawfulFor, KeysAgree, Exchange;
    CounterSteps(0);
  }

  /** Both directions of the first protected record. */
  lemma FinishedTravels(c: Crypto, p: Party, r: Party, ready: bool)
    requires Honest(c, p, r)
    ensures var out := Half(Some(CipherOut(c, p, r)), None, true, Counter(0));
            SealRecord(out, [HANDSHAKE] + FinishedBytes(c, p, r), p.rand)
            == Sealed(out.(counter := Counter(1)), Ok(FinishedRecord(c, p, r)))
    ensures OpenRecord(Half(Some(CipherOut(c, p, r)), None, ready, Counter(0)), FinishedRecord(c, p, r))
            == Sealed(Half(Some(CipherOut(c, p, r)), None, ready, Counter(1)), Ok([HANDSHAKE] + FinishedBytes(c, p, r)))
  {
    hide TermsOf, KeysAgree, Orderly, Master, FinishedBytes, Lawful, SealRecord, OpenRecord, Counter;
    var out := Half(Some(CipherOut(c, p, r)), None, true, Counter(0));
    var payload := [HANDSHAKE] + FinishedBytes(c, p, r);
    assert LawfulFor(CipherOut(c, p, r), p.rand);
    CounterSteps(0);
    SealsFirst(out, payload, p.rand);
    OpensFirst(out, out.(ready := ready), payload, p.rand);
  }

  lemma SealsFirst(out: Half, payload: Bytes, rand: Bytes)
    requires out.cipher.Some? && LawfulFor(out.cipher.value, rand)
    requires |out.counter| == COUNTER_LEN && !AllOnes(out.counter)
    ensures SealRecord(out, payload, rand).result.Ok?
    ensures SealRecord(out, payload, rand).half == out.(counter := Inc(out.counter))
  {
    hide Inc, Lawful;
  }

  lemma OpensFirst(out: Half, peerIn: Half, payload: Bytes, rand: Bytes)
    requires out.cipher.Some? && LawfulFor(out.cipher.value, rand) && Paired(out, peerIn) && !AllOnes(out.counter)
    requires SealRecord(out, payload, rand).result.Ok?
    ensures OpenRecord(peerIn, SealRecord(out, payload, rand).result.data)
            == Sealed(peerIn.(counter := Inc(peerIn.counter)), Ok(payload))
  {
    RecordRoundTrip(out, peerIn, payload, rand);
    hide Inc, Lawful, SealRecord;
  }

  lemma WriteFinishedRefines(c: Crypto, p: Party, r: Party, pc: Pc, next: Pc, available: nat, outbox: seq<Bytes>)
    requires Honest(c, p, r) && Moves(pc, next) && pc.got <= available <= 4 && pc.phase == WriteFinished
    ensures WriteFinishedStep(c, p, LocalAt(c, p, r, pc, available, outbox))
            == LocalAt(c, p, r, next, available, outbox + [Records(c, p, r)[3]])
  {
    hide Messages, TermsOf, Intersect, Decoded, HelloBytes, FullTranscript, Master, FinishedRecord,
      CipherIn, CipherOut, LawfulFor, KeysAgree, SealRecord, Exchange, MarshalFinished, MarshalHello, DrawnFrom, TakeMessage, OpenRecord,
      Counter;
    assert Orderly(c, r);
    MessagesRead(c, p, r);
    FinishedTravels(c, p, r, true);
    var l := LocalAt(c, p, r, pc, available, outbox);
    assert SumFor(c, p, l.peer, p.id) == FinishedSum(c, p, r);
  }

  lemma SameHalves(c: Crypto, p: Party, r: Party, pc: Pc, next: Pc)
    requires Moves(pc, next) && pc.phase == AwaitFinished
    ensures InHalf(c, p, r, pc) == InHalf(c, p, r, next) && OutHalf(c, p, r, pc.phase) == OutHalf(c, p, r, next.phase)
  {
    hide CipherIn, CipherOut, Counter;
  }

  lemma AwaitFinishedRefines(c: Crypto, p: Party, r: Party, pc: Pc, next: Pc, available: nat, outbox: seq<Bytes>)
    requires Honest(c, p, r) && Moves(pc, next) && pc.got <= available <= 4 && pc.phase == AwaitFinished
    ensures var l := LocalAt(c, p, r, pc, available, outbox);
            && l.peer.channel != []
            && ReadFinishedStep(c, p, r.id, l) == LocalAt(c, p, r, next, available, outbox)
  {
    hide Records, Intersect, Decoded, TakeMessage, Messages, TermsOf, Honest, Able, InHalf, OutHalf,
      MarshalFinished, FullTranscript, HelloBytes, Exchange, Master, CipherIn, CipherOut;
    HonestBoth(c, p, r);
    SameHalves(c, p, r, pc, next);
    FirstMessage(c, r, p, 2, Arrived(pc.got));
    MessagesRead(c, r, p);
    SameSecrets(c, p, r);
  }

  // --- The read loop ---------------------------------------------------------------------

  /** The unread records, one taken. */
  lemma FirstRecord(c: Crypto, r: Party, p: Party, got: nat, available: nat)
    requires got < available <= 4
    ensures Records(c, r, p)[got..available] != []
    ensures Records(c, r, p)[got..available][0] == Records(c, r, p)[got]
    ensures Records(c, r, p)[got..available][1..] == Records(c, r, p)[got + 1..available]
  {
    hide Records;
  }

  lemma MessageArrives(c: Crypto, r: Party, p: Party, taken: nat, arrived: nat)
    requires taken <= arrived < 3
    ensures Messages(c, r, p)[taken..arrived] + [Messages(c, r, p)[arrived]] == Messages(c, r, p)[taken..arrived + 1]
  {
    hide Messages;
  }

  lemma MeaningOfSent(half: Half, complete: bool, loaded: bool, data: Bytes)
    ensures ParseMessage(data).Some? ==> Meaning(half, complete, loaded, [HANDSHAKE] + data) == ToHandshake(data)
    ensures Meaning(half, complete, loaded, [CHANGE_CIPHER_SPEC] + CCS_TEXT) == SwitchCipher
  {
    hide ParseMessage;
    assert ([HANDSHAKE] + data)[1..] == data && ([CHANGE_CIPHER_SPEC] + CCS_TEXT)[1..] == CCS_TEXT;
  }

  /** What each record of an honest peer opens to. */
  lemma RecordOpens(c: Crypto, p: Party, r: Party, pc: Pc, half: Half)
    requires Honest(c, p, r) && PcOk(pc) && pc.loop == Reading && pc.got < 4
    requires half == InHalf(c, p, r, pc)
    ensures OpenRecord(half, Records(c, r, p)[pc.got])
            == Sealed(half.(counter := Counter(if pc.got == 3 then 1 else pc.got + 1)),
                      Ok(if pc.got == 2 then [CHANGE_CIPHER_SPEC] + CCS_TEXT
                         else [HANDSHAKE] + Messages(c, r, p)[Arrived(pc.got)]))
  {
    hide HelloBytes, Exchange, FinishedBytes, FinishedRecord, CipherIn, CipherOut, Counter, OpenRecord, Able;
    if pc.got <= 2 {
      CounterSteps(pc.got);
      PlainOpen(half, Records(c, r, p)[pc.got]);
    } else {
      SameSecrets(c, r, p);
      FinishedTravels(c, r, p, pc.ready);
    }
  }

  /** What each record of an honest peer means to a peer that has read all before it. */
  lemma RecordMeans(c: Crypto, p: Party, r: Party, pc: Pc, half: Half, complete: bool, loaded: bool)
    requires Honest(c, p, r) && PcOk(pc) && pc.loop == Reading && pc.got < 4
    requires half == InHalf(c, p, r, pc)
    ensures DispatchRecord(half, complete, loaded, Records(c, r, p)[pc.got])
            == Dispatched(half.(counter := Counter(if pc.got == 3 then 1 else pc.got + 1)),
                          if pc.got == 2 then SwitchCipher else ToHandshake(Messages(c, r, p)[Arrived(pc.got)]))
  {
    hide HelloBytes, Exchange, FinishedBytes, FinishedRecord, ParseMessage, CipherIn, CipherOut, Counter, OpenRecord,
      Records, Able, Meaning, InHalf, FinishedSum, MarshalFinished;
    RecordOpens(c, p, r, pc, half);
    MessagesRead(c, r, p);
    MeaningOfSent(half.(counter := Counter(if pc.got == 3 then 1 else pc.got + 1)), complete, loaded,
                  Messages(c, r, p)[Arrived(pc.got)]);
  }

  predicate Reads(pc: Pc, next: Pc) {
    PcOk(pc) && PcOk(next) && pc.loop == Reading && pc.got < 4 && pc.phase != Idle && next == TookRecord(pc)
  }

  lemma MessageApplied(c: Crypto, p: Party, r: Party, pc: Pc, next: Pc)
    requires Reads(pc, next) && pc.got != 2 && r.hello.versions != []
    ensures var before := PeerAt(c, p, r, pc);
            Apply(before.(inHalf := InHalf(c, p, r, next)), ToHandshake(Messages(c, r, p)[Arrived(pc.got)]))
            == PeerAt(c, p, r, next)
  {
    hide Messages, TermsOf, HelloBytes, Decoded, TranscriptAt, Exchange, Master, CipherIn, OutHalf, Intersect, Counter, InHalf;
    MessageArrives(c, r, p, TakenBy(pc.phase), Arrived(pc.got));
  }

  lemma SwitchApplied(c: Crypto, p: Party, r: Party, pc: Pc, next: Pc)
    requires Reads(pc, next) && pc.got == 2 && r.hello.versions != []
    ensures var before := PeerAt(c, p, r, pc);
            Apply(before.(inHalf := before.inHalf.(counter := Counter(3))), SwitchCipher) == PeerAt(c, p, r, next)
  {
    hide Messages, TermsOf, HelloBytes, Decoded, TranscriptAt, Exchange, Master, CipherIn, OutHalf, Intersect, Counter;
    CounterSteps(0);
  }

  /** A round of the read loop, for a session that exists. */
  lemma ReadRefines(c: Crypto, p: Party, r: Party, pc: Pc, next: Pc, available: nat, outbox: seq<Bytes>)
    requires Honest(c, p, r) && Reads(pc, next) && pc.got < available <= 4
    ensures ReadRecord(LocalAt(c, p, r, pc, available, outbox)) == Some(LocalAt(c, p, r, next, available, outbox))
  {
    hide Records, Messages, PeerAt, DispatchRecord, Counter, Apply, KeysAgree, LawfulFor, CipherIn;
    FirstRecord(c, r, p, pc.got, available);
    AtPc(c, p, r, pc);
    RecordMeans(c, p, r, pc, InHalf(c, p, r, pc), pc.phase == Complete, true);
    if pc.got != 2 {
      MessageApplied(c, p, r, pc, next);
    } else {
      SwitchApplied(c, p, r, pc, next);
    }
  }

  lemma AtPc(c: Crypto, p: Party, r: Party, pc: Pc)
    requires PcOk(pc) && r.hello.versions != []
    ensures var at := PeerAt(c, p, r, pc);
            at.phase == pc.phase && at.loop == pc.loop && at.inHalf == InHalf(c, p, r, pc)
  {
    hide InHalf, Messages, OutHalf, TermsOf, TranscriptAt, Master, Exchange, Intersect;
  }

  /** The first record of all starts the session's own handshake before it is read. */
  lemma FirstReadRefines(c: Crypto, p: Party, r: Party, pc: Pc, started: Pc, available: nat, outbox: seq<Bytes>)
    requires Honest(c, p, r) && PcOk(pc) && PcOk(started) && pc.got < available <= 4
    requires pc.phase == Idle && started == pc.(phase := WriteHello)
    ensures ReadRecord(LocalAt(c, p, r, pc, available, outbox)) == ReadRecord(LocalAt(c, p, r, started, available, outbox))
    ensures TookRecord(pc) == TookRecord(started)
  {
    hide Records, Messages, PeerAt, DispatchRecord, Counter, Apply, KeysAgree, LawfulFor, CipherIn;
    FirstRecord(c, r, p, pc.got, available);
    AtPc(c, p, r, pc);
    AtPc(c, p, r, started);
    RecordMeans(c, p, r, started, InHalf(c, p, r, started), false, false);
    RecordMeans(c, p, r, started, InHalf(c, p, r, started), false, true);
    Started(c, p, r, pc, started);
  }

  lemma Started(c: Crypto, p: Party, r: Party, pc: Pc, started: Pc)
    requires PcOk(pc) && PcOk(started) && r.hello.versions != []
    requires pc.phase == Idle && started == pc.(phase := WriteHello)
    ensures PeerAt(c, p, r, pc).(phase := WriteHello) == PeerAt(c, p, r, started)
    ensures InHalf(c, p, r, pc) == InHalf(c, p, r, started)
  {
    hide Messages, TermsOf, HelloBytes, Decoded, Exchange, Master, CipherIn, Intersect, Counter;
  }

  lemma ResumeRefines(c: Crypto, p: Party, r: Party, pc: Pc, next: Pc, available: nat, outbox: seq<Bytes>)
    requires PcOk(pc) && PcOk(next) && pc.got <= available <= 4 && r.hello.versions != []
    requires pc.loop == Switching && pc.ready && next == pc.(loop := Reading, ready := false)
    ensures Wake(LocalAt(c, p, r, pc, available, outbox)) == Some(LocalAt(c, p, r, next, available, outbox))
  {
    hide Messages, Records, TermsOf, HelloBytes, Decoded, TranscriptAt, Exchange, Master, CipherIn, OutHalf, Intersect;
    CounterSteps(0);
  }

  lemma ChannelAt(c: Crypto, p: Party, r: Party, pc: Pc)
    requires PcOk(pc) && r.hello.versions != []
    ensures |PeerAt(c, p, r, pc).channel| == Arrived(pc.got) - TakenBy(pc.phase)
    ensures PeerAt(c, p, r, pc).phase == pc.phase
  {
    hide InHalf, Messages, OutHalf, TermsOf, TranscriptAt, Master, Exchange, Intersect;
  }

  function WithSent(c: Crypto, p: Party, r: Party, outbox: seq<Bytes>, before: Phase, after: Phase): seq<Bytes> {
    if SentBy(before) < SentBy(after) then outbox + [Records(c, p, r)[SentBy(before)]] else outbox
  }

  lemma LocalHas(c: Crypto, p: Party, r: Party, pc: Pc, available: nat, outbox: seq<Bytes>)
    requires PcOk(pc) && pc.got <= available <= 4 && r.hello.versions != []
    ensures LocalAt(c, p, r, pc, available, outbox).peer == PeerAt(c, p, r, pc)
  {
    hide PeerAt, Records;
  }

  lemma GoroutineMoves(c: Crypto, p: Party, r: Party, pc: Pc, next: Pc, available: nat, outbox: seq<Bytes>)
    requires Honest(c, p, r) && PcOk(pc) && PcOk(next) && next.got == pc.got <= available <= 4
    requires Moves(pc, next) && pc.phase != Idle && pc.phase != Complete
    ensures Advance(c, p, r.id, LocalAt(c, p, r, pc, available, outbox))
            == Some(LocalAt(c, p, r, next, available, WithSent(c, p, r, outbox, pc.phase, next.phase)))
  {
    hide WriteHelloStep, ReadHelloStep, WriteKeyExchangeStep, ReadKeyExchangeStep, PrepareInStep, PrepareOutStep, Send,
      SwitchOutStep, WriteFinishedStep, ReadFinishedStep, Honest, PeerAt, Records, LocalAt, TakenBy, Arrived, PcOk;
    ChannelAt(c, p, r, pc);
    LocalHas(c, p, r, pc, available, outbox);
    MovesFacts(pc, next);
    match pc.phase
    case WriteHello => WriteHelloRefines(c, p, r, pc, next, available, outbox);
    case AwaitHello => AwaitHelloRefines(c, p, r, pc, next, available, outbox);
    case WriteKeyExchange => WriteKeyExchangeRefines(c, p, r, pc, next, available, outbox);
    case AwaitKeyExchange => AwaitKeyExchangeRefines(c, p, r, pc, next, available, outbox);
    case PrepareIn => PrepareRefines(c, p, r, pc, next, available, outbox);
    case PrepareOut => PrepareRefines(c, p, r, pc, next, available, outbox);
    case WriteCCS => WriteCCSRefines(c, p, r, pc, next, available, outbox);
    case SwitchOut => SwitchOutRefines(c, p, r, pc, next, available, outbox);
    case WriteFinished => WriteFinishedRefines(c, p, r, pc, next, available, outbox);
    case AwaitFinished => AwaitFinishedRefines(c, p, r, pc, next, available, outbox);
  }

  lemma MovesFacts(pc: Pc, next: Pc)
    requires Moves(pc, next)
    ensures PcOk(pc) && PcOk(next)
    ensures SentBy(pc.phase) < SentBy(next.phase) <==>
              pc.phase in {WriteHello, WriteKeyExchange, WriteCCS, WriteFinished}
    ensures pc.phase == WriteHello ==> SentBy(pc.phase) == 0
    ensures pc.phase == WriteKeyExchange ==> SentBy(pc.phase) == 1
    ensures pc.phase == WriteCCS ==> SentBy(pc.phase) == 2
    ensures pc.phase == WriteFinished ==> SentBy(pc.phase) == 3
    ensures pc.phase != Idle ==> pc.phase != Failed
  {
  }

  lemma GoroutineWaits(c: Crypto, p: Party, r: Party, pc: Pc, available: nat, outbox: seq<Bytes>)
    requires PcOk(pc) && pc.got <= available <= 4 && r.hello.versions != []
    requires pc.phase == Idle || pc.phase == Complete || (Waiting(pc.phase) && TakenBy(pc.phase) == Arrived(pc.got))
    ensures Advance(c, p, r.id, LocalAt(c, p, r, pc, available, outbox)) == None
  {
    hide PeerAt, LocalAt;
    ChannelAt(c, p, r, pc);
    LocalHas(c, p, r, pc, available, outbox);
  }

  lemma RefinedStep(c: Crypto, p: Party, r: Party, pc: Pc, next: Pc, available: nat, outbox: seq<Bytes>, after: Local)
    requires r.hello.versions != [] && PcOk(next) && next.got <= available <= 4
    requires SentBy(pc.phase) <= SentBy(next.phase) <= SentBy(pc.phase) + 1
    requires after == LocalAt(c, p, r, next, available, WithSent(c, p, r, outbox, pc.phase, next.phase))
    ensures Refined(c, p, r, pc, available, outbox, Some(after), Some(next))
  {
    hide LocalAt, Records, PcOk;
    var sent := SentBy(pc.phase);
    if sent < SentBy(next.phase) {
      OneSent(c, p, r, outbox, sent);
    } else {
      NothingSentWhile(c, p, r, outbox, sent);
    }
  }

  lemma RefinedBlock(c: Crypto, p: Party, r: Party, pc: Pc, available: nat, outbox: seq<Bytes>)
    requires r.hello.versions != [] && available <= 4
    ensures Refined(c, p, r, pc, available, outbox, None, None)
  {
  }

  lemma MachineMoves(pc: Pc, available: nat)
    requires PcOk(pc) && pc.got <= available <= 4
    ensures var next := PcStep(pc, available, Handshake);
            && (next.Some? ==>
                  && next.value == Advanced(pc) && Moves(pc, Advanced(pc)) && Advanced(pc).got == pc.got && PcOk(Advanced(pc))
                  && pc.phase != Idle && pc.phase != Complete
                  && SentBy(pc.phase) <= SentBy(Advanced(pc).phase) <= SentBy(pc.phase) + 1)
            && (next.None? ==> pc.phase == Idle || pc.phase == Complete
                               || (Waiting(pc.phase) && TakenBy(pc.phase) == Arrived(pc.got)))
  {
  }

  /** The goroutine can move exactly when the machine can, and moves as it does. */
  lemma HandshakeRefines(c: Crypto, p: Party, r: Party, pc: Pc, available: nat, outbox: seq<Bytes>)
    requires Honest(c, p, r) && PcOk(pc) && pc.got <= available <= 4
    ensures Refined(c, p, r, pc, available, outbox, Advance(c, p, r.id, LocalAt(c, p, r, pc, available, outbox)),
                    PcStep(pc, available, Handshake))
  {
    hide Advance, Honest, LocalAt, Records, Refined, PcStep, PcOk, Moves, SentBy, TakenBy, Arrived, Waiting,
      Advanced;
    MachineMoves(pc, available);
    if PcStep(pc, available, Handshake).Some? {
      var next := Advanced(pc);
      GoroutineMoves(c, p, r, pc, next, available, outbox);
      RefinedStep(c, p, r, pc, next, available, outbox, Advance(c, p, r.id, LocalAt(c, p, r, pc, available, outbox)).value);
    } else {
      GoroutineWaits(c, p, r, pc, available, outbox);
      RefinedBlock(c, p, r, pc, available, outbox);
    }
  }

  lemma RecordRefines(c: Crypto, p: Party, r: Party, pc: Pc, available: nat, outbox: seq<Bytes>)
    requires Honest(c, p, r) && PcOk(pc) && pc.got <= available <= 4
    ensures Refined(c, p, r, pc, available, outbox, ReadRecord(LocalAt(c, p, r, pc, available, outbox)),
                    PcStep(pc, available, Record))
  {
    hide Honest, LocalAt, ReadRecord, Refined;
    if pc.loop == Reading && pc.got < available {
      PcStepOk(pc, available, Record);
      var started := if pc.phase == Idle then pc.(phase := WriteHello) else pc;
      var next := TookRecord(started);
      if pc.phase == Idle {
        FirstReadRefines(c, p, r, pc, started, available, outbox);
      }
      ReadRefines(c, p, r, started, next, available, outbox);
      RefinedStep(c, p, r, pc, next, available, outbox, LocalAt(c, p, r, next, available, outbox));
    } else {
      LoopWaits(c, p, r, pc, available, outbox);
      RefinedBlock(c, p, r, pc, available, outbox);
    }
  }

  lemma LoopWaits(c: Crypto, p: Party, r: Party, pc: Pc, available: nat, outbox: seq<Bytes>)
    requires PcOk(pc) && pc.got <= available <= 4 && r.hello.versions != []
    requires pc.loop != Reading || pc.got == available
    ensures ReadRecord(LocalAt(c, p, r, pc, available, outbox)) == None
  {
    hide PeerAt, Records, DispatchRecord, Apply;
    AtPc(c, p, r, pc);
  }

  lemma WakeRefines(c: Crypto, p: Party, r: Party, pc: Pc, available: nat, outbox: seq<Bytes>)
    requires Honest(c, p, r) && PcOk(pc) && pc.got <= available <= 4
    ensures Refined(c, p, r, pc, available, outbox, Wake(LocalAt(c, p, r, pc, available, outbox)),
                    PcStep(pc, available, Resume))
  {
    hide Honest, LocalAt, Refined, Wake, InHalf, PeerAt;
    if pc.loop == Switching && pc.ready {
      var next := pc.(loop := Reading, ready := false);
      PcStepOk(pc, available, Resume);
      ResumeRefines(c, p, r, pc, next, available, outbox);
      RefinedStep(c, p, r, pc, next, available, outbox, LocalAt(c, p, r, next, available, outbox));
    } else {
      WakeWaits(c, p, r, pc, available, outbox);
      RefinedBlock(c, p, r, pc, available, outbox);
    }
  }

  lemma WakeWaits(c: Crypto, p: Party, r: Party, pc: Pc, available: nat, outbox: seq<Bytes>)
    requires PcOk(pc) && pc.got <= available <= 4 && r.hello.versions != []
    requires pc.loop != Switching || !pc.ready
    ensures Wake(LocalAt(c, p, r, pc, available, outbox)) == None
  {
    hide PeerAt, Records, InHalf;
    AtPc(c, p, r, pc);
    ReadyAt(c, p, r, pc);
  }

  lemma ReadyAt(c: Crypto, p: Party, r: Party, pc: Pc)
    requires PcOk(pc)
    ensures InHalf(c, p, r, pc).ready == pc.ready
  {
  }

  lemma StartRefines(c: Crypto, p: Party, r: Party, pc: Pc, available: nat, outbox: seq<Bytes>)
    requires Honest(c, p, r) && PcOk(pc) && pc.got <= available <= 4
    ensures Refined(c, p, r, pc, available, outbox,
                    LocalStep(c, p, r.id, LocalAt(c, p, r, pc, available, outbox), Start), PcStep(pc, available, Start))
  {
    hide Honest, Refined, InHalf, PeerAt, Records;
    AtPc(c, p, r, pc);
    if pc.phase == Idle {
      var next := pc.(phase := WriteHello);
      Started(c, p, r, pc, next);
      RefinedStep(c, p, r, pc, next, available, outbox, LocalAt(c, p, r, next, available, outbox));
    } else {
      RefinedBlock(c, p, r, pc, available, outbox);
    }
  }

  /** Every step of a peer is a step of the machine, and every step of the machine one of
      the peer. */
  lemma StepRefines(c: Crypto, p: Party, r: Party, pc: Pc, available: nat, outbox: seq<Bytes>, action: Action)
    requires Honest(c, p, r) && PcOk(pc) && pc.got <= available <= 4
    ensures Refined(c, p, r, pc, available, outbox, LocalStep(c, p, r.id, LocalAt(c, p, r, pc, available, outbox), action),
                    PcStep(pc, available, action))
  {
    hide Advance, ReadRecord, Wake, Honest, LocalAt, Refined, PcStep, PcOk;
    match action
    case Handshake => HandshakeRefines(c, p, r, pc, available, outbox);
    case Start => StartRefines(c, p, r, pc, available, outbox);
    case Record => RecordRefines(c, p, r, pc, available, outbox);
    case Resume => WakeRefines(c, p, r, pc, available, outbox);
  }
}
