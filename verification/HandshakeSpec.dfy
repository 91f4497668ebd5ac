/** The symmetric handshake (e2ewebsocket/handshake_state.go, session.go, conn.go): two
    peers run the same code, and the peer with the larger identity is the initiator. In
    each peer a handshake goroutine, which writes messages and takes arrived ones from a
    bounded channel, runs beside the read loop, which opens records, fills that channel and
    switches the incoming cipher as soon as the goroutine has prepared it. */
module HandshakeSpec {
  import opened Common
  import opened Cryptobyte
  import opened HalfConn
  import opened HandshakeMessage
  import opened Negotiation
  import opened Dispatch

  const CHANNEL_CAPACITY: nat := 16
  const MAX_HANDSHAKE: nat := 65536

  /** What the key agreement is run on. */
  datatype Terms = Terms(suite: U16, scheme: U16, initiatorRandom: Bytes, responderRandom: Bytes)

  datatype Ciphers = Ciphers(initiator: Aead, responder: Aead)

  /** The configured preference orders and what the suites compute. */
  datatype Crypto = Crypto(
    versionOrder: seq<U16>, suiteOrder: seq<U16>, schemeOrder: seq<U16>,
    known: set<U16>,
    masterSecret: (U16, Bytes, Bytes, Bytes) -> Bytes,
    ciphers: (U16, Bytes, Bytes, Bytes) -> Ciphers,
    finishedSum: (U16, Bytes, string, Bytes) -> Bytes)

  /** One peer's identity, its hello, its randomness for explicit nonces, and its key
      agreement: the payload it sends and the secret it computes from the other's. */
  datatype Party = Party(
    id: string, hello: Hello, rand: Bytes,
    keyExchange: Terms -> Option<Bytes>,
    preMaster: (Terms, Bytes) -> Option<Bytes>)

  datatype Phase =
    | Idle
    | WriteHello | AwaitHello
    | WriteKeyExchange | AwaitKeyExchange
    | PrepareIn | PrepareOut
    | WriteCCS | SwitchOut
    | WriteFinished | AwaitFinished
    | Complete
    | Failed

  datatype Loop = Reading | Switching | Closed

  const NO_HELLO: Hello := Hello([], [], [], [], [], false, [])

  datatype Peer = Peer(phase: Phase, loop: Loop, channel: seq<Bytes>, inHalf: Half, outHalf: Half,
                       version: U16, suite: U16, scheme: U16, remoteHello: Hello,
                       transcript: Bytes, ownKeyExchange: Bytes, master: Bytes)

  const NEW_PEER: Peer := Peer(Idle, Reading, [], FRESH, FRESH, 0, 0, 0, NO_HELLO, [], [], [])

  /** A peer with the two ends of its link. */
  datatype Local = Local(peer: Peer, inbox: seq<Bytes>, outbox: seq<Bytes>)

  predicate Initiates(own: string, other: string) {
    LexLess(other, own)
  }

  function TermsFor(me: Party, remoteId: string, suite: U16, scheme: U16, remoteRandom: Bytes): Terms {
    if Initiates(me.id, remoteId) then Terms(suite, scheme, me.hello.random, remoteRandom)
    else Terms(suite, scheme, remoteRandom, me.hello.random)
  }

  function PeerTerms(me: Party, remoteId: string, p: Peer): Terms {
    TermsFor(me, remoteId, p.suite, p.scheme, p.remoteHello.random)
  }

  function Fail(l: Local): Local {
    l.(peer := l.peer.(phase := Failed))
  }

  /** Encrypting and sending a record is one step. */
  function Send(me: Party, l: Local, typ: Byte, body: Bytes, next: Phase): (sent: Local)
    requires |l.peer.outHalf.counter| == COUNTER_LEN
    ensures |sent.peer.outHalf.counter| == COUNTER_LEN
  {
    var s := SealRecord(l.peer.outHalf, [typ] + body, me.rand);
    if !s.result.Ok? then Fail(l.(peer := l.peer.(outHalf := s.half)))
    else Local(l.peer.(outHalf := s.half, phase := next), l.inbox, l.outbox + [s.result.data])
  }

  /** The next message from the channel, parsed; the channel has lost it either way. */
  function TakeMessage(data: Bytes): Option<Message> {
    if |data| > MAX_HANDSHAKE then None else ParseMessage(data)
  }

  function Taken(l: Local): Local
    requires l.peer.channel != []
  {
    l.(peer := l.peer.(channel := l.peer.channel[1..]))
  }

  // --- The phases of the handshake goroutine ----------------------------------------------

  function WriteHelloStep(me: Party, l: Local): Local
    requires |l.peer.outHalf.counter| == COUNTER_LEN
  {
    var h := me.hello;
    if h.versions == [] || h.curves == [] || h.schemes == [] then Fail(l)
    else match MarshalHello(h)
      case None => Fail(l)
      case Some(data) => Send(me, l, HANDSHAKE, data, AwaitHello)
  }

  /** Negotiates and starts the transcript, the initiator's hello first. Lists without a
      common version are not refused: the version is then zero. */
  function ProcessHello(c: Crypto, me: Party, remoteId: string, l: Local, remote: Hello, data: Bytes): Local {
    var version := Intersect(me.hello.versions, remote.versions);
    var suite := Intersect(me.hello.suites, remote.suites);
    var scheme := Intersect(me.hello.schemes, remote.schemes);
    if suite == 0 || suite !in c.known || scheme == 0 || me.hello.versions == [] || MarshalHello(me.hello).None?
    then Fail(l)
    else
      var own := MarshalHello(me.hello).value;
      l.(peer := l.peer.(
        phase := WriteKeyExchange, version := version, suite := suite, scheme := scheme, remoteHello := remote,
        transcript := if Initiates(me.id, remoteId) then own + data else data + own))
  }

  function ReadHelloStep(c: Crypto, me: Party, remoteId: string, l: Local): Local
    requires l.peer.channel != []
  {
    var data := l.peer.channel[0];
    match TakeMessage(data)
    case Some(HelloMsg(remote)) => ProcessHello(c, me, remoteId, Taken(l), remote, data)
    case _ => Fail(Taken(l))
  }

  /** The initiator's own message enters the transcript at once, the responder's later. */
  function WriteKeyExchangeStep(me: Party, remoteId: string, l: Local): Local
    requires |l.peer.outHalf.counter| == COUNTER_LEN
  {
    match me.keyExchange(PeerTerms(me, remoteId, l.peer))
    case None => Fail(l)
    case Some(key) =>
      var data := MarshalKeyExchange(key);
      var transcript := if Initiates(me.id, remoteId) then l.peer.transcript + data else l.peer.transcript;
      Send(me, l.(peer := l.peer.(ownKeyExchange := data, transcript := transcript)), HANDSHAKE, data, AwaitKeyExchange)
  }

  /** A message of another kind is not refused here: it leaves an empty premaster secret. */
  function ReadKeyExchangeStep(c: Crypto, me: Party, remoteId: string, l: Local): Local
    requires l.peer.channel != []
  {
    var terms := PeerTerms(me, remoteId, l.peer);
    match TakeMessage(l.peer.channel[0])
    case None => Fail(Taken(l))
    case Some(KeyExchangeMsg(key)) =>
      var transcript := l.peer.transcript + MarshalKeyExchange(key)
                        + if Initiates(me.id, remoteId) then [] else l.peer.ownKeyExchange;
      (match me.preMaster(terms, key)
       case None => Fail(Taken(l))
       case Some(pre) => WithMaster(c, terms, Taken(l).(peer := Taken(l).peer.(transcript := transcript)), pre))
    case Some(_) => WithMaster(c, terms, Taken(l), [])
  }

  function WithMaster(c: Crypto, terms: Terms, l: Local, pre: Bytes): Local {
    l.(peer := l.peer.(phase := PrepareIn,
         master := c.masterSecret(terms.suite, pre, terms.initiatorRandom, terms.responderRandom)))
  }

  function OwnCipher(c: Crypto, me: Party, remoteId: string, p: Peer): Aead {
    var t := PeerTerms(me, remoteId, p);
    var both := c.ciphers(t.suite, p.master, t.initiatorRandom, t.responderRandom);
    if Initiates(me.id, remoteId) then both.initiator else both.responder
  }

  function RemoteCipher(c: Crypto, me: Party, remoteId: string, p: Peer): Aead {
    var t := PeerTerms(me, remoteId, p);
    var both := c.ciphers(t.suite, p.master, t.initiatorRandom, t.responderRandom);
    if Initiates(me.id, remoteId) then both.responder else both.initiator
  }

  function PrepareInStep(c: Crypto, me: Party, remoteId: string, l: Local): Local {
    l.(peer := l.peer.(phase := PrepareOut, inHalf := Prepare(l.peer.inHalf, RemoteCipher(c, me, remoteId, l.peer))))
  }

  function PrepareOutStep(c: Crypto, me: Party, remoteId: string, l: Local): Local {
    l.(peer := l.peer.(phase := WriteCCS, outHalf := Prepare(l.peer.outHalf, OwnCipher(c, me, remoteId, l.peer))))
  }

  function SwitchOutStep(l: Local): Option<Local> {
    var out := l.peer.outHalf;
    if out.nextCipher.Some? then Some(l.(peer := l.peer.(phase := WriteFinished, outHalf := Switch(out))))
    else if out.ready then Some(Fail(l.(peer := l.peer.(outHalf := out.(ready := false)))))
    else None
  }

  /** The sum over the transcript so far, labelled with a peer's identity. */
  function SumFor(c: Crypto, me: Party, p: Peer, name: string): Bytes {
    c.finishedSum(p.suite, p.master, name, p.transcript)
  }

  function WriteFinishedStep(c: Crypto, me: Party, l: Local): Local
    requires |l.peer.outHalf.counter| == COUNTER_LEN
  {
    match MarshalFinished(SumFor(c, me, l.peer, me.id))
    case None => Fail(l)
    case Some(data) => Send(me, l, HANDSHAKE, data, AwaitFinished)
  }

  function ReadFinishedStep(c: Crypto, me: Party, remoteId: string, l: Local): Local
    requires l.peer.channel != []
  {
    match TakeMessage(l.peer.channel[0])
    case Some(FinishedMsg(verifyData)) =>
      if verifyData != SumFor(c, me, l.peer, remoteId) || MarshalFinished(verifyData).None? then Fail(Taken(l))
      else Taken(l).(peer := Taken(l).peer.(
             phase := Complete, transcript := l.peer.transcript + MarshalFinished(verifyData).value))
    case _ => Fail(Taken(l))
  }

  /** One step of the handshake goroutine; none while it waits for a message. */
  function Advance(c: Crypto, me: Party, remoteId: string, l: Local): (after: Option<Local>)
    requires |l.peer.outHalf.counter| == COUNTER_LEN
    ensures after.Some? ==> |after.value.peer.outHalf.counter| == COUNTER_LEN
  {
    match l.peer.phase
    case WriteHello => Some(WriteHelloStep(me, l))
    case AwaitHello => if l.peer.channel == [] then None else Some(ReadHelloStep(c, me, remoteId, l))
    case WriteKeyExchange => Some(WriteKeyExchangeStep(me, remoteId, l))
    case AwaitKeyExchange => if l.peer.channel == [] then None else Some(ReadKeyExchangeStep(c, me, remoteId, l))
    case PrepareIn => Some(PrepareInStep(c, me, remoteId, l))
    case PrepareOut => Some(PrepareOutStep(c, me, remoteId, l))
    case WriteCCS => Some(Send(me, l, CHANGE_CIPHER_SPEC, CCS_TEXT, SwitchOut))
    case SwitchOut => SwitchOutStep(l)
    case WriteFinished => Some(WriteFinishedStep(c, me, l))
    case AwaitFinished => if l.peer.channel == [] then None else Some(ReadFinishedStep(c, me, remoteId, l))
    case _ => None
  }

  // --- The read loop ---------------------------------------------------------------------

  /** What a record's meaning does to the handshake. Lost, application and control content
      leave it alone. */
  function Apply(p: Peer, v: Verdict): Peer {
    match v
    case ToHandshake(data) =>
      if |p.channel| < CHANNEL_CAPACITY then p.(channel := p.channel + [data]) else p.(loop := Closed)
    case SwitchCipher =>
      if p.inHalf.nextCipher.Some? then p.(inHalf := Switch(p.inHalf)) else p.(loop := Switching)
    case Terminate => p.(loop := Closed)
    case CloseLocally => p.(loop := Closed)
    case ResetSession(_) => p.(loop := Closed)
    case Panic => p.(loop := Closed)
    case _ => p
  }

  /** One round of the read loop. The first record of a new session starts its handshake. */
  function ReadRecord(l: Local): Option<Local> {
    if l.peer.loop != Reading || l.inbox == [] then None
    else
      var loaded := l.peer.phase != Idle;
      var p := if loaded then l.peer else l.peer.(phase := WriteHello);
      var d := DispatchRecord(p.inHalf, p.phase == Complete, loaded, l.inbox[0]);
      Some(Local(Apply(p.(inHalf := d.half), d.verdict), l.inbox[1..], l.outbox))
  }

  /** The waiting switch goes on once a cipher has been announced. */
  function Wake(l: Local): Option<Local> {
    var half := l.peer.inHalf;
    if l.peer.loop != Switching || !half.ready then None
    else if half.nextCipher.None? then
      Some(l.(peer := l.peer.(loop := Closed, inHalf := half.(ready := false))))
    else Some(l.(peer := l.peer.(loop := Reading, inHalf := Switch(half.(ready := false)))))
  }

  datatype Action = Start | Handshake | Record | Resume

  /** `Start` is the application's first message to the other peer. */
  function LocalStep(c: Crypto, me: Party, remoteId: string, l: Local, action: Action): Option<Local>
    requires |l.peer.outHalf.counter| == COUNTER_LEN
  {
    match action
    case Start => if l.peer.phase == Idle then Some(l.(peer := l.peer.(phase := WriteHello))) else None
    case Handshake => Advance(c, me, remoteId, l)
    case Record => ReadRecord(l)
    case Resume => Wake(l)
  }

  // --- Two peers -------------------------------------------------------------------------

  datatype Side = A | B

  datatype Net = Net(a: Peer, b: Peer, toA: seq<Bytes>, toB: seq<Bytes>)

  const START: Net := Net(NEW_PEER, NEW_PEER, [], [])

  datatype Event = Event(side: Side, action: Action)

  predicate WellFormed(n: Net) {
    |n.a.outHalf.counter| == |n.b.outHalf.counter| == COUNTER_LEN
  }

  function Step(c: Crypto, a: Party, b: Party, n: Net, e: Event): Option<Net>
    requires WellFormed(n)
  {
    match e.side
    case A => (match LocalStep(c, a, b.id, Local(n.a, n.toA, n.toB), e.action)
               case None => None
               case Some(l) => Some(Net(l.peer, n.b, l.inbox, l.outbox)))
    case B => (match LocalStep(c, b, a.id, Local(n.b, n.toB, n.toA), e.action)
               case None => None
               case Some(l) => Some(Net(n.a, l.peer, l.outbox, l.inbox)))
  }

  /** The state after a run; none when some event of it was not possible. */
  function Run(c: Crypto, a: Party, b: Party, events: seq<Event>): (n: Option<Net>)
    ensures n.Some? ==> WellFormed(n.value)
  {
    if events == [] then Some(START)
    else match Run(c, a, b, Front(events))
      case None => None
      case Some(before) =>
        var next := Step(c, a, b, before, Last(events));
        if next.Some? then StepWellFormed(c, a, b, before, Last(events)); next else None
  }

  lemma StepWellFormed(c: Crypto, a: Party, b: Party, n: Net, e: Event)
    requires WellFormed(n) && Step(c, a, b, n, e).Some?
    ensures WellFormed(Step(c, a, b, n, e).value)
  {
    if e.side == A {
      LocalWellFormed(c, a, b.id, Local(n.a, n.toA, n.toB), e.action);
    } else {
      LocalWellFormed(c, b, a.id, Local(n.b, n.toB, n.toA), e.action);
    }
  }

  lemma LocalWellFormed(c: Crypto, me: Party, remoteId: string, l: Local, action: Action)
    requires |l.peer.outHalf.counter| == COUNTER_LEN && LocalStep(c, me, remoteId, l, action).Some?
    ensures |LocalStep(c, me, remoteId, l, action).value.peer.outHalf.counter| == COUNTER_LEN
  {
    hide Advance, DispatchRecord;
  }

  // --- What a hello leads to --------------------------------------------------------------

  /** A hello is refused exactly when no suite or no signature scheme is shared, whatever
      order the lists are in. */
  lemma HelloRefusedExactlyWhen(c: Crypto, me: Party, remoteId: string, l: Local, remote: Hello, data: Bytes)
    requires l.peer.phase == AwaitHello && me.hello.versions != [] && MarshalHello(me.hello).Some?
    requires 0 !in remote.suites && 0 !in remote.schemes
    requires forall x :: x in me.hello.suites ==> x in c.known
    ensures ProcessHello(c, me, remoteId, l, remote, data).peer.phase == Failed
            <==> !Share(me.hello.suites, remote.suites) || !Share(me.hello.schemes, remote.schemes)
  {
    hide Intersect, MarshalHello;
    ZeroPick(me.hello.suites, remote.suites);
    ZeroPick(me.hello.schemes, remote.schemes);
  }

  /** A hello that is not refused leads to version zero exactly when no version is shared. */
  lemma VersionZeroExactlyWhen(c: Crypto, me: Party, remoteId: string, l: Local, remote: Hello, data: Bytes)
    requires l.peer.phase == AwaitHello && 0 !in remote.versions
    ensures var after := ProcessHello(c, me, remoteId, l, remote, data).peer;
            after.phase != Failed ==> (after.version == 0 <==> !Share(me.hello.versions, remote.versions))
  {
    hide Intersect, MarshalHello;
    ZeroPick(me.hello.versions, remote.versions);
  }

  lemma ZeroPick(a: seq<U16>, b: seq<U16>)
    requires 0 !in b
    ensures Intersect(a, b) == 0 <==> !Share(a, b)
    ensures Share(a, b) ==> Intersect(a, b) in a
  {
    hide Intersect;
    IntersectIsFirst(a, b);
  }

  /** Two peers that both go on after each other's hello have settled on different signature
      schemes, or versions, exactly when their configured orders have different favourites. */
  lemma ChoicesDifferExactlyWhen(c: Crypto, a: Party, b: Party, la: Local, lb: Local, da: Bytes, db: Bytes)
    requires la.peer.phase == lb.peer.phase == AwaitHello && a.hello.versions != [] && b.hello.versions != []
    ensures var atA := ProcessHello(c, a, b.id, la, Decoded(b.hello), db).peer;
            var atB := ProcessHello(c, b, a.id, lb, Decoded(a.hello), da).peer;
            atA.phase != Failed && atB.phase != Failed ==>
              && (atA.scheme != atB.scheme <==> FavouritesDiffer(a.hello.schemes, b.hello.schemes))
              && (atA.version != atB.version <==> FavouritesDiffer(a.hello.versions, b.hello.versions))
              && (atA.suite != atB.suite <==> FavouritesDiffer(a.hello.suites, b.hello.suites))
  {
    hide Intersect, MarshalHello, FirstCommon;
    SymmetricExactlyWhen(a.hello.schemes, b.hello.schemes);
    SymmetricExactlyWhen(a.hello.versions, b.hello.versions);
    SymmetricExactlyWhen(a.hello.suites, b.hello.suites);
    FirstRepeated(a.hello.versions, b.hello.versions);
    FirstRepeated(b.hello.versions, a.hello.versions);
  }

  // --- What a message in the key exchange's place leads to --------------------------------

  /** The premaster secret a message leads to, none when it is refused. */
  function PremasterFrom(me: Party, terms: Terms, data: Bytes): Option<Bytes> {
    match TakeMessage(data)
    case None => None
    case Some(KeyExchangeMsg(key)) => me.preMaster(terms, key)
    case Some(_) => Some([])
  }

  /** A peer goes on from the key exchange exactly when the message leads to a premaster
      secret, and with the master secret of that one. */
  lemma MasterComesFromPremaster(c: Crypto, me: Party, remoteId: string, l: Local)
    requires l.peer.phase == AwaitKeyExchange && l.peer.channel != []
    ensures var terms := PeerTerms(me, remoteId, l.peer);
            var pre := PremasterFrom(me, terms, l.peer.channel[0]);
            var after := ReadKeyExchangeStep(c, me, remoteId, l).peer;
            && (after.phase == PrepareIn <==> pre.Some?)
            && (after.phase == Failed <==> pre.None?)
            && (pre.Some? ==>
                  after.master == c.masterSecret(terms.suite, pre.value, terms.initiatorRandom, terms.responderRandom))
  {
    hide TakeMessage, MarshalKeyExchange;
  }

  /** Exactly when that premaster secret is empty: the message reads as a hello or a finished
      message, which is not refused and does not enter the transcript, or the key agreement
      itself yields nothing. */
  lemma EmptyPremasterExactlyWhen(c: Crypto, me: Party, remoteId: string, l: Local)
    requires l.peer.phase == AwaitKeyExchange && l.peer.channel != []
    ensures var terms := PeerTerms(me, remoteId, l.peer);
            var msg := TakeMessage(l.peer.channel[0]);
            && (PremasterFrom(me, terms, l.peer.channel[0]) == Some([])
                <==> msg.Some? && (msg.value.KeyExchangeMsg? ==> me.preMaster(terms, msg.value.key) == Some([])))
            && (msg.Some? && !msg.value.KeyExchangeMsg? ==>
                  var after := ReadKeyExchangeStep(c, me, remoteId, l).peer;
                  && after.phase == PrepareIn && after.transcript == l.peer.transcript
                  && after.master == c.masterSecret(terms.suite, [], terms.initiatorRandom, terms.responderRandom))
  {
    hide TakeMessage, MarshalKeyExchange;
  }

  // --- What is refused ----------------------------------------------------------------------

  /** A peer completes exactly when the message carries the sum it expects under the other's
      identity; the transcript then grows by that message. Any other message fails it. */
  lemma FinishedAcceptedExactlyWhen(c: Crypto, me: Party, remoteId: string, l: Local)
    requires l.peer.phase == AwaitFinished && l.peer.channel != []
    ensures var after := ReadFinishedStep(c, me, remoteId, l).peer;
            var expected := c.finishedSum(l.peer.suite, l.peer.master, remoteId, l.peer.transcript);
            var data := l.peer.channel[0];
            && (after.phase == Complete <==> |data| <= 65536 && ParseMessage(data) == Some(FinishedMsg(expected)))
            && (after.phase != Complete ==> after.phase == Failed)
            && (after.phase == Complete ==>
                  after.transcript == l.peer.transcript
                                      + [20, |expected| / 65536 % 256, |expected| / 256 % 256, |expected| % 256] + expected)
  {
    hide ParseMessage, MarshalFinished;
    var data := l.peer.channel[0];
    var expected := c.finishedSum(l.peer.suite, l.peer.master, remoteId, l.peer.transcript);
    if ParseMessage(data) == Some(FinishedMsg(expected)) {
      FinishedShorter(data, expected);
    }
    OtherWire([], expected);
  }

  lemma FinishedShorter(data: Bytes, v: Bytes)
    requires ParseMessage(data) == Some(FinishedMsg(v))
    ensures |v| < |data|
  {
    hide ParseHello, ReadPrefixed;
  }

  /** A message longer than 65536 bytes is refused unread. */
  lemma LongMessageRefused(data: Bytes)
    ensures |data| > 65536 ==> TakeMessage(data).None?
    ensures |data| <= 65536 ==> TakeMessage(data) == ParseMessage(data)
  {
    hide ParseMessage;
  }

  /** What closes the read loop: a record that ends or resets the session, or a handshake
      message when sixteen are waiting. Otherwise a handshake message joins the end of the
      queue, and only a change of cipher touches anything else. */
  lemma LoopClosesExactlyWhen(l: Local)
    requires l.peer.loop == Reading && l.peer.phase != Idle && l.inbox != []
    ensures ReadRecord(l).Some? && ReadRecord(l).value.inbox == l.inbox[1..] && ReadRecord(l).value.outbox == l.outbox
    ensures var d := DispatchRecord(l.peer.inHalf, l.peer.phase == Complete, true, l.inbox[0]);
            var v := d.verdict;
            var after := ReadRecord(l).value.peer;
            && (after.loop == Closed <==> v.Terminate? || v.CloseLocally? || v.ResetSession? || v.Panic?
                                          || (v.ToHandshake? && |l.peer.channel| >= 16))
            && after.channel == (if v.ToHandshake? && |l.peer.channel| < 16 then l.peer.channel + [v.data] else l.peer.channel)
            && (after.loop == Switching <==> v.SwitchCipher? && d.half.nextCipher.None?)
            && after == l.peer.(loop := after.loop, channel := after.channel, inHalf := after.inHalf)
            && after.inHalf == (if v.SwitchCipher? && d.half.nextCipher.Some? then Switch(d.half) else d.half)
  {
    hide DispatchRecord;
  }

  // --- What is sent -----------------------------------------------------------------------

  /** In the clear: a hello exactly when there are versions, curves and schemes and it can be
      written; the change of cipher; each in one record of its type. */
  lemma ClearRecordsSent(me: Party, l: Local)
    requires l.peer.outHalf.cipher.None? && |l.peer.outHalf.counter| == COUNTER_LEN
    ensures var h := me.hello;
            var writable := h.versions != [] && h.curves != [] && h.schemes != [] && MarshalHello(h).Some?;
            WriteHelloStep(me, l)
            == if writable then Local(l.peer.(phase := AwaitHello), l.inbox, l.outbox + [[22] + MarshalHello(h).value])
               else l.(peer := l.peer.(phase := Failed))
    ensures l.peer.phase == WriteCCS ==>
              forall c, remoteId :: Advance(c, me, remoteId, l)
                == Some(Local(l.peer.(phase := SwitchOut), l.inbox, l.outbox + [[24, 67, 67, 83]]))
  {
    hide MarshalHello, SealRecord;
    SealsExactlyWhen(l.peer.outHalf, [HANDSHAKE] + Or(if me.hello.versions == [] then None else MarshalHello(me.hello), []), me.rand);
    SealsExactlyWhen(l.peer.outHalf, [CHANGE_CIPHER_SPEC] + CCS_TEXT, me.rand);
    assert [CHANGE_CIPHER_SPEC] + CCS_TEXT == [24, 67, 67, 83];
  }

  /** A key exchange goes out in the clear, and into the transcript at once only when the
      sender's name is the larger. */
  lemma KeyExchangeSent(me: Party, remoteId: string, l: Local)
    requires l.peer.outHalf.cipher.None? && |l.peer.outHalf.counter| == COUNTER_LEN
    ensures var terms := PeerTerms(me, remoteId, l.peer);
            var after := WriteKeyExchangeStep(me, remoteId, l);
            match me.keyExchange(terms)
            case None => after == l.(peer := l.peer.(phase := Failed))
            case Some(key) =>
              var data := MarshalKeyExchange(key);
              && after.outbox == l.outbox + [[22] + data] && after.peer.phase == AwaitKeyExchange
              && after.peer.ownKeyExchange == data
              && after.peer.transcript == if LexLess(remoteId, me.id) then l.peer.transcript + data else l.peer.transcript
  {
    hide MarshalKeyExchange, SealRecord;
    SealsExactlyWhen(l.peer.outHalf, [HANDSHAKE] + MarshalKeyExchange(Or(me.keyExchange(PeerTerms(me, remoteId, l.peer)), [])), me.rand);
  }

  /** A Finished goes out as one sealed record of the sum under the sender's own identity. */
  lemma FinishedSent(c: Crypto, me: Party, l: Local)
    requires |l.peer.outHalf.counter| == COUNTER_LEN
    requires |c.finishedSum(l.peer.suite, l.peer.master, me.id, l.peer.transcript)| == 12
    ensures var sum := c.finishedSum(l.peer.suite, l.peer.master, me.id, l.peer.transcript);
            var sealed := SealRecord(l.peer.outHalf, [22, 20, 0, 0, 12] + sum, me.rand);
            var after := WriteFinishedStep(c, me, l);
            && (after.peer.phase == AwaitFinished <==> sealed.result.Ok?)
            && (sealed.result.Ok? ==> after.outbox == l.outbox + [sealed.result.data] && after.peer.outHalf == sealed.half)
            && (!sealed.result.Ok? ==> after.peer.phase == Failed && after.outbox == l.outbox)
  {
    hide MarshalFinished, SealRecord;
    var sum := c.finishedSum(l.peer.suite, l.peer.master, me.id, l.peer.transcript);
    OtherWire([], sum);
    assert [22] + ([20, 0, 0, 12] + sum) == [22, 20, 0, 0, 12] + sum;
  }
}
