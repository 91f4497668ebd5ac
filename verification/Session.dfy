/** A session as the source keeps it (e2ewebsocket/session.go, handshake_state.go): fields
    and two half connections that the handshake goroutine and the read loop update in
    place, step by step as in HandshakeSpec. */
module Session {
  import opened Common
  import opened Cryptobyte
  import opened HalfConn
  import opened HandshakeMessage
  import opened Negotiation
  import opened Dispatch
  import opened HandshakeSpec

  class Session {
    const crypto: Crypto
    const me: Party
    const remoteId: string
    const inHalf: HalfConn
    const outHalf: HalfConn

    var phase: Phase
    var loop: Loop
    var handshakeChan: seq<Bytes>
    var version: U16
    var suite: U16
    var scheme: U16
    var remoteHello: Hello
    var transcript: Bytes
    var ownKeyExchange: Bytes
    var master: Bytes

    /** The unread and the sent records of the session's link. */
    var inbox: seq<Bytes>
    var outbox: seq<Bytes>

    constructor (crypto: Crypto, me: Party, remoteId: string)
      ensures Valid() && fresh(Repr())
      ensures this.crypto == crypto && this.me == me && this.remoteId == remoteId
      ensures Here() == Local(NEW_PEER, [], [])
    {
      this.crypto, this.me, this.remoteId := crypto, me, remoteId;
      inHalf := new HalfConn();
      outHalf := new HalfConn();
      phase, loop, handshakeChan := Idle, Reading, [];
      version, suite, scheme, remoteHello := 0, 0, 0, NO_HELLO;
      transcript, ownKeyExchange, master := [], [], [];
      inbox, outbox := [], [];
    }

    ghost function Repr(): set<object> {
      {this, inHalf, outHalf, inHalf.counter, outHalf.counter}
    }

    ghost predicate Valid() {
      && inHalf != outHalf && inHalf.counter != outHalf.counter
      && inHalf.counter.Length == outHalf.counter.Length == COUNTER_LEN
    }

    ghost function Here(): (l: Local)
      requires Valid()
      reads Repr()
      ensures |l.peer.outHalf.counter| == COUNTER_LEN
    {
      Local(Peer(phase, loop, handshakeChan, inHalf.Value(), outHalf.Value(), version, suite, scheme, remoteHello,
                 transcript, ownKeyExchange, master),
            inbox, outbox)
    }

    predicate IsInitiator() {
      LexLess(remoteId, me.id)
    }

    method WriteRecord(typ: Byte, body: Bytes, next: Phase)
      requires Valid()
      modifies Repr()
      ensures Here() == Send(me, old(Here()), typ, body, next)
    {
      hide SealRecord;
      var result := outHalf.Encrypt([typ] + body, me.rand);
      if !result.Ok? {
        phase := Failed;
        return;
      }
      outbox := outbox + [result.data];
      phase := next;
    }

    method MakeHelloAndWrite()
      requires Valid()
      modifies Repr()
      ensures Here() == WriteHelloStep(me, old(Here()))
    {
      hide Send, MarshalHello;
      var h := me.hello;
      if |h.versions| == 0 || |h.curves| == 0 || |h.schemes| == 0 {
        phase := Failed;
        return;
      }
      var data := MarshalHello(h);
      if data.None? {
        phase := Failed;
        return;
      }
      WriteRecord(HANDSHAKE, data.value, AwaitHello);
    }

    /** The next message of the channel, which loses it whether it reads or not. */
    method ReadHandshake() returns (m: Option<Message>)
      requires Valid() && handshakeChan != []
      modifies this`handshakeChan
      ensures handshakeChan == old(handshakeChan)[1..]
      ensures m == TakeMessage(old(handshakeChan)[0])
    {
      var data := handshakeChan[0];
      handshakeChan := handshakeChan[1..];
      if |data| > 65536 {
        return None;
      }
      return ParseMessage(data);
    }

    method ReadHello()
      requires Valid() && handshakeChan != []
      modifies Repr()
      ensures Here() == ReadHelloStep(crypto, me, remoteId, old(Here()))
    {
      hide ParseMessage, ProcessHello;
      var original := handshakeChan[0];
      var msg := ReadHandshake();
      if msg.None? || !msg.value.HelloMsg? {
        phase := Failed;
        return;
      }
      ProcessRemoteHello(msg.value.hello, original);
    }

    method ProcessRemoteHello(remote: Hello, original: Bytes)
      requires Valid()
      modifies this
      ensures Here() == ProcessHello(crypto, me, remoteId, old(Here()), remote, original)
    {
      hide MarshalHello, Intersect, HalfConn.Value;
      var picks := Pick(remote);
      if picks.None? || MarshalHello(me.hello).None? {
        phase := Failed;
        return;
      }
      var own := MarshalHello(me.hello).value;
      Adopt(picks.value.0, picks.value.1, picks.value.2, remote);
      transcript := if IsInitiator() then own + original else original + own;
      phase := WriteKeyExchange;
    }

    method Adopt(version: U16, suite: U16, scheme: U16, remote: Hello)
      requires Valid()
      modifies this
      ensures Here() == old(Here()).(peer := old(Here()).peer.(version := version, suite := suite, scheme := scheme,
                                                               remoteHello := remote))
    {
      hide HalfConn.Value;
      this.version, this.suite, this.scheme, remoteHello := version, suite, scheme, remote;
    }

    /** Version, suite and signature scheme, unless no known suite or scheme is shared. */
    method Pick(remote: Hello) returns (r: Option<(U16, U16, U16)>)
      ensures var vers := Intersect(me.hello.versions, remote.versions);
              var picked := Intersect(me.hello.suites, remote.suites);
              var signature := Intersect(me.hello.schemes, remote.schemes);
              r == if picked == 0 || picked !in crypto.known || signature == 0 || me.hello.versions == [] then None
                   else Some((vers, picked, signature))
    {
      hide Intersect;
      var vers := Intersection(me.hello.versions, remote.versions);
      var picked := Intersection(me.hello.suites, remote.suites);
      if picked == 0 || picked !in crypto.known {
        return None;
      }
      var signature := Intersection(me.hello.schemes, remote.schemes);
      if signature == 0 || |me.hello.versions| == 0 {
        return None;
      }
      return Some((vers, picked, signature));
    }

    method CurrentTerms() returns (t: Terms)
      requires Valid()
      ensures t == PeerTerms(me, remoteId, Here().peer)
    {
      var initiatorRandom, responderRandom;
      if IsInitiator() {
        initiatorRandom, responderRandom := me.hello.random, remoteHello.random;
      } else {
        initiatorRandom, responderRandom := remoteHello.random, me.hello.random;
      }
      t := Terms(suite, scheme, initiatorRandom, responderRandom);
    }

    method SendKeyExchange()
      requires Valid()
      modifies Repr()
      ensures Here() == WriteKeyExchangeStep(me, remoteId, old(Here()))
    {
      hide Send, MarshalKeyExchange;
      var terms := CurrentTerms();
      var key := me.keyExchange(terms);
      if key.None? {
        phase := Failed;
        return;
      }
      var data := MarshalKeyExchange(key.value);
      ownKeyExchange := data;
      if IsInitiator() {
        transcript := transcript + data;
      }
      WriteRecord(HANDSHAKE, data, AwaitKeyExchange);
    }

    method ReadKeyExchange()
      requires Valid() && handshakeChan != []
      modifies Repr()
      ensures Here() == ReadKeyExchangeStep(crypto, me, remoteId, old(Here()))
    {
      hide ParseMessage, MarshalKeyExchange;
      var terms := CurrentTerms();
      var msg := ReadHandshake();
      if msg.None? {
        phase := Failed;
        return;
      }
      var preMaster: Bytes := [];
      if msg.value.KeyExchangeMsg? {
        var key := msg.value.key;
        var secret := me.preMaster(terms, key);
        if secret.None? {
          phase := Failed;
          return;
        }
        preMaster := secret.value;
        transcript := transcript + MarshalKeyExchange(key);
        if !IsInitiator() {
          transcript := transcript + ownKeyExchange;
        } else {
          assert transcript + [] == transcript;
        }
      }
      master := crypto.masterSecret(terms.suite, preMaster, terms.initiatorRandom, terms.responderRandom);
      phase := PrepareIn;
    }

    method TrafficCiphers() returns (incoming: Aead, outgoing: Aead)
      requires Valid()
      ensures incoming == RemoteCipher(crypto, me, remoteId, Here().peer)
      ensures outgoing == OwnCipher(crypto, me, remoteId, Here().peer)
    {
      var t := CurrentTerms();
      var both := crypto.ciphers(t.suite, master, t.initiatorRandom, t.responderRandom);
      if IsInitiator() {
        incoming, outgoing := both.responder, both.initiator;
      } else {
        incoming, outgoing := both.initiator, both.responder;
      }
    }

    method EstablishIn()
      requires Valid()
      modifies Repr()
      ensures Here() == PrepareInStep(crypto, me, remoteId, old(Here()))
    {
      var incoming, _ := TrafficCiphers();
      inHalf.PrepareCipherSpec(incoming);
      phase := PrepareOut;
    }

    method EstablishOut()
      requires Valid()
      modifies Repr()
      ensures Here() == PrepareOutStep(crypto, me, remoteId, old(Here()))
    {
      var _, outgoing := TrafficCiphers();
      outHalf.PrepareCipherSpec(outgoing);
      phase := WriteCCS;
    }

    /** Waits, without having changed anything, while no cipher has been announced. */
    method SwitchOutgoing() returns (moved: bool)
      requires Valid()
      modifies Repr()
      ensures moved <==> SwitchOutStep(old(Here())).Some?
      ensures Here() == if moved then SwitchOutStep(old(Here())).value else old(Here())
    {
      var r := outHalf.ChangeCipherSpec();
      if r == MustWait {
        r := outHalf.ResumeChangeCipherSpec(false, false);
        if r == MustWait {
          return false;
        }
        phase := Failed;
        return true;
      }
      phase := WriteFinished;
      return true;
    }

    method SendFinished()
      requires Valid()
      modifies Repr()
      ensures Here() == WriteFinishedStep(crypto, me, old(Here()))
    {
      hide Send, MarshalFinished;
      var verifyData := crypto.finishedSum(suite, master, me.id, transcript);
      var data := MarshalFinished(verifyData);
      if data.None? {
        phase := Failed;
        return;
      }
      WriteRecord(HANDSHAKE, data.value, AwaitFinished);
    }

    method ReadFinished()
      requires Valid() && handshakeChan != []
      modifies Repr()
      ensures Here() == ReadFinishedStep(crypto, me, remoteId, old(Here()))
    {
      hide ParseMessage, MarshalFinished;
      var msg := ReadHandshake();
      if msg.None? || !msg.value.FinishedMsg? {
        phase := Failed;
        return;
      }
      var verify := crypto.finishedSum(suite, master, remoteId, transcript);
      if |verify| != |msg.value.verifyData| || verify != msg.value.verifyData {
        phase := Failed;
        return;
      }
      var data := MarshalFinished(msg.value.verifyData);
      if data.None? {
        phase := Failed;
        return;
      }
      transcript := transcript + data.value;
      phase := Complete;
    }

    /** One step of the handshake goroutine. */
    method AdvanceHandshake() returns (moved: bool)
      requires Valid()
      modifies Repr()
      ensures moved <==> Advance(crypto, me, remoteId, old(Here())).Some?
      ensures Here() == if moved then Advance(crypto, me, remoteId, old(Here())).value else old(Here())
    {
      hide WriteHelloStep, ReadHelloStep, WriteKeyExchangeStep, ReadKeyExchangeStep, PrepareInStep, PrepareOutStep, Send,
        SwitchOutStep, WriteFinishedStep, ReadFinishedStep;
      if (phase == AwaitHello || phase == AwaitKeyExchange || phase == AwaitFinished) && handshakeChan == [] {
        return false;
      }
      match phase {
        case WriteHello => MakeHelloAndWrite();
        case AwaitHello => ReadHello();
        case WriteKeyExchange => SendKeyExchange();
        case AwaitKeyExchange => ReadKeyExchange();
        case PrepareIn => EstablishIn();
        case PrepareOut => EstablishOut();
        case WriteCCS => WriteRecord(CHANGE_CIPHER_SPEC, CCS_TEXT, SwitchOut);
        case SwitchOut =>
          moved := SwitchOutgoing();
          return;
        case WriteFinished => SendFinished();
        case AwaitFinished => ReadFinished();
        case _ => return false;
      }
      return true;
    }

    /** One round of the read loop. */
    method ReadOne() returns (moved: bool)
      requires Valid()
      modifies Repr()
      ensures moved <==> ReadRecord(old(Here())).Some?
      ensures Here() == if moved then ReadRecord(old(Here())).value else old(Here())
    {
      hide DispatchRecord, Apply;
      if loop != Reading || inbox == [] {
        return false;
      }
      var record := inbox[0];
      inbox := inbox[1..];
      var loaded := phase != Idle;
      if !loaded {
        phase := WriteHello;
      }
      var verdict := HandleRecord(inHalf, phase == Complete, loaded, record);
      ApplyVerdict(verdict);
      return true;
    }

    method ApplyVerdict(verdict: Verdict)
      requires Valid()
      modifies Repr()
      ensures Here() == old(Here()).(peer := Apply(old(Here()).peer, verdict))
    {
      match verdict {
        case ToHandshake(data) =>
          if |handshakeChan| < 16 {
            handshakeChan := handshakeChan + [data];
          } else {
            loop := Closed;
          }
        case SwitchCipher =>
          var r := inHalf.ChangeCipherSpec();
          if r == MustWait {
            loop := Switching;
          }
        case Terminate => loop := Closed;
        case CloseLocally => loop := Closed;
        case ResetSession(_) => loop := Closed;
        case Panic => loop := Closed;
        case _ =>
      }
    }

    /** The waiting switch of the read loop goes on. */
    method ResumeSwitch() returns (moved: bool)
      requires Valid()
      modifies Repr()
      ensures moved <==> Wake(old(Here())).Some?
      ensures Here() == if moved then Wake(old(Here())).value else old(Here())
    {
      if loop != Switching {
        return false;
      }
      var r := inHalf.ResumeChangeCipherSpec(false, false);
      if r == MustWait {
        return false;
      }
      loop := if r == Done then Reading else Closed;
      return true;
    }

    /** Every step of a session is the protocol's step. */
    method Perform(action: Action) returns (moved: bool)
      requires Valid()
      modifies Repr()
      ensures moved <==> LocalStep(crypto, me, remoteId, old(Here()), action).Some?
      ensures Here() == if moved then LocalStep(crypto, me, remoteId, old(Here()), action).value else old(Here())
    {
      hide Advance, ReadRecord, Wake, HalfConn.Value;
      match action {
        case Start =>
          if phase != Idle {
            return false;
          }
          phase := WriteHello;
          return true;
        case Handshake => moved := AdvanceHandshake();
        case Record => moved := ReadOne();
        case Resume => moved := ResumeSwitch();
      }
    }
  }
}
