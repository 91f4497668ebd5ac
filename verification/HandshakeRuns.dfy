/** What holds over every run of the handshake between two honest peers, in every
    interleaving of both goroutines and both read loops: no failure, progress, a bound on
    the run, and agreement. */
module HandshakeRuns {
  import opened Common
  import opened HalfConn
  import opened HandshakeMessage
  import opened Negotiation
  import opened Dispatch
  import opened HandshakeSpec
  import opened HandshakeRefinement

  // --- Both peers refine a pair of program counters ---------------------------------------

  datatype Pcs = Pcs(a: Pc, b: Pc)

  const NOT_STARTED: Pc := Pc(Idle, Reading, 0, false)

  predicate PcsOk(s: Pcs) {
    PcOk(s.a) && PcOk(s.b) && s.a.got <= SentBy(s.b.phase) && s.b.got <= SentBy(s.a.phase)
  }

  function PcsStep(s: Pcs, e: Event): Option<Pcs> {
    match e.side
    case A => (match PcStep(s.a, SentBy(s.b.phase), e.action) case None => None case Some(a) => Some(s.(a := a)))
    case B => (match PcStep(s.b, SentBy(s.a.phase), e.action) case None => None case Some(b) => Some(s.(b := b)))
  }

  lemma SentGrows(pc: Pc, available: nat, action: Action)
    ensures PcStep(pc, available, action).Some? ==> SentBy(pc.phase) <= SentBy(PcStep(pc, available, action).value.phase)
  {
  }

  lemma PcsStepOk(s: Pcs, e: Event)
    requires PcsOk(s) && PcsStep(s, e).Some?
    ensures PcsOk(PcsStep(s, e).value)
  {
    hide PcStep, PcOk, SentBy;
    if e.side == A {
      PcStepOk(s.a, SentBy(s.b.phase), e.action);
      SentGrows(s.a, SentBy(s.b.phase), e.action);
    } else {
      PcStepOk(s.b, SentBy(s.a.phase), e.action);
      SentGrows(s.b, SentBy(s.a.phase), e.action);
    }
  }

  function NetAt(c: Crypto, a: Party, b: Party, s: Pcs): Net
    requires PcsOk(s) && a.hello.versions != [] && b.hello.versions != []
  {
    Net(PeerAt(c, a, b, s.a), PeerAt(c, b, a, s.b),
        Records(c, b, a)[s.a.got..SentBy(s.b.phase)], Records(c, a, b)[s.b.got..SentBy(s.a.phase)])
  }

  lemma SlicesJoin(records: seq<Bytes>, i: nat, j: nat, k: nat)
    requires i <= j <= k <= |records|
    ensures records[i..j] + records[j..k] == records[i..k]
  {
  }

  lemma NetWellFormed(c: Crypto, a: Party, b: Party, s: Pcs)
    requires PcsOk(s) && a.hello.versions != [] && b.hello.versions != []
    ensures WellFormed(NetAt(c, a, b, s))
  {
    hide Records, SentBy, OutHalf;
    assert LocalAt(c, a, b, s.a, 4, []).peer == PeerAt(c, a, b, s.a);
    assert LocalAt(c, b, a, s.b, 4, []).peer == PeerAt(c, b, a, s.b);
  }

  lemma NetRefines(c: Crypto, a: Party, b: Party, s: Pcs, e: Event)
    requires Honest(c, a, b) && PcsOk(s)
    ensures WellFormed(NetAt(c, a, b, s))
    ensures var next := PcsStep(s, e);
            && (next.Some? ==> PcsOk(next.value))
            && Step(c, a, b, NetAt(c, a, b, s), e)
               == if next.None? then None else Some(NetAt(c, a, b, next.value))
  {
    hide PcStep, PcOk, SentBy, Records, PeerAt, LocalStep, KeysAgree, LawfulFor;
    NetWellFormed(c, a, b, s);
    if PcsStep(s, e).Some? { PcsStepOk(s, e); }
    if e.side == A {
      StepRefines(c, a, b, s.a, SentBy(s.b.phase), Records(c, a, b)[s.b.got..SentBy(s.a.phase)], e.action);
      if PcsStep(s, e).Some? {
        SlicesJoin(Records(c, a, b), s.b.got, SentBy(s.a.phase), SentBy(PcsStep(s, e).value.a.phase));
      }
    } else {
      StepRefines(c, b, a, s.b, SentBy(s.a.phase), Records(c, b, a)[s.a.got..SentBy(s.b.phase)], e.action);
      if PcsStep(s, e).Some? {
        SlicesJoin(Records(c, b, a), s.a.got, SentBy(s.b.phase), SentBy(PcsStep(s, e).value.b.phase));
      }
    }
  }

  function PcsRun(events: seq<Event>): Option<Pcs> {
    if events == [] then Some(Pcs(NOT_STARTED, NOT_STARTED))
    else match PcsRun(Front(events))
      case None => None
      case Some(s) => PcsStep(s, Last(events))
  }

  lemma NothingYet(c: Crypto, a: Party, b: Party)
    requires a.hello.versions != [] && b.hello.versions != []
    ensures PcsOk(Pcs(NOT_STARTED, NOT_STARTED))
    ensures NetAt(c, a, b, Pcs(NOT_STARTED, NOT_STARTED)) == START
  {
    hide Records, Messages;
    CounterSteps(0);
  }

  /** Every run of the protocol is a run of the program counters, and the bytes both peers
      hold and have in flight are those of the counters reached. */
  lemma {:induction false} RunRefines(c: Crypto, a: Party, b: Party, events: seq<Event>)
    requires Honest(c, a, b)
    ensures PcsRun(events).Some? ==> PcsOk(PcsRun(events).value)
    ensures Run(c, a, b, events)
            == if PcsRun(events).None? then None else Some(NetAt(c, a, b, PcsRun(events).value))
  {
    hide Honest, Step, PcsStep, PcsOk, NetAt;
    if events == [] {
      NothingYet(c, a, b);
    } else {
      RunRefines(c, a, b, Front(events));
      if PcsRun(Front(events)).Some? {
        NetRefines(c, a, b, PcsRun(Front(events)).value, Last(events));
      }
    }
  }

  // --- Safety ----------------------------------------------------------------------------

  /** Nothing either goroutine or read loop does can fail, and neither channel, of sixteen
      slots, ever holds more than three messages. */
  ghost predicate Sound(n: Net) {
    && n.a.phase != Failed && n.b.phase != Failed
    && n.a.loop != Closed && n.b.loop != Closed
    && |n.a.channel| <= 3 && |n.b.channel| <= 3
  }

  lemma RunsAreSound(c: Crypto, a: Party, b: Party, events: seq<Event>)
    requires Honest(c, a, b)
    ensures Run(c, a, b, events).Some? ==> Sound(Run(c, a, b, events).value)
  {
    hide Honest, PeerAt, Records;
    RunRefines(c, a, b, events);
    if PcsRun(events).Some? {
      var s := PcsRun(events).value;
      AtPc(c, a, b, s.a);
      AtPc(c, b, a, s.b);
      ChannelAt(c, a, b, s.a);
      ChannelAt(c, b, a, s.b);
    }
  }

  // --- Progress --------------------------------------------------------------------------

  predicate Finished(n: Net) {
    && n.a.phase == Complete && n.b.phase == Complete
    && n.a.loop == Reading && n.b.loop == Reading
    && n.toA == [] && n.toB == []
  }

  predicate Done(pc: Pc) {
    pc.phase == Complete && pc.loop == Reading && pc.got == 4
  }

  /** Some step is possible, the application's own start apart. */
  ghost predicate CanMove(c: Crypto, a: Party, b: Party, n: Net)
    requires WellFormed(n)
  {
    exists e: Event :: e.action != Start && Step(c, a, b, n, e).Some?
  }

  function Mover(s: Pcs): Event
    requires PcsOk(s)
  {
    if PcStep(s.a, SentBy(s.b.phase), Handshake).Some? then Event(A, Handshake)
    else if PcStep(s.b, SentBy(s.a.phase), Handshake).Some? then Event(B, Handshake)
    else if PcStep(s.a, SentBy(s.b.phase), Record).Some? then Event(A, Record)
    else if PcStep(s.b, SentBy(s.a.phase), Record).Some? then Event(B, Record)
    else if PcStep(s.a, SentBy(s.b.phase), Resume).Some? then Event(A, Resume)
    else Event(B, Resume)
  }

  /** The counters are stuck only where both peers are done, or before either has begun. */
  lemma MoverMoves(s: Pcs)
    requires PcsOk(s) && (s.a.phase != Idle || s.b.phase != Idle)
    ensures PcsStep(s, Mover(s)).Some? || (Done(s.a) && Done(s.b))
    ensures Mover(s).action != Start
  {
  }

  lemma {:induction false} RunStarted(events: seq<Event>)
    requires PcsRun(events).Some? && events != []
    ensures var s := PcsRun(events).value;
            PcsOk(s) && (s.a.phase != Idle || s.b.phase != Idle)
  {
    var before := PcsRun(Front(events)).value;
    if Front(events) == [] {
      assert before == Pcs(NOT_STARTED, NOT_STARTED);
    } else {
      RunStarted(Front(events));
    }
    PcsStepOk(before, Last(events));
    StaysStarted(before, Last(events));
  }

  lemma StaysStarted(s: Pcs, e: Event)
    requires PcsStep(s, e).Some? && PcsOk(s)
    ensures PcsStep(s, e).value.a.phase != Idle || PcsStep(s, e).value.b.phase != Idle
  {
  }

  lemma FinishedAt(c: Crypto, a: Party, b: Party, s: Pcs)
    requires PcsOk(s) && a.hello.versions != [] && b.hello.versions != []
    ensures Finished(NetAt(c, a, b, s)) <==> Done(s.a) && Done(s.b)
    ensures Finished(NetAt(c, a, b, s)) <==> s.a.phase == Complete && s.b.phase == Complete
  {
    hide PeerAt, Records;
    AtPc(c, a, b, s.a);
    AtPc(c, b, a, s.b);
  }

  lemma DoneCannotMove(s: Pcs, e: Event)
    requires Done(s.a) && Done(s.b)
    ensures PcsStep(s, e).None?
  {
  }

  /** Progress: once either peer has started, some step is possible in every reachable
      state until both have completed, and then none is. */
  lemma Progress(c: Crypto, a: Party, b: Party, events: seq<Event>)
    requires Honest(c, a, b) && Run(c, a, b, events).Some? && events != []
    ensures CanMove(c, a, b, Run(c, a, b, events).value) <==> !Finished(Run(c, a, b, events).value)
  {
    hide Honest, NetAt, Step, PcsStep, PcsOk, Finished, Done;
    RunRefines(c, a, b, events);
    RunStarted(events);
    var s := PcsRun(events).value;
    var n := Run(c, a, b, events).value;
    FinishedAt(c, a, b, s);
    MoverMoves(s);
    NetRefines(c, a, b, s, Mover(s));
    if Finished(n) {
      forall e: Event ensures Step(c, a, b, n, e).None? {
        NetRefines(c, a, b, s, e);
        DoneCannotMove(s, e);
      }
    }
  }

  /** What one peer still has to do: phases to go through, records to read, and one wake-up
      that may be needed for the change of cipher. */
  function LeftOf(pc: Pc): int {
    11 - Rank(pc.phase) + (4 - pc.got) + if pc.got < 3 || pc.loop == Switching then 1 else 0
  }

  lemma StepUses(s: Pcs, e: Event)
    requires PcsOk(s) && PcsStep(s, e).Some?
    ensures var t := PcsStep(s, e).value;
            LeftOf(t.a) + LeftOf(t.b) < LeftOf(s.a) + LeftOf(s.b)
  {
    hide PcStep, PcOk, LeftOf;
    PcStepUses(s.a, SentBy(s.b.phase), e.action);
    PcStepUses(s.b, SentBy(s.a.phase), e.action);
  }

  lemma PcStepUses(pc: Pc, available: nat, action: Action)
    requires PcOk(pc)
    ensures PcStep(pc, available, action).Some? ==> LeftOf(PcStep(pc, available, action).value) < LeftOf(pc)
  {
  }

  const LONGEST_RUN: nat := 32

  lemma {:induction false} Budget(events: seq<Event>)
    requires PcsRun(events).Some?
    ensures var s := PcsRun(events).value;
            PcsOk(s) && LeftOf(s.a) >= 0 && LeftOf(s.b) >= 0 && |events| + LeftOf(s.a) + LeftOf(s.b) <= LONGEST_RUN
  {
    if events != [] {
      hide PcsStep, PcsOk, LeftOf;
      var before := PcsRun(Front(events)).value;
      Budget(Front(events));
      StepUses(before, Last(events));
      PcsStepOk(before, Last(events));
      LeftNatural(PcsRun(events).value);
    }
  }

  lemma LeftNatural(s: Pcs)
    requires PcsOk(s)
    ensures LeftOf(s.a) >= 0 && LeftOf(s.b) >= 0
  {
  }

  /** No run is longer than thirty-two steps. */
  lemma RunsAreBounded(c: Crypto, a: Party, b: Party, events: seq<Event>)
    requires Honest(c, a, b) && Run(c, a, b, events).Some?
    ensures |events| <= LONGEST_RUN
  {
    hide Honest;
    RunRefines(c, a, b, events);
    Budget(events);
  }

  lemma OneMore(c: Crypto, a: Party, b: Party, events: seq<Event>, e: Event)
    requires Run(c, a, b, events).Some?
    ensures Run(c, a, b, events + [e]) == Step(c, a, b, Run(c, a, b, events).value, e)
  {
    hide Step;
    assert Front(events + [e]) == events && Last(events + [e]) == e;
  }

  /** Whatever has happened since one peer started, the handshake can still be completed;
      with the bound and with progress, every run that goes on as long as it can does so. */
  lemma {:induction false} EveryRunCompletes(c: Crypto, a: Party, b: Party, events: seq<Event>) returns (more: seq<Event>)
    requires Honest(c, a, b) && Run(c, a, b, events).Some? && events != []
    ensures Run(c, a, b, events + more).Some? && Finished(Run(c, a, b, events + more).value)
    decreases LONGEST_RUN - |events|
  {
    hide Honest, Step, Finished, Run;
    var n := Run(c, a, b, events).value;
    if Finished(n) {
      more := [];
      assert events + [] == events;
    } else {
      Progress(c, a, b, events);
      var e: Event :| e.action != Start && Step(c, a, b, n, e).Some?;
      OneMore(c, a, b, events, e);
      RunsAreBounded(c, a, b, events + [e]);
      var rest := EveryRunCompletes(c, a, b, events + [e]);
      more := [e] + rest;
      assert events + more == events + [e] + rest;
    }
  }

  // --- Agreement -------------------------------------------------------------------------

  /** `p` has accepted the other's Finished. Both have chosen the same parameters from each
      other's hello, hold the same master secret, and made their sums over one transcript
      `t`, which each then extends by the other's Finished only; and either's outgoing
      cipher is the other's incoming one. */
  ghost predicate Agreement(c: Crypto, p: Peer, q: Peer, own: Party, other: Party) {
    && p.version == q.version && p.suite == q.suite && p.scheme == q.scheme
    && p.remoteHello.random == other.hello.random && q.remoteHello.random == own.hello.random
    && p.master == q.master
    && q.outHalf.cipher.Some? && q.outHalf.cipher == p.inHalf.cipher
    && p.outHalf.cipher.Some? && (q.inHalf.cipher.Some? ==> q.inHalf.cipher == p.outHalf.cipher)
    && exists t ::
      && p.transcript == t + FinishedOver(c, p, other.id, t)
      && q.transcript == t + if q.phase == Complete then FinishedOver(c, q, own.id, t) else []
  }

  /** The Finished message for a transcript and an identity. */
  function FinishedOver(c: Crypto, p: Peer, name: string, t: Bytes): Bytes {
    Or(MarshalFinished(c.finishedSum(p.suite, p.master, name, t)), [])
  }

  lemma HeldLate(c: Crypto, p: Party, r: Party, pc: Pc)
    requires PcOk(pc) && r.hello.versions != [] && Rank(pc.phase) >= 10
    ensures var at := PeerAt(c, p, r, pc);
            var t := TermsOf(p, r);
            && at.suite == t.suite && at.scheme == t.scheme && at.remoteHello.random == r.hello.random
            && at.version == Intersect(p.hello.versions, Decoded(r.hello).versions)
            && at.master == Master(c, p, r)
            && at.transcript == FullTranscript(p, r) + if pc.phase == Complete then FinishedBytes(c, r, p) else []
  {
    hide Messages, TermsOf, HelloBytes, Exchange, Master, InHalf, OutHalf, FullTranscript, FinishedBytes;
    assert FullTranscript(p, r) + [] == FullTranscript(p, r);
  }

  lemma HalvesLate(c: Crypto, p: Party, r: Party, pc: Pc)
    requires PcOk(pc) && r.hello.versions != [] && Rank(pc.phase) >= 10
    ensures var at := PeerAt(c, p, r, pc);
            && at.outHalf == Half(Some(CipherOut(c, p, r)), None, true, Counter(1))
            && (at.inHalf.cipher.Some? ==> at.inHalf.cipher == Some(CipherIn(c, p, r)))
            && (pc.got == 4 ==> at.inHalf.cipher.Some? && at.inHalf.counter == Counter(1))
  {
    hide Messages, TermsOf, HelloBytes, Exchange, Master, CipherIn, CipherOut, TranscriptAt, Counter, Decoded;
  }

  lemma AgreementAt(c: Crypto, p: Party, r: Party, pp: Pc, pr: Pc)
    requires Honest(c, p, r) && PcOk(pp) && PcOk(pr) && pp.phase == Complete && Rank(pr.phase) >= 10
    ensures Agreement(c, PeerAt(c, p, r, pp), PeerAt(c, r, p, pr), p, r)
  {
    hide PeerAt, TermsOf, Master, FullTranscript, CipherIn, CipherOut, KeysAgree, LawfulFor, MarshalFinished, Intersect,
      MarshalHello, DrawnFrom, Messages, Initiates;
    HeldLate(c, p, r, pp);
    HeldLate(c, r, p, pr);
    HalvesLate(c, p, r, pp);
    HalvesLate(c, r, p, pr);
    SameTerms(c, p, r);
    SameSecrets(c, p, r);
    SameSecrets(c, r, p);
    AtPc(c, r, p, pr);
    var at, rt := PeerAt(c, p, r, pp), PeerAt(c, r, p, pr);
    var t := FullTranscript(p, r);
    assert FinishedBytes(c, r, p) == FinishedOver(c, at, r.id, t);
    assert FinishedBytes(c, p, r) == FinishedOver(c, rt, p.id, t);
  }

  lemma NetParts(c: Crypto, a: Party, b: Party, s: Pcs)
    requires PcsOk(s) && a.hello.versions != [] && b.hello.versions != []
    ensures PcOk(s.a) && PcOk(s.b) && s.a.got <= SentBy(s.b.phase) <= 4
    ensures var n := NetAt(c, a, b, s);
            && n.a == PeerAt(c, a, b, s.a) && n.b == PeerAt(c, b, a, s.b)
            && n.a.phase == s.a.phase && n.a.loop == s.a.loop && n.b.phase == s.b.phase && n.b.loop == s.b.loop
            && n.toA == Records(c, b, a)[s.a.got..SentBy(s.b.phase)]
  {
    hide PeerAt, Records;
    AtPc(c, a, b, s.a);
    AtPc(c, b, a, s.b);
  }

  lemma LateTogether(s: Pcs)
    requires PcsOk(s)
    ensures s.a.phase == Complete ==> s.a.got == 4 && Rank(s.b.phase) >= 10
    ensures s.b.phase == Complete ==> s.b.got == 4 && Rank(s.a.phase) >= 10
    ensures s.b.phase in {AwaitFinished, Complete} <==> SentBy(s.b.phase) == 4
    ensures s.b.phase in {AwaitFinished, Complete} ==> Rank(s.b.phase) >= 10
  {
  }

  /** Agreement, from either peer's completion on, in every run. */
  lemma PeersAgree(c: Crypto, a: Party, b: Party, events: seq<Event>)
    requires Honest(c, a, b) && Run(c, a, b, events).Some?
    ensures var n := Run(c, a, b, events).value;
            && (n.a.phase == Complete ==> Agreement(c, n.a, n.b, a, b))
            && (n.b.phase == Complete ==> Agreement(c, n.b, n.a, b, a))
  {
    hide Honest, PeerAt, Records, Agreement, Run, PcsRun, PcsOk, PcOk, SentBy, NetAt, Rank;
    RunRefines(c, a, b, events);
    var s := PcsRun(events).value;
    NetParts(c, a, b, s);
    LateTogether(s);
    HonestBoth(c, a, b);
    if s.a.phase == Complete { AgreementAt(c, a, b, s.a, s.b); }
    if s.b.phase == Complete { AgreementAt(c, b, a, s.b, s.a); }
  }

  /** What a completed peer holds is what its own hello, the other's and the key agreement
      determine; in particular its version is zero exactly when none is shared. */
  lemma CompletedHolds(c: Crypto, a: Party, b: Party, events: seq<Event>)
    requires Honest(c, a, b) && Run(c, a, b, events).Some?
    ensures var n := Run(c, a, b, events).value;
            && (n.a.phase == Complete ==> EndsWith(c, a, b, n.a))
            && (n.b.phase == Complete ==> EndsWith(c, b, a, n.b))
            && (0 !in b.hello.versions && n.a.phase == Complete ==>
                  (n.a.version == 0 <==> !Share(a.hello.versions, b.hello.versions)))
            && (0 !in a.hello.versions && n.b.phase == Complete ==>
                  (n.b.version == 0 <==> !Share(b.hello.versions, a.hello.versions)))
  {
    hide Honest, PeerAt, Records, Run, PcsRun, PcsOk, PcOk, SentBy, NetAt, Rank, Intersect, Share, EndsWith;
    RunRefines(c, a, b, events);
    var s := PcsRun(events).value;
    NetParts(c, a, b, s);
    LateTogether(s);
    if s.a.phase == Complete { CompletedAt(c, a, b, s.a); }
    if s.b.phase == Complete { CompletedAt(c, b, a, s.b); }
  }

  /** What a peer has at the end of its handshake. */
  ghost predicate EndsWith(c: Crypto, p: Party, r: Party, at: Peer) {
    var t := TermsOf(p, r);
    && at.suite == t.suite && at.master == Master(c, p, r)
    && at.transcript == FullTranscript(p, r) + FinishedBytes(c, r, p)
    && at.outHalf.cipher == Some(CipherOut(c, p, r)) && at.inHalf.cipher == Some(CipherIn(c, p, r))
  }

  lemma CompletedAt(c: Crypto, p: Party, r: Party, pc: Pc)
    requires PcOk(pc) && r.hello.versions != [] && pc.phase == Complete && pc.got == 4
    ensures EndsWith(c, p, r, PeerAt(c, p, r, pc))
    ensures 0 !in r.hello.versions ==>
              (PeerAt(c, p, r, pc).version == 0 <==> !Share(p.hello.versions, r.hello.versions))
  {
    hide PeerAt, Master, Intersect, TermsOf, FullTranscript, Share, FinishedBytes, CipherIn, CipherOut;
    HeldLate(c, p, r, pc);
    HalvesLate(c, p, r, pc);
    FirstRepeated(p.hello.versions, r.hello.versions);
    if 0 !in r.hello.versions { ZeroPick(p.hello.versions, r.hello.versions); }
  }

  /** A protected record is only ever opened by a loop that has its cipher: while a loop is
      reading and the last record of a peer that has sent its Finished is still unread, the
      two halves match. */
  lemma FinishedMeetsItsCipher(c: Crypto, a: Party, b: Party, events: seq<Event>)
    requires Honest(c, a, b) && Run(c, a, b, events).Some?
    ensures var n := Run(c, a, b, events).value;
            n.b.phase in {AwaitFinished, Complete} && |n.toA| == 1 && n.a.loop == Reading ==>
              && n.a.inHalf.cipher.Some? && n.a.inHalf.cipher == n.b.outHalf.cipher
              && n.a.inHalf.counter == Zeros(COUNTER_LEN) && n.toA == [FinishedRecord(c, b, a)]
  {
    hide Honest, PeerAt, Records, Run, PcsRun, PcsOk, PcOk, SentBy, NetAt, Rank, FinishedRecord, CipherIn, CipherOut,
      Able, FinishedSum, Master, FullTranscript;
    RunRefines(c, a, b, events);
    var s := PcsRun(events).value;
    NetParts(c, a, b, s);
    LateTogether(s);
    if s.b.phase in {AwaitFinished, Complete} && s.a.got == 3 && s.a.loop == Reading {
      SwitchedIn(c, a, b, s.a);
      HalvesLate(c, b, a, s.b);
      HonestBoth(c, a, b);
      SameSecrets(c, b, a);
      LastRecord(c, b, a);
    }
  }

  lemma SwitchedIn(c: Crypto, p: Party, r: Party, pc: Pc)
    requires PcOk(pc) && r.hello.versions != [] && pc.got == 3 && pc.loop == Reading
    ensures var half := PeerAt(c, p, r, pc).inHalf;
            half.cipher == Some(CipherIn(c, p, r)) && half.counter == Zeros(COUNTER_LEN)
  {
    hide Messages, TermsOf, HelloBytes, Exchange, Master, CipherIn, CipherOut, TranscriptAt, Decoded;
    CounterSteps(0);
  }

  lemma LastRecord(c: Crypto, p: Party, r: Party)
    ensures Records(c, p, r)[3..4] == [FinishedRecord(c, p, r)]
  {
    hide FinishedRecord;
  }

  /** After the handshake whatever either peer sends comes out at the other as it went in. */
  lemma ProtectedStreams(c: Crypto, a: Party, b: Party, events: seq<Event>, payloads: seq<Bytes>)
    requires Honest(c, a, b) && Run(c, a, b, events).Some? && Finished(Run(c, a, b, events).value)
    requires 1 + |payloads| < Pow256(COUNTER_LEN)
    ensures var n := Run(c, a, b, events).value;
            && Delivers(n.a.outHalf, n.b.inHalf, payloads, _ => a.rand)
            && Delivers(n.b.outHalf, n.a.inHalf, payloads, _ => b.rand)
  {
    hide Honest, PeerAt, Records, Delivers, Run, PcsRun, PcsOk, PcOk, SentBy, NetAt, Pow256;
    RunRefines(c, a, b, events);
    var s := PcsRun(events).value;
    NetParts(c, a, b, s);
    HonestBoth(c, a, b);
    StreamFrom(c, a, b, s.a, s.b, payloads);
    StreamFrom(c, b, a, s.b, s.a, payloads);
  }

  /** Sealing and then opening the whole list gives the list. */
  ghost predicate Delivers(out: Half, peerIn: Half, payloads: seq<Bytes>, rand: nat -> Bytes) {
    && |out.counter| == COUNTER_LEN
    && AllOk(SealAll(out, payloads, rand).results)
    && var got := OpenAll(peerIn, Data(SealAll(out, payloads, rand).results));
    AllOk(got.results) && Data(got.results) == payloads
  }

  lemma StreamFrom(c: Crypto, p: Party, r: Party, pp: Pc, pr: Pc, payloads: seq<Bytes>)
    requires Honest(c, p, r) && PcOk(pp) && PcOk(pr) && pp.phase == Complete && pr.phase == Complete
    requires 1 + |payloads| < Pow256(COUNTER_LEN)
    ensures Delivers(PeerAt(c, p, r, pp).outHalf, PeerAt(c, r, p, pr).inHalf, payloads, _ => p.rand)
  {
    hide Honest, PeerAt, CipherIn, CipherOut, Delivers, Pow256, BigEndian, LawfulFor, Counter, Able, FinishedSum,
      FullTranscript, TermsOf, Master;
    HonestBoth(c, p, r);
    SameSecrets(c, p, r);
    HalvesLate(c, p, r, pp);
    HalvesLate(c, r, p, pr);
    assert pr.got == 4;
    CipherLawful(c, p, r);
    CounterOne();
    PairedDelivers(PeerAt(c, p, r, pp).outHalf, PeerAt(c, r, p, pr).inHalf, payloads, p.rand);
  }

  lemma CipherLawful(c: Crypto, p: Party, r: Party)
    requires Able(c, p, r)
    ensures LawfulFor(CipherOut(c, p, r), p.rand)
  {
    hide LawfulFor, Orderly, KeysAgree, Master, TermsOf;
  }

  lemma PairedDelivers(out: Half, peerIn: Half, payloads: seq<Bytes>, rand: Bytes)
    requires Paired(out, peerIn) && out.cipher.Some? && LawfulFor(out.cipher.value, rand)
    requires BigEndian(out.counter) + |payloads| < Pow256(COUNTER_LEN)
    ensures Delivers(out, peerIn, payloads, _ => rand)
  {
    hide SealAll, OpenAll, Pow256, BigEndian, Lawful;
    Lockstep(out, peerIn, payloads, _ => rand);
  }

  /** Sealing and dispatching one more record after a list of others gives its meaning to a
      completed session. */
  ghost predicate Reaches(out: Half, peerIn: Half, payloads: seq<Bytes>, rand: nat -> Bytes, data: Bytes) {
    && |out.counter| == COUNTER_LEN && AllOk(SealAll(out, payloads, rand).results)
    && (var sent := SealAll(out, payloads, rand);
        var half := OpenAll(peerIn, Data(sent.results)).half;
        forall typ: Byte, loaded :: Means(sent.half, half, rand(|payloads|), loaded, typ, data))
  }

  ghost predicate Means(out: Half, peerIn: Half, rand: Bytes, loaded: bool, typ: Byte, data: Bytes)
    requires |out.counter| == COUNTER_LEN
  {
    var record := SealRecord(out, [typ] + data, rand).result;
    record.Ok? && MeansWhenComplete(peerIn, loaded, record.data, typ, data)
  }

  /** After the handshake, whatever has been sent before, protected application data is
      delivered, control is handled, the alert text closes, and anything else is refused, both
      ways. */
  lemma ProtectedRecordsReach(c: Crypto, a: Party, b: Party, events: seq<Event>, payloads: seq<Bytes>, data: Bytes)
    requires Honest(c, a, b) && Run(c, a, b, events).Some? && Finished(Run(c, a, b, events).value)
    requires 2 + |payloads| < Pow256(COUNTER_LEN)
    ensures var n := Run(c, a, b, events).value;
            && Reaches(n.a.outHalf, n.b.inHalf, payloads, _ => a.rand, data)
            && Reaches(n.b.outHalf, n.a.inHalf, payloads, _ => b.rand, data)
  {
    hide Honest, PeerAt, Records, Reaches, Run, PcsRun, PcsOk, PcOk, SentBy, NetAt, Pow256;
    RunRefines(c, a, b, events);
    var s := PcsRun(events).value;
    NetParts(c, a, b, s);
    HonestBoth(c, a, b);
    ReachFrom(c, a, b, s.a, s.b, payloads, data);
    ReachFrom(c, b, a, s.b, s.a, payloads, data);
  }

  lemma ReachFrom(c: Crypto, p: Party, r: Party, pp: Pc, pr: Pc, payloads: seq<Bytes>, data: Bytes)
    requires Honest(c, p, r) && PcOk(pp) && PcOk(pr) && pp.phase == Complete && pr.phase == Complete
    requires 2 + |payloads| < Pow256(COUNTER_LEN)
    ensures Reaches(PeerAt(c, p, r, pp).outHalf, PeerAt(c, r, p, pr).inHalf, payloads, _ => p.rand, data)
  {
    hide Honest, PeerAt, CipherIn, CipherOut, Reaches, Pow256, BigEndian, LawfulFor, Counter, Able, FinishedSum,
      FullTranscript, TermsOf, Master;
    HonestBoth(c, p, r);
    SameSecrets(c, p, r);
    HalvesLate(c, p, r, pp);
    HalvesLate(c, r, p, pr);
    assert pr.got == 4;
    CipherLawful(c, p, r);
    CounterOne();
    PairedReaches(PeerAt(c, p, r, pp).outHalf, PeerAt(c, r, p, pr).inHalf, payloads, p.rand, _ => p.rand, data);
  }

  lemma PairedReaches(out: Half, peerIn: Half, payloads: seq<Bytes>, rand: Bytes, rands: nat -> Bytes, data: Bytes)
    requires Paired(out, peerIn) && out.cipher.Some? && LawfulFor(out.cipher.value, rand)
    requires forall i :: rands(i) == rand
    requires BigEndian(out.counter) + |payloads| + 1 < Pow256(COUNTER_LEN)
    ensures Reaches(out, peerIn, payloads, rands, data)
  {
    hide SealAll, OpenAll, Pow256, BigEndian, Lawful, SealRecord, OpenRecord, MeansWhenComplete;
    Lockstep(out, peerIn, payloads, rands);
    var sent := SealAll(out, payloads, rands);
    var half := OpenAll(peerIn, Data(sent.results)).half;
    forall typ: Byte, loaded ensures Means(sent.half, half, rands(|payloads|), loaded, typ, data) {
      OneRecord(sent.half, half, [typ] + data, rand);
      CompleteMeans(half, loaded, SealRecord(sent.half, [typ] + data, rand).result.data, typ, data);
    }
  }

  lemma CompleteMeans(half: Half, loaded: bool, record: Bytes, typ: Byte, data: Bytes)
    requires OpenRecord(half, record).result == Ok([typ] + data) && half.cipher.Some?
    ensures MeansWhenComplete(half, loaded, record, typ, data)
  {
    hide OpenRecord, DispatchRecord;
    OpenedRecordMeans(half, true, loaded, record, typ, data);
  }

  predicate MeansWhenComplete(half: Half, loaded: bool, record: Bytes, typ: Byte, data: Bytes) {
    var v := DispatchRecord(half, true, loaded, record).verdict;
    && (typ == 21 ==> v == if data == [65, 108, 101, 114, 116] then CloseLocally else Terminate)
    && (typ == 23 ==> v == Deliver(data, false))
    && (typ == 24 ==> v == if data == [67, 67, 83] then SwitchCipher else Terminate)
    && (typ == 25 ==> v == Control(data, false))
    && (typ !in {21, 22, 23, 24, 25} ==> v == Terminate)
  }

  lemma CounterOne()
    ensures BigEndian(Counter(1)) == 1
  {
    ZerosValue(7);
    assert Counter(1)[..7] == Zeros(7);
  }
}
