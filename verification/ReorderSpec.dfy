/** The reorder buffer of one session (e2ewebsocket/recovery.go) as a transition system.
    A step is one handler run to its end together with the messages it emits. */
module ReorderSpec {
  import opened Common
  import opened MessageRef

  datatype MsgData = MsgData(ref: Ref, content: Bytes)

  datatype Shell = Shell(ref: Ref, peerID: string, msgType: int, msgData: MsgData)

  datatype Item = Item(sessionId: string, remoteId: string, msgType: int, msg: Bytes)

  datatype PendingMsg = PendingMsg(ref: Ref, item: Item)

  datatype Payload = Payload(ref: Ref, content: Bytes)

  datatype Emission = Emission(ref: Ref, item: Item)

  /** `lost` holds the shells of messages whose content is missing, `pending` the
      messages held back behind a lower missing one. */
  datatype State = State(lost: map<string, Shell>, pending: map<string, PendingMsg>)

  const EMPTY: State := State(map[], map[])

  datatype Outcome = Outcome(state: State, out: seq<Emission>)

  /** What every session shares: its id and the parser that rebuilds a message's bytes. */
  datatype Env = Env(sessionId: string, rebuild: MsgData -> Option<Bytes>)

  predicate BlocksSeq(shell: Shell, ref: Ref) {
    0 < shell.ref.seqNo < ref.seqNo
  }

  /** Some message with a lower positive number is still missing. */
  predicate Blocked(lost: map<string, Shell>, ref: Ref) {
    ref.seqNo != 0 && exists k :: k in lost && BlocksSeq(lost[k], ref)
  }

  /** The order the release sort works with: by number, but by key when either number is
      zero. */
  predicate Before(a: Ref, b: Ref) {
    if a.seqNo == 0 || b.seqNo == 0 then LexLess(Key(a), Key(b)) else a.seqNo < b.seqNo
  }

  function ReadyKeys(s: State): set<string> {
    set k | k in s.pending && !Blocked(s.lost, s.pending[k].ref)
  }

  predicate SortedKeys(pending: map<string, PendingMsg>, ks: seq<string>)
    requires forall i :: 0 <= i < |ks| ==> ks[i] in pending
  {
    forall i, j :: 0 <= i < j < |ks| ==> !Before(pending[ks[j]].ref, pending[ks[i]].ref)
  }

  /** `ks` lists the releasable messages once each, no later one before an earlier one. */
  predicate ReleaseOrder(s: State, ks: seq<string>) {
    && NoDuplicates(ks)
    && (forall i :: 0 <= i < |ks| ==> ks[i] in s.pending)
    && Elements(ks) == ReadyKeys(s)
    && SortedKeys(s.pending, ks)
  }

  function Emissions(pending: map<string, PendingMsg>, ks: seq<string>): (es: seq<Emission>)
    requires forall i :: 0 <= i < |ks| ==> ks[i] in pending
    ensures |es| == |ks|
    ensures forall i :: 0 <= i < |ks| ==> es[i] == Emission(pending[ks[i]].ref, pending[ks[i]].item)
  {
    seq(|ks|, i requires 0 <= i < |ks| => Emission(pending[ks[i]].ref, pending[ks[i]].item))
  }

  function Flush(s: State, order: seq<string>): Outcome
    requires ReleaseOrder(s, order)
  {
    Outcome(s.(pending := s.pending - ReadyKeys(s)), Emissions(s.pending, order))
  }

  /** The four-way lookup of a retransmitted reference among the waiting shells. */
  function FindShell(lost: map<string, Shell>, ref: Ref): (k: Option<string>)
    ensures k.Some? ==> k.value in lost
  {
    if Key(ref) in lost then Some(Key(ref))
    else if ref.clientMsgID != "" && ClientKey(ref.clientMsgID) in lost then Some(ClientKey(ref.clientMsgID))
    else if ref.serverMsgID != "" && ServerKey(ref.serverMsgID) in lost then Some(ServerKey(ref.serverMsgID))
    else if ref.seqNo != 0 && SeqKey(ref.seqNo) in lost then Some(SeqKey(ref.seqNo))
    else None
  }

  /** One message of a retransmit frame: fill its shell and release it, or hold it back
      behind a lower gap. A message whose bytes cannot be rebuilt keeps its shell. */
  function RetransmitOne(env: Env, peer: string, s: State, msg: Payload): Outcome {
    match FindShell(s.lost, msg.ref)
    case None => Outcome(s, [])
    case Some(k) =>
      var shell := s.lost[k];
      var filled := shell.msgData.(content := msg.content);
      match env.rebuild(filled)
      case None => Outcome(s.(lost := s.lost[k := shell.(msgData := filled)]), [])
      case Some(bytes) =>
        var lost := s.lost - {Key(shell.ref)};
        var item := Item(env.sessionId, peer, shell.msgType, bytes);
        if Blocked(lost, shell.ref) then
          Outcome(State(lost, s.pending[Key(shell.ref) := PendingMsg(shell.ref, item)]), [])
        else
          Outcome(s.(lost := lost), [Emission(shell.ref, item)])
  }

  function RetransmitAll(env: Env, peer: string, s: State, msgs: seq<Payload>): Outcome
    decreases |msgs|
  {
    if msgs == [] then Outcome(s, [])
    else
      var first := RetransmitOne(env, peer, s, msgs[0]);
      var rest := RetransmitAll(env, peer, first.state, msgs[1..]);
      Outcome(rest.state, first.out + rest.out)
  }

  /** `order` records the choices a step leaves open: the iteration order of the pending
      map, which a stable sort can expose. */
  datatype Event =
    | Deliver(ref: Ref, item: Item, order: seq<string>)
    | MarkLost(peerID: string, msgType: int, msgData: MsgData)
    | Retransmit(peer: string, msgs: seq<Payload>, order: seq<string>)
    | Expire(key: string, order: seq<string>)

  predicate Enabled(env: Env, s: State, ev: Event) {
    match ev
    case Deliver(ref, _, order) => !Blocked(s.lost, ref) ==> ReleaseOrder(s, order)
    case MarkLost(_, _, _) => true
    case Retransmit(peer, msgs, order) => ReleaseOrder(RetransmitAll(env, peer, s, msgs).state, order)
    case Expire(key, order) => key in s.lost ==> ReleaseOrder(s.(lost := s.lost - {key}), order)
  }

  function Step(env: Env, s: State, ev: Event): Outcome
    requires Enabled(env, s, ev)
  {
    match ev
    case Deliver(ref, item, order) =>
      if Blocked(s.lost, ref) then
        Outcome(s.(pending := s.pending[Key(ref) := PendingMsg(ref, item)]), [])
      else
        var flushed := Flush(s, order);
        Outcome(flushed.state, [Emission(ref, item)] + flushed.out)
    case MarkLost(peerID, msgType, msgData) =>
      var key := Key(msgData.ref);
      if !HasIdentity(msgData.ref) || key in s.lost then Outcome(s, [])
      else Outcome(s.(lost := s.lost[key := Shell(msgData.ref, peerID, msgType, msgData)]), [])
    case Retransmit(peer, msgs, order) =>
      var r := RetransmitAll(env, peer, s, msgs);
      var flushed := Flush(r.state, order);
      Outcome(flushed.state, r.out + flushed.out)
    case Expire(key, order) =>
      if key !in s.lost then Outcome(s, [])
      else Flush(s.(lost := s.lost - {key}), order)
  }

  // --- What every reachable state keeps, whatever arrives -------------------------------

  predicate KeyedLost(lost: map<string, Shell>) {
    forall k :: k in lost ==> k != "" && k == Key(lost[k].ref) && lost[k].msgData.ref == lost[k].ref
  }

  predicate KeyedPending(pending: map<string, PendingMsg>) {
    forall k :: k in pending ==> k == Key(pending[k].ref) && pending[k].ref.seqNo > 0
  }

  predicate Keyed(s: State) {
    KeyedLost(s.lost) && KeyedPending(s.pending)
  }

  /** Every held-back message is waiting for a lower missing one. */
  predicate Quiescent(s: State) {
    forall k :: k in s.pending ==> Blocked(s.lost, s.pending[k].ref)
  }

  predicate Inv(s: State) {
    Keyed(s) && Quiescent(s)
  }

  lemma RetransmitOneKeyed(env: Env, peer: string, s: State, msg: Payload)
    requires Keyed(s)
    ensures Keyed(RetransmitOne(env, peer, s, msg).state)
  {
    hide Key;
  }

  lemma {:induction false} RetransmitAllKeyed(env: Env, peer: string, s: State, msgs: seq<Payload>)
    requires Keyed(s)
    ensures Keyed(RetransmitAll(env, peer, s, msgs).state)
    decreases |msgs|
  {
    hide Key;
    if msgs != [] {
      RetransmitOneKeyed(env, peer, s, msgs[0]);
      RetransmitAllKeyed(env, peer, RetransmitOne(env, peer, s, msgs[0]).state, msgs[1..]);
    }
  }

  lemma FlushRestores(s: State, order: seq<string>)
    requires Keyed(s) && ReleaseOrder(s, order)
    ensures Inv(Flush(s, order).state)
  {
    hide Key;
  }

  /** Invariant: no arrival, frame or expiry ever leaves a held-back message without the
      lower gap it waits for. So once nothing is missing nothing is held back. */
  lemma StepKeepsInv(env: Env, s: State, ev: Event)
    requires Inv(s) && Enabled(env, s, ev)
    ensures Inv(Step(env, s, ev).state)
    ensures Step(env, s, ev).state.lost == map[] ==> Step(env, s, ev).state.pending == map[]
  {
    hide Key;
    match ev
    case Deliver(ref, item, order) =>
      if !Blocked(s.lost, ref) { FlushRestores(s, order); }
    case MarkLost(peerID, msgType, msgData) =>
      KeyNonEmpty(msgData.ref);
      var t := Step(env, s, ev).state;
      forall k | k in t.pending ensures Blocked(t.lost, t.pending[k].ref) {
        var l :| l in s.lost && BlocksSeq(s.lost[l], s.pending[k].ref);
        assert l in t.lost && BlocksSeq(t.lost[l], s.pending[k].ref);
      }
    case Retransmit(peer, msgs, order) =>
      RetransmitAllKeyed(env, peer, s, msgs);
      FlushRestores(RetransmitAll(env, peer, s, msgs).state, order);
    case Expire(key, order) =>
      if key in s.lost { FlushRestores(s.(lost := s.lost - {key}), order); }
  }

  /** The second critical section of a delivery never finds anything to release. */
  lemma DeliverFlushReleasesNothing(s: State, order: seq<string>)
    requires Inv(s) && ReleaseOrder(s, order)
    ensures Flush(s, order) == Outcome(s, [])
  {
    hide Key;
    assert ReadyKeys(s) == {};
    ElementsEmpty(order);
    assert s.pending - {} == s.pending;
  }

  /** Gap safety: whatever a step emits, no lower number is missing when the emission
      takes place, which is after the step has changed the maps. */
  lemma EmitsNothingBehindAGap(env: Env, s: State, ev: Event, e: Emission)
    requires Inv(s) && Enabled(env, s, ev)
    requires e in Step(env, s, ev).out
    ensures !Blocked(Step(env, s, ev).state.lost, e.ref)
  {
    hide Key;
    match ev
    case Deliver(ref, item, order) =>
      if !Blocked(s.lost, ref) {
        DeliverFlushReleasesNothing(s, order);
        assert e == Emission(ref, item);
      }
    case MarkLost(_, _, _) =>
    case Retransmit(peer, msgs, order) =>
      var r := RetransmitAll(env, peer, s, msgs);
      if e in r.out {
        RetransmitEmitsUnblocked(env, peer, s, msgs, e);
      } else {
        assert e in Flush(r.state, order).out;
        FlushEmitsUnblocked(r.state, order, e);
      }
    case Expire(key, order) =>
      if key in s.lost { FlushEmitsUnblocked(s.(lost := s.lost - {key}), order, e); }
  }

  lemma FlushEmitsUnblocked(s: State, order: seq<string>, e: Emission)
    requires ReleaseOrder(s, order) && e in Flush(s, order).out
    ensures !Blocked(s.lost, e.ref)
  {
    hide Key;
    var i :| 0 <= i < |order| && Flush(s, order).out[i] == e;
    assert order[i] in Elements(order);
  }

  /** Handling a frame only ever removes shells; the ones left keep their reference. */
  lemma {:induction false} RetransmitShrinksLost(env: Env, peer: string, s: State, msgs: seq<Payload>)
    requires Keyed(s)
    ensures var t := RetransmitAll(env, peer, s, msgs).state;
            forall k :: k in t.lost ==> k in s.lost && t.lost[k].ref == s.lost[k].ref && t.lost[k].msgType == s.lost[k].msgType
    decreases |msgs|
  {
    hide Key;
    if msgs != [] {
      var first := RetransmitOne(env, peer, s, msgs[0]);
      RetransmitOneKeyed(env, peer, s, msgs[0]);
      RetransmitShrinksLost(env, peer, first.state, msgs[1..]);
    }
  }

  lemma BlockedMonotone(fewer: map<string, Shell>, more: map<string, Shell>, ref: Ref)
    requires forall k :: k in fewer ==> k in more && more[k].ref == fewer[k].ref
    ensures Blocked(fewer, ref) ==> Blocked(more, ref)
  {
    hide Key;
    if Blocked(fewer, ref) {
      var k :| k in fewer && BlocksSeq(fewer[k], ref);
      assert BlocksSeq(more[k], ref);
    }
  }

  lemma {:induction false} RetransmitEmitsUnblocked(env: Env, peer: string, s: State, msgs: seq<Payload>, e: Emission)
    requires Keyed(s) && e in RetransmitAll(env, peer, s, msgs).out
    ensures !Blocked(RetransmitAll(env, peer, s, msgs).state.lost, e.ref)
    decreases |msgs|
  {
    hide Key;
    var first := RetransmitOne(env, peer, s, msgs[0]);
    RetransmitOneKeyed(env, peer, s, msgs[0]);
    if e in first.out {
      RetransmitShrinksLost(env, peer, first.state, msgs[1..]);
      BlockedMonotone(RetransmitAll(env, peer, s, msgs).state.lost, first.state.lost, e.ref);
    } else {
      RetransmitEmitsUnblocked(env, peer, first.state, msgs[1..], e);
    }
  }

  // --- The release order ----------------------------------------------------------------

  /** On messages that can be held back, all of which carry a positive number, the sort's
      comparison is a strict weak order. */
  lemma BeforeIsStrictWeakOrder(a: Ref, b: Ref, c: Ref)
    requires a.seqNo > 0 && b.seqNo > 0 && c.seqNo > 0
    ensures !Before(a, a)
    ensures Before(a, b) && Before(b, c) ==> Before(a, c)
    ensures !Before(a, b) && !Before(b, a) && !Before(b, c) && !Before(c, b) ==> !Before(a, c) && !Before(c, a)
  {
    hide Key;
  }

  /** On unnumbered messages as well it is not: three references can each come before
      the next in a circle. */
  lemma BeforeCanCycle()
    ensures exists a: Ref, b: Ref, c: Ref :: Before(a, b) && Before(b, c) && Before(c, a)
  {
    var a := Ref("", "", "c", "", 1);
    var b := Ref("", "", "a", "", 2);
    var c := Ref("", "", "b", "", 0);
    assert Key(a) == ClientKey("c") && Key(b) == ClientKey("a") && Key(c) == ClientKey("b");
    LexLessAfterPrefix("client:", "a", "b");
    LexLessAfterPrefix("client:", "b", "c");
    assert LexLess("a", "b") && LexLess("b", "c");
    assert Before(a, b) && Before(b, c) && Before(c, a);
  }

  lemma {:induction false} LexLessAfterPrefix(p: string, a: string, b: string)
    ensures LexLess(p + a, p + b) == LexLess(a, b)
  {
    if p == "" {
      assert p + a == a && p + b == b;
    } else {
      assert (p + a)[1..] == p[1..] + a && (p + b)[1..] == p[1..] + b;
      LexLessAfterPrefix(p[1..], a, b);
    }
  }
}
