/** The handlers of e2ewebsocket/recovery.go over one session's reorder state. Each takes
    the state as the transition system of ReorderSpec does; the items it sends go to
    `msgChan`. */
module Reorder {
  import opened Common
  import opened MessageRef
  import opened ReorderSpec

  // --- The release sort -----------------------------------------------------------------

  function Insert(p: PendingMsg, sorted: seq<PendingMsg>): seq<PendingMsg> {
    if sorted == [] || !Before(sorted[0].ref, p.ref) then [p] + sorted
    else [sorted[0]] + Insert(p, sorted[1..])
  }

  /** A stable sort by `Before`. */
  function SortStable(ps: seq<PendingMsg>): seq<PendingMsg> {
    if ps == [] then [] else Insert(ps[0], SortStable(ps[1..]))
  }

  predicate Numbered(ps: seq<PendingMsg>) {
    forall i :: 0 <= i < |ps| ==> ps[i].ref.seqNo > 0
  }

  predicate DistinctKeys(ps: seq<PendingMsg>) {
    forall i, j :: 0 <= i < j < |ps| ==> Key(ps[i].ref) != Key(ps[j].ref)
  }

  predicate Sorted(ps: seq<PendingMsg>) {
    forall i, j :: 0 <= i < j < |ps| ==> !Before(ps[j].ref, ps[i].ref)
  }

  lemma {:induction false} InsertElements(p: PendingMsg, sorted: seq<PendingMsg>)
    ensures Elements(Insert(p, sorted)) == Elements(sorted) + {p}
  {
    hide Before;
    if sorted == [] || !Before(sorted[0].ref, p.ref) {
      assert Elements([p] + sorted) == {p} + Elements(sorted);
    } else {
      InsertElements(p, sorted[1..]);
      assert sorted == [sorted[0]] + sorted[1..];
      assert Elements(sorted) == {sorted[0]} + Elements(sorted[1..]);
      assert Elements([sorted[0]] + Insert(p, sorted[1..])) == {sorted[0]} + Elements(Insert(p, sorted[1..]));
    }
  }

  /** Inserting after the smaller head of a sorted list leaves that head smallest. */
  lemma HeadStaysFirst(p: PendingMsg, sorted: seq<PendingMsg>, x: PendingMsg)
    requires sorted != [] && Before(sorted[0].ref, p.ref)
    requires Numbered([p] + sorted) && Sorted(sorted) && DistinctKeys([p] + sorted)
    requires x in Elements(sorted[1..]) + {p}
    ensures x.ref.seqNo > 0 && !Before(x.ref, sorted[0].ref) && Key(x.ref) != Key(sorted[0].ref)
  {
    hide Key;
    var all := [p] + sorted;
    assert all[0] == p && all[1] == sorted[0];
    if x != p {
      var j :| 0 <= j < |sorted[1..]| && sorted[1..][j] == x;
      assert sorted[j + 1] == x && all[j + 2] == x;
    }
  }

  lemma {:induction false} InsertKeeps(p: PendingMsg, sorted: seq<PendingMsg>)
    requires Numbered([p] + sorted) && Sorted(sorted) && DistinctKeys([p] + sorted)
    ensures Numbered(Insert(p, sorted)) && Sorted(Insert(p, sorted)) && DistinctKeys(Insert(p, sorted))
  {
    hide Key;
    if sorted == [] || !Before(sorted[0].ref, p.ref) {
      forall i | 0 <= i < |sorted| ensures !Before(sorted[i].ref, p.ref) {
        var all := [p] + sorted;
        assert all[i + 1] == sorted[i] && all[1] == sorted[0] && all[0] == p;
        assert i > 0 ==> !Before(sorted[i].ref, sorted[0].ref);
      }
    } else {
      var all, rest := [p] + sorted, [p] + sorted[1..];
      forall i | 0 <= i < |rest| ensures rest[i] == if i == 0 then all[0] else all[i + 1] {}
      InsertKeeps(p, sorted[1..]);
      var tail := Insert(p, sorted[1..]);
      InsertElements(p, sorted[1..]);
      forall i | 0 <= i < |tail|
        ensures tail[i].ref.seqNo > 0 && !Before(tail[i].ref, sorted[0].ref) && Key(tail[i].ref) != Key(sorted[0].ref)
      {
        assert tail[i] in Elements(tail);
        HeadStaysFirst(p, sorted, tail[i]);
      }
      assert all[1] == sorted[0];
    }
  }

  lemma {:induction false} SortStableSorts(ps: seq<PendingMsg>)
    requires Numbered(ps) && DistinctKeys(ps)
    ensures Elements(SortStable(ps)) == Elements(ps)
    ensures Numbered(SortStable(ps)) && Sorted(SortStable(ps)) && DistinctKeys(SortStable(ps))
  {
    hide Key;
    if ps != [] {
      SortStableSorts(ps[1..]);
      var sorted := SortStable(ps[1..]);
      assert ps == [ps[0]] + ps[1..];
      forall i | 0 <= i < |sorted| ensures sorted[i].ref.seqNo > 0 && Key(sorted[i].ref) != Key(ps[0].ref) {
        assert sorted[i] in Elements(sorted);
        var j :| 0 <= j < |ps[1..]| && ps[1..][j] == sorted[i];
        assert ps[j + 1] == sorted[i];
      }
      InsertElements(ps[0], sorted);
      assert Elements(ps) == {ps[0]} + Elements(ps[1..]);
      InsertKeeps(ps[0], sorted);
    }
  }

  function Items(es: seq<Emission>): (items: seq<Item>)
    ensures |items| == |es| && forall i :: 0 <= i < |es| ==> items[i] == es[i].item
  {
    seq(|es|, i requires 0 <= i < |es| => es[i].item)
  }

  /** What the release loop has picked after looking at `seen`, and what it has done. */
  ghost predicate Picked(s: State, seen: seq<PendingMsg>, order: seq<string>,
                         left: map<string, PendingMsg>, ready: seq<Item>) {
    && NoDuplicates(order)
    && (forall i :: 0 <= i < |order| ==> order[i] in s.pending)
    && SortedKeys(s.pending, order)
    && Elements(order) == (set p | p in seen && !Blocked(s.lost, p.ref) :: Key(p.ref))
    && left == s.pending - Elements(order)
    && ready == Items(Emissions(s.pending, order))
  }

  class ReorderState {
    const env: Env
    var lost: map<string, Shell>
    var pending: map<string, PendingMsg>
    var msgChan: seq<Item>

    constructor (env: Env)
      ensures this.env == env && State() == EMPTY && msgChan == [] && Inv(State())
    {
      this.env := env;
      lost, pending, msgChan := map[], map[], [];
    }

    function State(): ReorderSpec.State
      reads this
    {
      ReorderSpec.State(lost, pending)
    }

    method HasBlockingGapLocked(ref: Ref) returns (blocked: bool)
      ensures blocked == Blocked(lost, ref)
    {
      if ref.seqNo == 0 {
        return false;
      }
      var rest := lost.Keys;
      while rest != {}
        invariant rest <= lost.Keys
        invariant forall k :: k in lost && k !in rest ==> !BlocksSeq(lost[k], ref)
        decreases |rest|
      {
        var k :| k in rest;
        if lost[k].ref.seqNo > 0 && lost[k].ref.seqNo < ref.seqNo {
          assert BlocksSeq(lost[k], ref);
          return true;
        }
        rest := rest - {k};
      }
      return false;
    }

    method EmitReadItems(items: seq<Item>)
      modifies this`msgChan
      ensures msgChan == old(msgChan) + items
    {
      for i := 0 to |items|
        invariant msgChan == old(msgChan) + items[..i]
      {
        msgChan := msgChan + [items[i]];
      }
      assert items[..|items|] == items;
    }

    method MarkLostInbound(peerID: string, msgType: int, msgData: MsgData)
      requires Inv(State())
      modifies this`lost
      ensures Inv(State())
      ensures State() == Step(env, old(State()), MarkLost(peerID, msgType, msgData)).state
    {
      StepKeepsInv(env, State(), MarkLost(peerID, msgType, msgData));
      if msgData.ref.clientMsgID == "" && msgData.ref.serverMsgID == "" && msgData.ref.seqNo == 0 {
        return;
      }
      var key := Key(msgData.ref);
      KeyNonEmpty(msgData.ref);
      if key == "" {
        return;
      }
      if key !in lost {
        lost := lost[key := Shell(msgData.ref, peerID, msgType, msgData)];
      }
    }

    /** Lists the pending map in whatever order it is iterated. */
    method CollectPending() returns (ps: seq<PendingMsg>)
      requires Keyed(State())
      ensures Numbered(ps) && DistinctKeys(ps)
      ensures Elements(ps) == pending.Values
    {
      hide Key;
      ps := [];
      var rest := pending.Keys;
      while rest != {}
        invariant rest <= pending.Keys
        invariant Numbered(ps) && DistinctKeys(ps)
        invariant forall i :: 0 <= i < |ps| ==>
                    Key(ps[i].ref) in pending && Key(ps[i].ref) !in rest && pending[Key(ps[i].ref)] == ps[i]
        invariant forall k :: k in pending && k !in rest ==> pending[k] in Elements(ps)
        decreases |rest|
      {
        var k :| k in rest;
        assert Elements(ps + [pending[k]]) == Elements(ps) + {pending[k]};
        ps := ps + [pending[k]];
        rest := rest - {k};
      }
      forall p | p in pending.Values ensures p in Elements(ps) {
        var k :| k in pending && pending[k] == p;
      }
    }

    method FlushReadyPendingLocked() returns (ready: seq<Item>, ghost order: seq<string>)
      requires Keyed(State())
      modifies this`pending
      ensures ReleaseOrder(old(State()), order)
      ensures State() == Flush(old(State()), order).state && ready == Items(Flush(old(State()), order).out)
    {
      hide Key, ReleaseOrder, ReadyKeys, Picked;
      ghost var s := State();
      ready, order := [], [];
      var ps := CollectPending();
      SortStableSorts(ps);
      ps := SortStable(ps);
      PickNone(s);
      assert ps[..0] == [];
      for i := 0 to |ps|
        invariant lost == s.lost
        invariant Picked(s, ps[..i], order, pending, ready)
      {
        var msg := ps[i];
        var blocked := HasBlockingGapLocked(msg.ref);
        PickOne(s, ps, i, order, pending, ready);
        if blocked {
          continue;
        }
        pending := pending - {Key(msg.ref)};
        ready := ready + [msg.item];
        order := order + [Key(msg.ref)];
      }
      assert ps[..|ps|] == ps;
      PickedAll(s, ps, order, pending, ready);
    }

    method ExpireLostInbound(key: string) returns (ghost order: seq<string>)
      requires Inv(State())
      modifies this
      ensures Inv(State())
      ensures Enabled(env, old(State()), Expire(key, order))
      ensures State() == Step(env, old(State()), Expire(key, order)).state
      ensures msgChan == old(msgChan) + Items(Step(env, old(State()), Expire(key, order)).out)
    {
      hide Key, ReleaseOrder;
      ghost var s := State();
      order := [];
      if key !in lost {
        return;
      }
      lost := lost - {key};
      var ready;
      ready, order := FlushReadyPendingLocked();
      EmitReadItems(ready);
      StepKeepsInv(env, s, Expire(key, order));
    }

    /** `now` is the clock reading of the fallback key, which is never needed. */
    method DeliverApplication(ref: Ref, item: Item, now: int) returns (ghost order: seq<string>)
      requires Inv(State())
      modifies this
      ensures Inv(State())
      ensures Enabled(env, old(State()), Deliver(ref, item, order))
      ensures State() == Step(env, old(State()), Deliver(ref, item, order)).state
      ensures msgChan == old(msgChan) + Items(Step(env, old(State()), Deliver(ref, item, order)).out)
    {
      hide ReleaseOrder;
      ghost var s := State();
      order := [];
      var blocked := HasBlockingGapLocked(ref);
      if blocked {
        var key := Key(ref);
        KeyNonEmpty(ref);
        if key == "" {
          key := "pending:" + Decimal(ref.seqNo) + ":" + Decimal(now);
        }
        hide Key;
        pending := pending[key := PendingMsg(ref, item)];
        StepKeepsInv(env, s, Deliver(ref, item, order));
        return;
      }
      hide Key;
      msgChan := msgChan + [item];
      var ready;
      ready, order := FlushReadyPendingLocked();
      EmitReadItems(ready);
      StepKeepsInv(env, s, Deliver(ref, item, order));
    }

    /** One iteration of the retransmit loop; `ready` is what it lets through. */
    method RestoreOne(peerID: string, msg: Payload) returns (ready: seq<Item>)
      requires Keyed(State())
      modifies this`lost, this`pending
      ensures State() == RetransmitOne(env, peerID, old(State()), msg).state
      ensures ready == Items(RetransmitOne(env, peerID, old(State()), msg).out)
    {
      hide Key;
      ready := [];
      var key := Key(msg.ref);
      var ok := key in lost;
      if !ok && msg.ref.clientMsgID != "" {
        key := ClientKey(msg.ref.clientMsgID);
        ok := key in lost;
      }
      if !ok && msg.ref.serverMsgID != "" {
        key := ServerKey(msg.ref.serverMsgID);
        ok := key in lost;
      }
      if !ok && msg.ref.seqNo != 0 {
        key := SeqKey(msg.ref.seqNo);
        ok := key in lost;
      }
      if !ok {
        return;
      }
      assert FindShell(lost, msg.ref) == Some(key);
      var shell := lost[key];
      var filled := shell.msgData.(content := msg.content);
      var bytes := env.rebuild(filled);
      if bytes.None? {
        lost := lost[key := shell.(msgData := filled)];
        return;
      }
      lost := lost - {Key(shell.ref)};
      var item := Item(env.sessionId, peerID, shell.msgType, bytes.value);
      var blocked := HasBlockingGapLocked(shell.ref);
      if blocked {
        pending := pending[Key(shell.ref) := PendingMsg(shell.ref, item)];
        return;
      }
      ready := [item];
    }

    method HandleRetransmit(peerID: string, messages: seq<Payload>) returns (ghost order: seq<string>)
      requires Inv(State())
      modifies this
      ensures Inv(State())
      ensures Enabled(env, old(State()), Retransmit(peerID, messages, order))
      ensures State() == Step(env, old(State()), Retransmit(peerID, messages, order)).state
      ensures msgChan == old(msgChan) + Items(Step(env, old(State()), Retransmit(peerID, messages, order)).out)
    {
      hide Key, RetransmitOne, ReleaseOrder, Inv, Keyed, Emissions;
      ghost var s := State();
      assert Keyed(s) by { InvKeyed(s); }
      var ready := [];
      ghost var out: seq<Emission> := [];
      for i := 0 to |messages|
        invariant Keyed(State()) && msgChan == old(msgChan)
        invariant ready == Items(out)
        invariant RetransmitAll(env, peerID, s, messages).state
                  == RetransmitAll(env, peerID, State(), messages[i..]).state
        invariant RetransmitAll(env, peerID, s, messages).out
                  == out + RetransmitAll(env, peerID, State(), messages[i..]).out
      {
        ghost var before := State();
        RetransmitOneKeyed(env, peerID, before, messages[i]);
        assert messages[i..][0] == messages[i] && messages[i..][1..] == messages[i + 1..];
        var one := RestoreOne(peerID, messages[i]);
        ready := ready + one;
        out := out + RetransmitOne(env, peerID, before, messages[i]).out;
      }
      var flushed;
      flushed, order := FlushReadyPendingLocked();
      EmitReadItems(ready + flushed);
      StepKeepsInv(env, s, Retransmit(peerID, messages, order));
    }
  }

  lemma InvKeyed(s: State)
    ensures Inv(s) ==> Keyed(s)
  {
    hide Keyed, Quiescent;
  }

  lemma PickNone(s: State)
    ensures Picked(s, [], [], s.pending, [])
  {
    hide Key;
    assert s.pending - Elements<string>([]) == s.pending;
  }

  lemma PickOne(s: State, ps: seq<PendingMsg>, i: nat, order: seq<string>,
                left: map<string, PendingMsg>, ready: seq<Item>)
    requires i < |ps| && Numbered(ps) && Sorted(ps) && DistinctKeys(ps)
    requires KeyedPending(s.pending) && Elements(ps) == s.pending.Values
    requires Picked(s, ps[..i], order, left, ready)
    ensures Blocked(s.lost, ps[i].ref) ==> Picked(s, ps[..i + 1], order, left, ready)
    ensures !Blocked(s.lost, ps[i].ref) ==>
              Picked(s, ps[..i + 1], order + [Key(ps[i].ref)], left - {Key(ps[i].ref)}, ready + [ps[i].item])
  {
    hide Key;
    assert ps[i] in Elements(ps);
    assert ps[..i + 1] == ps[..i] + [ps[i]];
    var k := Key(ps[i].ref);
    assert k in s.pending && s.pending[k] == ps[i];
    if !Blocked(s.lost, ps[i].ref) {
      var next := order + [k];
      assert Elements(next) == Elements(order) + {k};
      forall j | 0 <= j < |order|
        ensures order[j] != k && !Before(s.pending[k].ref, s.pending[order[j]].ref)
      {
        PickedEarlier(s, ps, i, order, left, ready, j);
      }
      assert left - {k} == s.pending - Elements(next);
    }
  }

  lemma PickedEarlier(s: State, ps: seq<PendingMsg>, i: nat, order: seq<string>,
                      left: map<string, PendingMsg>, ready: seq<Item>, j: nat)
    requires i < |ps| && Sorted(ps) && DistinctKeys(ps)
    requires KeyedPending(s.pending) && Elements(ps) == s.pending.Values
    requires Picked(s, ps[..i], order, left, ready) && j < |order|
    ensures order[j] != Key(ps[i].ref) && !Before(ps[i].ref, s.pending[order[j]].ref)
  {
    hide Key;
    assert order[j] in Elements(order);
    var p :| p in ps[..i] && !Blocked(s.lost, p.ref) && Key(p.ref) == order[j];
    var n :| 0 <= n < i && ps[n] == p;
    assert ps[n] in Elements(ps);
  }

  lemma PickedAll(s: State, ps: seq<PendingMsg>, order: seq<string>,
                  left: map<string, PendingMsg>, ready: seq<Item>)
    requires KeyedPending(s.pending) && Elements(ps) == s.pending.Values
    requires Picked(s, ps, order, left, ready)
    ensures ReleaseOrder(s, order)
    ensures left == Flush(s, order).state.pending && ready == Items(Flush(s, order).out)
  {
    hide Key;
    forall k | k in ReadyKeys(s) ensures k in Elements(order) {
      assert s.pending[k] in Elements(ps);
    }
    forall k | k in Elements(order) ensures k in ReadyKeys(s) {
      var p :| p in ps && !Blocked(s.lost, p.ref) && Key(p.ref) == k;
      assert p in Elements(ps);
    }
  }
}
