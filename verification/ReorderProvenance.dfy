/** Where the bytes a session emits come from: each emission is a delivery passed through
    unchanged, or a message once marked lost, rebuilt from a later frame's content. */
module ReorderProvenance {
  import opened Common
  import opened MessageRef
  import opened ReorderSpec
  import opened ReorderRuns

  predicate Delivered(evs: seq<Event>, e: Emission) {
    exists i :: 0 <= i < |evs| && evs[i].Deliver? && evs[i].ref == e.ref && evs[i].item == e.item
  }

  predicate MarkedLost(evs: seq<Event>, ref: Ref, msgType: int) {
    exists i :: 0 <= i < |evs| && evs[i].MarkLost? && evs[i].msgData.ref == ref && evs[i].msgType == msgType
  }

  /** The frame's message carries the content `e` was rebuilt from, and is addressed by
      one of its keys to the message it restores. */
  predicate Restores(env: Env, peer: string, msg: Payload, e: Emission) {
    && Key(e.ref) in CandidateKeys(msg.ref)
    && e.item.sessionId == env.sessionId && e.item.remoteId == peer
    && env.rebuild(MsgData(e.ref, msg.content)) == Some(e.item.msg)
  }

  predicate RestoredBy(env: Env, peer: string, msgs: seq<Payload>, e: Emission) {
    exists i :: 0 <= i < |msgs| && Restores(env, peer, msgs[i], e)
  }

  predicate Retransmitted(env: Env, evs: seq<Event>, e: Emission) {
    exists i :: 0 <= i < |evs| && evs[i].Retransmit? && RestoredBy(env, evs[i].peer, evs[i].msgs, e)
  }

  predicate Accountable(env: Env, evs: seq<Event>, e: Emission) {
    Delivered(evs, e) || (MarkedLost(evs, e.ref, e.item.msgType) && Retransmitted(env, evs, e))
  }

  function Held(s: State, k: string): Emission
    requires k in s.pending
  {
    Emission(s.pending[k].ref, s.pending[k].item)
  }

  predicate Traced(env: Env, evs: seq<Event>, s: State) {
    && (forall k :: k in s.lost ==> MarkedLost(evs, s.lost[k].ref, s.lost[k].msgType))
    && (forall k :: k in s.pending ==> Accountable(env, evs, Held(s, k)))
  }

  lemma FindShellByCandidate(lost: map<string, Shell>, ref: Ref)
    requires "" !in lost
    ensures FindShell(lost, ref).Some? ==> FindShell(lost, ref).value in CandidateKeys(ref)
  {
    KeyNonEmpty(ref);
    assert HasIdentity(ref) ==> Key(ref) in CandidateKeys(ref);
  }

  /** Everything a frame emits or holds back, beyond what was held back before, fills a
      shell that was waiting when the frame arrived. */
  predicate FilledFrom(env: Env, peer: string, s: State, msgs: seq<Payload>, e: Emission) {
    || (exists k :: k in s.pending && e == Held(s, k))
    || (RestoredBy(env, peer, msgs, e) && exists k :: k in s.lost && s.lost[k].ref == e.ref && s.lost[k].msgType == e.item.msgType)
  }

  lemma RetransmitOneFills(env: Env, peer: string, s: State, msg: Payload, e: Emission)
    requires Keyed(s)
    requires var o := RetransmitOne(env, peer, s, msg);
             e in o.out || exists k :: k in o.state.pending && e == Held(o.state, k)
    ensures FilledFrom(env, peer, s, [msg], e)
  {
    hide Key, CandidateKeys;
    FindShellByCandidate(s.lost, msg.ref);
    var o := RetransmitOne(env, peer, s, msg);
    if forall k :: k in s.pending ==> e != Held(s, k) {
      var k := FindShell(s.lost, msg.ref).value;
      assert e.ref == s.lost[k].ref && Restores(env, peer, [msg][0], e);
    }
  }

  lemma {:induction false} RetransmitAllFills(env: Env, peer: string, s: State, msgs: seq<Payload>, e: Emission)
    requires Keyed(s)
    requires var o := RetransmitAll(env, peer, s, msgs);
             e in o.out || exists k :: k in o.state.pending && e == Held(o.state, k)
    ensures FilledFrom(env, peer, s, msgs, e)
    decreases |msgs|
  {
    hide Key, Restores, RetransmitOne;
    if msgs != [] {
      var one := RetransmitOne(env, peer, s, msgs[0]);
      RetransmitOneKeyed(env, peer, s, msgs[0]);
      if e !in one.out {
        RetransmitAllFills(env, peer, one.state, msgs[1..], e);
      }
      if RestoredBy(env, peer, msgs[1..], e) {
        var i :| 0 <= i < |msgs[1..]| && Restores(env, peer, msgs[1..][i], e);
        assert Restores(env, peer, msgs[i + 1], e);
      }
      if e in one.out || exists k :: k in one.state.pending && e == Held(one.state, k) {
        RetransmitOneFills(env, peer, s, msgs[0], e);
        if RestoredBy(env, peer, [msgs[0]], e) { assert Restores(env, peer, msgs[0], e); }
      } else {
        RetransmitShrinksLost(env, peer, s, [msgs[0]]);
        assert RetransmitAll(env, peer, one.state, []) == Outcome(one.state, []);
        assert RetransmitAll(env, peer, s, [msgs[0]]).state == one.state;
      }
    }
  }

  lemma LongerHistory(env: Env, evs: seq<Event>, ev: Event)
    ensures forall ref, t :: MarkedLost(evs, ref, t) ==> MarkedLost(evs + [ev], ref, t)
    ensures forall e :: Accountable(env, evs, e) ==> Accountable(env, evs + [ev], e)
  {
    var all := evs + [ev];
    assert forall i :: 0 <= i < |evs| ==> all[i] == evs[i];
    forall ref, t | MarkedLost(evs, ref, t) ensures MarkedLost(all, ref, t) {
      var i :| 0 <= i < |evs| && evs[i].MarkLost? && evs[i].msgData.ref == ref && evs[i].msgType == t;
      assert all[i].MarkLost?;
    }
    forall e | Delivered(evs, e) ensures Delivered(all, e) {
      var i :| 0 <= i < |evs| && evs[i].Deliver? && evs[i].ref == e.ref && evs[i].item == e.item;
      assert all[i].Deliver?;
    }
    forall e | Retransmitted(env, evs, e) ensures Retransmitted(env, all, e) {
      var i :| 0 <= i < |evs| && evs[i].Retransmit? && RestoredBy(env, evs[i].peer, evs[i].msgs, e);
      assert all[i].Retransmit?;
    }
  }

  lemma FilledAccountable(env: Env, evs: seq<Event>, s: State, ev: Event, e: Emission)
    requires Traced(env, evs, s) && ev.Retransmit? && FilledFrom(env, ev.peer, s, ev.msgs, e)
    ensures Accountable(env, evs + [ev], e)
  {
    hide RestoredBy;
    LongerHistory(env, evs, ev);
    assert (evs + [ev])[|evs|] == ev;
  }

  lemma FlushedWereHeld(s: State, order: seq<string>, e: Emission)
    requires ReleaseOrder(s, order) && e in Flush(s, order).out
    ensures exists k :: k in s.pending && e == Held(s, k)
  {
    hide Key;
    var i :| 0 <= i < |order| && Flush(s, order).out[i] == e;
    assert e == Held(s, order[i]);
  }

  lemma StepTraced(env: Env, evs: seq<Event>, s: State, ev: Event)
    requires Inv(s) && Enabled(env, s, ev) && Traced(env, evs, s)
    ensures Traced(env, evs + [ev], Step(env, s, ev).state)
    ensures forall e :: e in Step(env, s, ev).out ==> Accountable(env, evs + [ev], e)
  {
    hide Key, Accountable, MarkedLost;
    LongerHistory(env, evs, ev);
    match ev
    case Deliver(ref, item, order) =>
      DeliveredAccountable(env, evs, ev);
      if !Blocked(s.lost, ref) { DeliverFlushReleasesNothing(s, order); }
    case MarkLost(_, msgType, msgData) =>
      MarkedNow(evs, ev);
    case Retransmit(peer, msgs, order) =>
      RetransmitTraced(env, evs, s, ev);
    case Expire(key, order) =>
      if key in s.lost {
        var t := s.(lost := s.lost - {key});
        forall e | e in Step(env, s, ev).out ensures Accountable(env, evs + [ev], e) {
          FlushedWereHeld(t, order, e);
        }
      }
  }

  lemma DeliveredAccountable(env: Env, evs: seq<Event>, ev: Event)
    requires ev.Deliver?
    ensures Accountable(env, evs + [ev], Emission(ev.ref, ev.item))
  {
    assert (evs + [ev])[|evs|] == ev;
  }

  lemma MarkedNow(evs: seq<Event>, ev: Event)
    requires ev.MarkLost?
    ensures MarkedLost(evs + [ev], ev.msgData.ref, ev.msgType)
  {
    assert (evs + [ev])[|evs|] == ev;
  }

  lemma RetransmitTraced(env: Env, evs: seq<Event>, s: State, ev: Event)
    requires ev.Retransmit? && Inv(s) && Enabled(env, s, ev) && Traced(env, evs, s)
    ensures Traced(env, evs + [ev], Step(env, s, ev).state)
    ensures forall e :: e in Step(env, s, ev).out ==> Accountable(env, evs + [ev], e)
  {
    hide Key, Accountable, MarkedLost, RetransmitOne, RetransmitAll;
    LongerHistory(env, evs, ev);
    var all := RetransmitAll(env, ev.peer, s, ev.msgs);
    RetransmitShrinksLost(env, ev.peer, s, ev.msgs);
    forall e | e in all.out || exists k :: k in all.state.pending && e == Held(all.state, k)
      ensures Accountable(env, evs + [ev], e)
    {
      RetransmitAllFills(env, ev.peer, s, ev.msgs, e);
      FilledAccountable(env, evs, s, ev, e);
    }
    forall e | e in Flush(all.state, ev.order).out ensures Accountable(env, evs + [ev], e) {
      FlushedWereHeld(all.state, ev.order, e);
    }
    var t := Step(env, s, ev).state;
    forall k | k in t.pending ensures Accountable(env, evs + [ev], Held(t, k)) {
      assert Held(t, k) == Held(all.state, k);
    }
  }

  /** Fidelity, for every run: nothing is emitted that was not delivered as it is or
      rebuilt from a retransmission of a message that had been marked lost. */
  lemma {:induction false} RunAccountable(env: Env, evs: seq<Event>)
    requires ValidRun(env, evs)
    ensures Traced(env, evs, Exec(env, evs).state)
    ensures forall e :: e in Exec(env, evs).emitted ==> Accountable(env, evs, e)
  {
    hide Key, Accountable, Step, Enabled, Inv, Traced;
    if evs == [] {
      NothingTraced(env);
    } else {
      var front, last := Front(evs), Last(evs);
      RunAccountable(env, front);
      RunKeepsInv(env, front);
      assert evs == front + [last];
      LongerHistory(env, front, last);
      StepTraced(env, front, Exec(env, front).state, last);
    }
  }

  lemma NothingTraced(env: Env)
    ensures Traced(env, [], EMPTY)
  {
  }
}
