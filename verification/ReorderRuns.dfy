/** Whole runs of the reorder buffer. A run is any list of handler steps; its arrivals
    are the messages delivered or marked lost, in the order they came in. */
module ReorderRuns {
  import opened Common
  import opened MessageRef
  import opened ReorderSpec

  datatype Trace = Trace(state: State, emitted: seq<Emission>)

  predicate ValidRun(env: Env, evs: seq<Event>)
    decreases |evs|, 0
  {
    evs == [] || (ValidRun(env, Front(evs)) && Enabled(env, Exec(env, Front(evs)).state, Last(evs)))
  }

  function Exec(env: Env, evs: seq<Event>): Trace
    requires ValidRun(env, evs)
    decreases |evs|, 1
  {
    if evs == [] then Trace(EMPTY, [])
    else
      var before := Exec(env, Front(evs));
      var step := Step(env, before.state, Last(evs));
      Trace(step.state, before.emitted + step.out)
  }

  function Refs(es: seq<Emission>): (rs: seq<Ref>)
    ensures |rs| == |es| && forall i :: 0 <= i < |es| ==> rs[i] == es[i].ref
  {
    seq(|es|, i requires 0 <= i < |es| => es[i].ref)
  }

  function Arrival(ev: Event): seq<Ref> {
    match ev
    case Deliver(ref, _, _) => [ref]
    case MarkLost(_, _, msgData) => [msgData.ref]
    case _ => []
  }

  function Arrivals(evs: seq<Event>): seq<Ref> {
    if evs == [] then [] else Arrivals(Front(evs)) + Arrival(Last(evs))
  }

  /** The shells a run gave up on. */
  function Dropped(s: State, ev: Event): set<Ref> {
    if ev.Expire? && ev.key in s.lost then {s.lost[ev.key].ref} else {}
  }

  function Expired(env: Env, evs: seq<Event>): set<Ref>
    requires ValidRun(env, evs)
  {
    if evs == [] then {} else Expired(env, Front(evs)) + Dropped(Exec(env, Front(evs)).state, Last(evs))
  }

  function Waiting(s: State): set<Ref> {
    (set k | k in s.lost :: s.lost[k].ref) + (set k | k in s.pending :: s.pending[k].ref)
  }

  /** Numbers positive and strictly increasing, keys distinct. */
  predicate InSequence(refs: seq<Ref>) {
    && Increasing(refs)
    && (forall i :: 0 <= i < |refs| ==> refs[i].seqNo > 0)
    && (forall i, j :: 0 <= i < j < |refs| ==> Key(refs[i]) != Key(refs[j]))
  }

  predicate Increasing(refs: seq<Ref>) {
    forall i, j :: 0 <= i < j < |refs| ==> refs[i].seqNo < refs[j].seqNo
  }

  function Keep(refs: seq<Ref>, wanted: set<Ref>): seq<Ref> {
    if refs == [] then []
    else Keep(Front(refs), wanted) + if Last(refs) in wanted then [Last(refs)] else []
  }

  /** A message goes out although one with a lower number is being held back. */
  predicate Overtakes(s: State, o: Outcome) {
    exists e, k :: e in o.out && k in s.pending && s.pending[k].ref.seqNo < e.ref.seqNo
  }

  predicate FrameInOrder(env: Env, peer: string, s: State, msgs: seq<Payload>)
    decreases |msgs|
  {
    msgs == [] || (!Overtakes(s, RetransmitOne(env, peer, s, msgs[0]))
                   && FrameInOrder(env, peer, RetransmitOne(env, peer, s, msgs[0]).state, msgs[1..]))
  }

  predicate FramesInOrder(env: Env, evs: seq<Event>)
    requires ValidRun(env, evs)
  {
    evs == [] || (FramesInOrder(env, Front(evs))
                  && (Last(evs).Retransmit? ==>
                        FrameInOrder(env, Last(evs).peer, Exec(env, Front(evs)).state, Last(evs).msgs)))
  }

  // --- Strictly increasing listings are determined by their elements --------------------

  lemma {:induction false} KeepIncreasing(refs: seq<Ref>, wanted: set<Ref>)
    requires Increasing(refs)
    ensures Increasing(Keep(refs, wanted))
    ensures Elements(Keep(refs, wanted)) == Elements(refs) * wanted
  {
    if refs != [] {
      KeepIncreasing(Front(refs), wanted);
      var kept := Keep(Front(refs), wanted);
      assert refs == Front(refs) + [Last(refs)];
      assert Elements(refs) == Elements(Front(refs)) + {Last(refs)};
      assert Elements(kept + [Last(refs)]) == Elements(kept) + {Last(refs)};
      assert kept + [] == kept;
      forall i | 0 <= i < |kept| ensures kept[i].seqNo < Last(refs).seqNo {
        assert kept[i] in Elements(kept);
        var j :| 0 <= j < |Front(refs)| && Front(refs)[j] == kept[i];
      }
    }
  }

  lemma {:induction false} IncreasingUnique(a: seq<Ref>, b: seq<Ref>)
    requires Increasing(a) && Increasing(b) && Elements(a) == Elements(b)
    ensures a == b
  {
    ElementsEmpty(a);
    ElementsEmpty(b);
    if a != [] {
      assert Last(a) in Elements(b) && Last(b) in Elements(a);
      assert Last(a) == Last(b);
      FrontElements(a);
      FrontElements(b);
      IncreasingUnique(Front(a), Front(b));
      assert a == Front(a) + [Last(a)] && b == Front(b) + [Last(b)];
    }
  }

  lemma FrontElements(a: seq<Ref>)
    requires a != [] && Increasing(a)
    ensures Elements(Front(a)) == Elements(a) - {Last(a)}
  {
    forall x | x in Elements(a) - {Last(a)} ensures x in Elements(Front(a)) {
      var i :| 0 <= i < |a| && a[i] == x;
      assert Front(a)[i] == x;
    }
  }

  // --- The invariant of an in-sequence run ----------------------------------------------

  /** What has been emitted came out in order, everything waiting has a higher number, and
      the arrivals split into emitted, waiting and expired. */
  ghost predicate Accounted(arrived: seq<Ref>, out: seq<Ref>, waiting: set<Ref>, expired: set<Ref>) {
    && InSequence(arrived)
    && Increasing(out)
    && AllBelow(Elements(out), waiting)
    && Elements(arrived) == Elements(out) + waiting + expired
    && Elements(out) !! waiting
    && expired !! (Elements(out) + waiting)
  }

  ghost predicate AllBelow(low: set<Ref>, high: set<Ref>) {
    forall e, r :: e in low && r in high ==> e.seqNo < r.seqNo
  }

  /** Lost and held-back messages are filed under their own keys, no key in both maps. */
  predicate Apart(s: State) {
    Keyed(s) && s.lost.Keys !! s.pending.Keys
  }

  ghost predicate Sequenced(s: State, arrived: seq<Ref>, out: seq<Ref>, expired: set<Ref>) {
    Apart(s) && Accounted(arrived, out, Waiting(s), expired)
  }

  lemma SameNumberSameRef(arrived: seq<Ref>, a: Ref, b: Ref)
    requires InSequence(arrived) && a in Elements(arrived) && b in Elements(arrived)
    ensures a.seqNo > 0
    ensures a.seqNo == b.seqNo ==> a == b
    ensures Key(a) == Key(b) ==> a == b
  {
    hide Key;
    var i :| 0 <= i < |arrived| && arrived[i] == a;
    var j :| 0 <= j < |arrived| && arrived[j] == b;
  }

  lemma ElementsAppend<T>(a: seq<T>, b: seq<T>)
    ensures Elements(a + b) == Elements(a) + Elements(b)
  {
  }

  lemma AppendIncreasing(out: seq<Ref>, more: seq<Ref>)
    requires Increasing(out) && Increasing(more)
    requires AllBelow(Elements(out), Elements(more))
    ensures Increasing(out + more)
  {
    var all := out + more;
    forall i, j | 0 <= i < j < |all| ensures all[i].seqNo < all[j].seqNo {
      if i < |out| <= j {
        assert all[i] in Elements(out) && all[j] in Elements(more);
      }
    }
  }

  lemma AccountedCovers(arrived: seq<Ref>, out: seq<Ref>, waiting: set<Ref>, expired: set<Ref>)
    requires Accounted(arrived, out, waiting, expired)
    ensures InSequence(arrived) && waiting <= Elements(arrived)
  {
  }

  /** Emitting, in order, messages that come before everything left behind. */
  lemma Emit(arrived: seq<Ref>, out: seq<Ref>, waiting: set<Ref>, expired: set<Ref>, more: seq<Ref>, left: set<Ref>)
    requires Accounted(arrived, out, waiting, expired)
    requires Increasing(more) && waiting == Elements(more) + left && AllBelow(Elements(more), left)
    ensures Accounted(arrived, out + more, left, expired)
  {
    hide Key;
    ElementsAppend(out, more);
    AppendIncreasing(out, more);
    forall r | r in Elements(more) ensures r !in left {
      assert !(r.seqNo < r.seqNo);
    }
  }

  // --- Releasing ------------------------------------------------------------------------

  lemma ReleasedIncreasing(s: State, order: seq<string>, arrived: seq<Ref>)
    requires Keyed(s) && ReleaseOrder(s, order) && InSequence(arrived) && Waiting(s) <= Elements(arrived)
    ensures Increasing(Refs(Emissions(s.pending, order)))
  {
    hide Key;
    var released := Refs(Emissions(s.pending, order));
    forall i, j | 0 <= i < j < |released| ensures released[i].seqNo < released[j].seqNo {
      var a, b := s.pending[order[i]].ref, s.pending[order[j]].ref;
      assert a in Waiting(s) && b in Waiting(s);
      SameNumberSameRef(arrived, a, b);
      assert order[i] != order[j] && !Before(b, a);
    }
  }

  lemma ReleasedElements(s: State, order: seq<string>)
    requires ReleaseOrder(s, order)
    ensures Elements(Refs(Emissions(s.pending, order))) == set k | k in ReadyKeys(s) :: s.pending[k].ref
  {
    hide Key;
    var released := Refs(Emissions(s.pending, order));
    forall r | r in Elements(released)
      ensures exists k :: k in ReadyKeys(s) && s.pending[k].ref == r
    {
      var i :| 0 <= i < |released| && released[i] == r;
      assert order[i] in Elements(order);
    }
    forall k | k in ReadyKeys(s) ensures s.pending[k].ref in Elements(released) {
      assert k in Elements(order);
      var i :| 0 <= i < |order| && order[i] == k;
      assert released[i] == s.pending[k].ref;
    }
  }

  /** What a release leaves behind is still waiting for something the released messages
      were not waiting for, so it comes later. */
  lemma FreedComesFirst(s: State, arrived: seq<Ref>, k: string, r: Ref)
    requires Apart(s) && InSequence(arrived) && Waiting(s) <= Elements(arrived)
    requires k in ReadyKeys(s)
    requires r in Waiting(s.(pending := s.pending - ReadyKeys(s)))
    ensures s.pending[k].ref.seqNo < r.seqNo
  {
    hide Key;
    var e := s.pending[k].ref;
    assert e in Waiting(s) && r in Waiting(s);
    SameNumberSameRef(arrived, e, r);
    SameNumberSameRef(arrived, r, e);
    if l :| l in s.lost && s.lost[l].ref == r {
      assert !BlocksSeq(s.lost[l], e);
    } else {
      var q :| q in s.pending && q !in ReadyKeys(s) && s.pending[q].ref == r;
      var l :| l in s.lost && BlocksSeq(s.lost[l], r);
      assert !BlocksSeq(s.lost[l], e);
    }
  }

  lemma WaitingAfterFlush(s: State)
    ensures Waiting(s) == Waiting(s.(pending := s.pending - ReadyKeys(s))) + set k | k in ReadyKeys(s) :: s.pending[k].ref
  {
    hide Key;
    var t := s.(pending := s.pending - ReadyKeys(s));
    forall k | k in s.pending ensures s.pending[k].ref in Waiting(t) || k in ReadyKeys(s) {
      if k !in ReadyKeys(s) { assert k in t.pending; }
    }
  }

  lemma ReleasedBelowRest(s: State, arrived: seq<Ref>)
    requires Apart(s) && InSequence(arrived) && Waiting(s) <= Elements(arrived)
    ensures AllBelow(set k | k in ReadyKeys(s) :: s.pending[k].ref, Waiting(s.(pending := s.pending - ReadyKeys(s))))
  {
    hide Key, InSequence, Waiting, Apart;
    forall k, r | k in ReadyKeys(s) && r in Waiting(s.(pending := s.pending - ReadyKeys(s)))
      ensures s.pending[k].ref.seqNo < r.seqNo
    {
      FreedComesFirst(s, arrived, k, r);
    }
  }

  lemma FlushSequenced(s: State, order: seq<string>, arrived: seq<Ref>, out: seq<Ref>, expired: set<Ref>)
    requires Sequenced(s, arrived, out, expired) && ReleaseOrder(s, order)
    ensures Sequenced(Flush(s, order).state, arrived, out + Refs(Flush(s, order).out), expired)
  {
    hide Key, Accounted, InSequence, Waiting, Increasing, AllBelow, ReadyKeys;
    AccountedCovers(arrived, out, Waiting(s), expired);
    ReleasedIncreasing(s, order, arrived);
    ReleasedElements(s, order);
    ReleasedBelowRest(s, arrived);
    WaitingAfterFlush(s);
    Emit(arrived, out, Waiting(s), expired, Refs(Emissions(s.pending, order)), Waiting(Flush(s, order).state));
  }

  // --- Retransmit frames ----------------------------------------------------------------

  /** A message of a frame frees at most its own shell, and only past no lower gap. */
  predicate FreesAtMostOne(s: State, o: Outcome) {
    || (o.out == [] && Waiting(o.state) == Waiting(s))
    || (|o.out| == 1 && exists k :: k in s.lost && FreesShell(s, o, k))
  }

  predicate FreesShell(s: State, o: Outcome, k: string)
    requires k in s.lost && |o.out| == 1
  {
    o.out[0].ref == s.lost[k].ref && o.state == s.(lost := s.lost - {k}) && !Blocked(o.state.lost, s.lost[k].ref)
  }

  lemma WaitingWithout(s: State, k: string)
    requires Keyed(s) && k in s.lost
    ensures Waiting(s) == Waiting(s.(lost := s.lost - {k})) + {s.lost[k].ref}
  {
    hide Key;
    var t := s.(lost := s.lost - {k});
    forall j | j in s.lost ensures s.lost[j].ref in Waiting(t) || j == k {
      if j != k { assert j in t.lost; }
    }
  }

  lemma RetransmitOneFrees(env: Env, peer: string, s: State, msg: Payload)
    requires Apart(s)
    ensures Apart(RetransmitOne(env, peer, s, msg).state)
    ensures FreesAtMostOne(s, RetransmitOne(env, peer, s, msg))
  {
    hide Key;
    var found := FindShell(s.lost, msg.ref);
    if found.Some? {
      var k := found.value;
      var shell := s.lost[k];
      var filled := shell.msgData.(content := msg.content);
      var rebuilt := env.rebuild(filled);
      if rebuilt.None? {
        WaitingRefilled(s, k, shell.(msgData := filled));
      } else {
        WaitingWithout(s, k);
        var lost := s.lost - {k};
        if Blocked(lost, shell.ref) {
          var item := Item(env.sessionId, peer, shell.msgType, rebuilt.value);
          WaitingMoved(s, k, item);
        } else {
          assert FreesShell(s, RetransmitOne(env, peer, s, msg), k);
        }
      }
    }
  }

  lemma WaitingRefilled(s: State, k: string, shell: Shell)
    requires k in s.lost && shell.ref == s.lost[k].ref
    ensures Waiting(s.(lost := s.lost[k := shell])) == Waiting(s)
  {
    hide Key;
    var t := s.(lost := s.lost[k := shell]);
    forall j | j in s.lost ensures s.lost[j].ref in Waiting(t) { assert j in t.lost; }
  }

  lemma WaitingMoved(s: State, k: string, item: Item)
    requires Apart(s) && k in s.lost
    ensures Waiting(State(s.lost - {k}, s.pending[k := PendingMsg(s.lost[k].ref, item)])) == Waiting(s)
  {
    hide Key;
    var t := State(s.lost - {k}, s.pending[k := PendingMsg(s.lost[k].ref, item)]);
    WaitingWithout(s, k);
    assert k in t.pending && t.pending[k].ref == s.lost[k].ref;
    forall j | j in s.pending ensures s.pending[j].ref in Waiting(t) { assert j in t.pending; }
    forall j | j in s.lost && j != k ensures s.lost[j].ref in Waiting(t) { assert j in t.lost; }
  }

  lemma FreeOneSequenced(s: State, o: Outcome, arrived: seq<Ref>, out: seq<Ref>, expired: set<Ref>)
    requires Sequenced(s, arrived, out, expired)
    requires FreesAtMostOne(s, o) && Apart(o.state) && !Overtakes(s, o)
    ensures Sequenced(o.state, arrived, out + Refs(o.out), expired)
  {
    hide Key;
    if o.out == [] {
      assert out + Refs(o.out) == out;
    } else {
      var k :| k in s.lost && FreesShell(s, o, k);
      var e := s.lost[k].ref;
      assert Refs(o.out) == [e] && Elements([e]) == {e};
      WaitingWithout(s, k);
      forall r | r in Waiting(o.state) ensures e.seqNo < r.seqNo {
        FreeComesFirst(s, o, arrived, k, r);
      }
      Emit(arrived, out, Waiting(s), expired, [e], Waiting(o.state));
    }
  }

  lemma FreeComesFirst(s: State, o: Outcome, arrived: seq<Ref>, k: string, r: Ref)
    requires Apart(s) && InSequence(arrived) && Waiting(s) <= Elements(arrived)
    requires |o.out| == 1 && k in s.lost && FreesShell(s, o, k) && !Overtakes(s, o)
    requires r in Waiting(o.state)
    ensures s.lost[k].ref.seqNo < r.seqNo
  {
    hide Key;
    var e := s.lost[k].ref;
    assert e in Waiting(s) && r in Waiting(s);
    SameNumberSameRef(arrived, e, r);
    SameNumberSameRef(arrived, r, e);
    if l :| l in o.state.lost && o.state.lost[l].ref == r {
      assert !BlocksSeq(o.state.lost[l], e);
    } else {
      var q :| q in s.pending && s.pending[q].ref == r;
      assert o.out[0] in o.out;
    }
  }

  lemma {:induction false} RetransmitAllSequenced(env: Env, peer: string, s: State, msgs: seq<Payload>,
                                                  arrived: seq<Ref>, out: seq<Ref>, expired: set<Ref>)
    requires Sequenced(s, arrived, out, expired)
    requires FrameInOrder(env, peer, s, msgs)
    ensures var all := RetransmitAll(env, peer, s, msgs);
            Sequenced(all.state, arrived, out + Refs(all.out), expired)
    decreases |msgs|
  {
    hide Key;
    if msgs == [] {
      assert out + Refs([]) == out;
    } else {
      var one := RetransmitOne(env, peer, s, msgs[0]);
      var rest := RetransmitAll(env, peer, one.state, msgs[1..]);
      RetransmitOneFrees(env, peer, s, msgs[0]);
      FreeOneSequenced(s, one, arrived, out, expired);
      RetransmitAllSequenced(env, peer, one.state, msgs[1..], arrived, out + Refs(one.out), expired);
      RefsAppend(out, one.out, rest.out);
    }
  }

  lemma RefsAppend(out: seq<Ref>, a: seq<Emission>, b: seq<Emission>)
    ensures out + Refs(a) + Refs(b) == out + Refs(a + b)
  {
  }

  // --- One step -------------------------------------------------------------------------

  /** A new arrival is above everything seen so far and collides with no stored key. */
  lemma ArrivalIsNew(s: State, arrived: seq<Ref>, out: seq<Ref>, expired: set<Ref>, ref: Ref)
    requires Sequenced(s, arrived, out, expired)
    requires InSequence(arrived + [ref])
    ensures InSequence(arrived) && Waiting(s) <= Elements(arrived)
    ensures ref.seqNo > 0 && AllBelow(Elements(arrived), {ref})
    ensures Key(ref) !in s.lost && Key(ref) !in s.pending
    ensures Elements(arrived + [ref]) == Elements(arrived) + {ref}
  {
    hide Key;
    var next := arrived + [ref];
    assert next[|arrived|] == ref;
    forall r | r in Elements(arrived) ensures r.seqNo < ref.seqNo && Key(r) != Key(ref) {
      var i :| 0 <= i < |arrived| && arrived[i] == r;
      assert next[i] == r;
    }
    forall k | k in s.lost ensures k != Key(ref) { assert s.lost[k].ref in Waiting(s); }
    forall k | k in s.pending ensures k != Key(ref) { assert s.pending[k].ref in Waiting(s); }
    ElementsAppend(arrived, [ref]);
    assert Elements([ref]) == {ref};
  }

  lemma ArriveWaiting(arrived: seq<Ref>, out: seq<Ref>, waiting: set<Ref>, expired: set<Ref>, ref: Ref)
    requires Accounted(arrived, out, waiting, expired)
    requires InSequence(arrived + [ref]) && AllBelow(Elements(arrived), {ref})
    requires Elements(arrived + [ref]) == Elements(arrived) + {ref}
    ensures Accounted(arrived + [ref], out, waiting + {ref}, expired)
  {
    hide Key;
    forall r | r in Elements(arrived) ensures r != ref { assert r.seqNo < ref.seqNo; }
    forall e, r | e in Elements(out) && r in waiting + {ref} ensures e.seqNo < r.seqNo {
      assert e in Elements(arrived);
    }
  }

  lemma DeliverSequenced(env: Env, s: State, ev: Event, arrived: seq<Ref>, out: seq<Ref>, expired: set<Ref>)
    requires ev.Deliver? && Inv(s) && Enabled(env, s, ev)
    requires Sequenced(s, arrived, out, expired) && InSequence(arrived + [ev.ref])
    ensures Sequenced(Step(env, s, ev).state, arrived + [ev.ref], out + Refs(Step(env, s, ev).out), expired)
  {
    hide Key, ReleaseOrder, Accounted;
    var step := Step(env, s, ev);
    ArrivalIsNew(s, arrived, out, expired, ev.ref);
    ArriveWaiting(arrived, out, Waiting(s), expired, ev.ref);
    if Blocked(s.lost, ev.ref) {
      assert out + Refs(step.out) == out;
      WaitingHeld(s, PendingMsg(ev.ref, ev.item));
    } else {
      DeliverFlushReleasesNothing(s, ev.order);
      NewestBlockedUnlessIdle(s, arrived, ev.ref);
      assert Refs(step.out) == [ev.ref] && Elements([ev.ref]) == {ev.ref};
      assert Waiting(s) + {ev.ref} == {ev.ref};
      Emit(arrived + [ev.ref], out, {ev.ref}, expired, [ev.ref], {});
    }
  }

  lemma WaitingHeld(s: State, msg: PendingMsg)
    requires Key(msg.ref) !in s.pending
    ensures Waiting(s.(pending := s.pending[Key(msg.ref) := msg])) == Waiting(s) + {msg.ref}
  {
    hide Key;
    var t := s.(pending := s.pending[Key(msg.ref) := msg]);
    assert t.pending[Key(msg.ref)].ref == msg.ref;
    forall j | j in s.pending ensures s.pending[j].ref in Waiting(t) { assert j in t.pending; }
  }

  lemma NewestBlockedUnlessIdle(s: State, arrived: seq<Ref>, ref: Ref)
    requires Inv(s) && InSequence(arrived) && Waiting(s) <= Elements(arrived)
    requires AllBelow(Elements(arrived), {ref}) && ref.seqNo > 0
    ensures Blocked(s.lost, ref) || Waiting(s) == {}
  {
    hide Key;
    if k :| k in s.lost {
      assert s.lost[k].ref in Waiting(s);
      SameNumberSameRef(arrived, s.lost[k].ref, s.lost[k].ref);
      assert BlocksSeq(s.lost[k], ref);
    } else {
      assert s.lost.Keys == {} && s.pending.Keys == {};
    }
  }

  lemma MarkLostSequenced(env: Env, s: State, ev: Event, arrived: seq<Ref>, out: seq<Ref>, expired: set<Ref>)
    requires ev.MarkLost? && Inv(s)
    requires Sequenced(s, arrived, out, expired) && InSequence(arrived + [ev.msgData.ref])
    ensures Step(env, s, ev).out == []
    ensures Sequenced(Step(env, s, ev).state, arrived + [ev.msgData.ref], out, expired)
  {
    hide Key;
    var ref := ev.msgData.ref;
    ArrivalIsNew(s, arrived, out, expired, ref);
    ArriveWaiting(arrived, out, Waiting(s), expired, ref);
    KeyNonEmpty(ref);
    var t := Step(env, s, ev).state;
    assert t.lost[Key(ref)].ref == ref;
    forall j | j in s.lost ensures s.lost[j].ref in Waiting(t) { assert j in t.lost; }
    assert Waiting(t) == Waiting(s) + {ref};
  }

  lemma ExpireSequenced(env: Env, s: State, ev: Event, arrived: seq<Ref>, out: seq<Ref>, expired: set<Ref>)
    requires ev.Expire? && Enabled(env, s, ev) && ev.key in s.lost
    requires Sequenced(s, arrived, out, expired)
    ensures Sequenced(Step(env, s, ev).state, arrived, out + Refs(Step(env, s, ev).out),
                      expired + {s.lost[ev.key].ref})
  {
    hide Key;
    var t := s.(lost := s.lost - {ev.key});
    var gone := s.lost[ev.key].ref;
    WaitingWithout(s, ev.key);
    forall r | r in Waiting(t) ensures r != gone {
      assert Key(gone) == ev.key;
    }
    FlushSequenced(t, ev.order, arrived, out, expired + {gone});
  }

  lemma StepSequenced(env: Env, s: State, ev: Event, arrived: seq<Ref>, out: seq<Ref>, expired: set<Ref>)
    requires Inv(s) && Enabled(env, s, ev)
    requires Sequenced(s, arrived, out, expired)
    requires InSequence(arrived + Arrival(ev))
    requires ev.Retransmit? ==> FrameInOrder(env, ev.peer, s, ev.msgs)
    ensures Sequenced(Step(env, s, ev).state, arrived + Arrival(ev), out + Refs(Step(env, s, ev).out),
                      expired + Dropped(s, ev))
  {
    hide Key;
    assert expired + {} == expired && out + Refs([]) == out && arrived + [] == arrived;
    match ev
    case Deliver(_, _, _) => DeliverSequenced(env, s, ev, arrived, out, expired);
    case MarkLost(_, _, _) => MarkLostSequenced(env, s, ev, arrived, out, expired);
    case Retransmit(peer, msgs, order) =>
      var all := RetransmitAll(env, peer, s, msgs);
      RetransmitAllSequenced(env, peer, s, msgs, arrived, out, expired);
      FlushSequenced(all.state, order, arrived, out + Refs(all.out), expired);
      RefsAppend(out, all.out, Flush(all.state, order).out);
    case Expire(key, order) =>
      if key in s.lost { ExpireSequenced(env, s, ev, arrived, out, expired); }
  }

  // --- Whole runs -----------------------------------------------------------------------

  lemma {:induction false} RunKeepsInv(env: Env, evs: seq<Event>)
    requires ValidRun(env, evs)
    ensures Inv(Exec(env, evs).state)
  {
    hide Key;
    if evs != [] {
      RunKeepsInv(env, Front(evs));
      StepKeepsInv(env, Exec(env, Front(evs)).state, Last(evs));
    }
  }

  lemma InSequencePrefix(a: seq<Ref>, b: seq<Ref>)
    requires InSequence(a + b)
    ensures InSequence(a)
  {
    hide Key;
    forall i | 0 <= i < |a| ensures a[i] == (a + b)[i] {}
    forall i, j | 0 <= i < j < |a|
      ensures a[i].seqNo < a[j].seqNo && Key(a[i]) != Key(a[j])
    {
      assert (a + b)[i] == a[i] && (a + b)[j] == a[j];
    }
  }

  lemma StartSequenced()
    ensures Sequenced(EMPTY, [], [], {})
  {
    hide Key;
    assert Waiting(EMPTY) == {};
  }

  lemma {:induction false} RunSequenced(env: Env, evs: seq<Event>)
    requires ValidRun(env, evs)
    requires InSequence(Arrivals(evs)) && FramesInOrder(env, evs)
    ensures Sequenced(Exec(env, evs).state, Arrivals(evs), Refs(Exec(env, evs).emitted), Expired(env, evs))
  {
    hide Key, Step, Enabled, Sequenced, FrameInOrder;
    if evs == [] {
      StartSequenced();
      assert Refs([]) == [];
    } else {
      var front, last := Front(evs), Last(evs);
      var before := Exec(env, front);
      InSequencePrefix(Arrivals(front), Arrival(last));
      RunSequenced(env, front);
      RunKeepsInv(env, front);
      StepSequenced(env, before.state, last, Arrivals(front), Refs(before.emitted), Expired(env, front));
      var out := Step(env, before.state, last).out;
      assert Refs(before.emitted + out) == Refs(before.emitted) + Refs(out);
      assert Exec(env, evs).emitted == before.emitted + out;
    }
  }

  lemma RunIncreasing(env: Env, evs: seq<Event>)
    requires ValidRun(env, evs)
    requires InSequence(Arrivals(evs)) && FramesInOrder(env, evs)
    ensures Increasing(Refs(Exec(env, evs).emitted)) && Apart(Exec(env, evs).state)
  {
    hide Key, Exec, FramesInOrder, Apart;
    RunSequenced(env, evs);
  }

  /** The buffer is an in-order queue: over a run whose arrivals are in sequence and whose
      frames do not overtake the backlog, what has been emitted followed by the sorted
      list of what is still waiting is the arrivals without the expired ones. */
  lemma RunRefinesQueue(env: Env, evs: seq<Event>)
    requires ValidRun(env, evs)
    requires InSequence(Arrivals(evs)) && FramesInOrder(env, evs)
    ensures var end := Exec(env, evs);
            var arrived := Arrivals(evs);
            && Waiting(end.state) <= Elements(arrived)
            && Refs(end.emitted) + Keep(arrived, Waiting(end.state))
               == Keep(arrived, Elements(arrived) - Expired(env, evs))
  {
    hide Key;
    RunSequenced(env, evs);
    var arrived, out, waiting := Arrivals(evs), Refs(Exec(env, evs).emitted), Waiting(Exec(env, evs).state);
    var kept := Keep(arrived, waiting);
    KeepIncreasing(arrived, waiting);
    KeepIncreasing(arrived, Elements(arrived) - Expired(env, evs));
    assert Elements(arrived) * waiting == waiting;
    AppendIncreasing(out, kept);
    ElementsAppend(out, kept);
    IncreasingUnique(out + kept, Keep(arrived, Elements(arrived) - Expired(env, evs)));
  }

  // --- Which frames keep the order ------------------------------------------------------

  /** A one-message frame, the only kind a lost request asks for, never overtakes. */
  lemma SingleMessageFrameInOrder(env: Env, peer: string, s: State, msg: Payload)
    requires Inv(s) && Apart(s)
    ensures FrameInOrder(env, peer, s, [msg])
  {
    hide Key;
    var one := RetransmitOne(env, peer, s, msg);
    RetransmitOneFrees(env, peer, s, msg);
    QuiescentNeverOvertaken(s, one);
    assert [msg][1..] == [];
  }

  lemma QuiescentNeverOvertaken(s: State, o: Outcome)
    requires Inv(s) && FreesAtMostOne(s, o)
    ensures !Overtakes(s, o)
  {
    hide Key;
    forall e, k | e in o.out && k in s.pending ensures s.pending[k].ref.seqNo >= e.ref.seqNo {
      var freed :| freed in s.lost && FreesShell(s, o, freed);
      var l :| l in s.lost && BlocksSeq(s.lost[l], s.pending[k].ref);
      assert l != freed ==> l in o.state.lost && !BlocksSeq(o.state.lost[l], e.ref);
    }
  }

  lemma {:induction false} RetransmitKeepsPending(env: Env, peer: string, s: State, msgs: seq<Payload>, k: string)
    requires Apart(s) && k in s.pending
    ensures var t := RetransmitAll(env, peer, s, msgs).state;
            k in t.pending && t.pending[k] == s.pending[k]
    decreases |msgs|
  {
    hide Key;
    if msgs != [] {
      RetransmitOneFrees(env, peer, s, msgs[0]);
      RetransmitKeepsPending(env, peer, RetransmitOne(env, peer, s, msgs[0]).state, msgs[1..], k);
    }
  }

  lemma StaysFree(env: Env, peer: string, s: State, msgs: seq<Payload>, high: Ref, low: Ref)
    requires Keyed(s) && !Blocked(s.lost, high) && low.seqNo < high.seqNo && high.seqNo != 0
    ensures !Blocked(RetransmitAll(env, peer, s, msgs).state.lost, low)
  {
    hide Key;
    RetransmitShrinksLost(env, peer, s, msgs);
    forall k | k in s.lost ensures !BlocksSeq(s.lost[k], low) {
      assert !BlocksSeq(s.lost[k], high);
    }
    BlockedMonotone(RetransmitAll(env, peer, s, msgs).state.lost, s.lost, low);
  }

  lemma DisorderInside(a: seq<Ref>, b: seq<Ref>, c: seq<Ref>)
    requires !Increasing(b)
    ensures !Increasing(a + b + c)
  {
    var i, j :| 0 <= i < j < |b| && b[i].seqNo >= b[j].seqNo;
    assert (a + b + c)[|a| + i] == b[i] && (a + b + c)[|a| + j] == b[j];
  }

  /** The overtaken message is still held back when the frame ends and goes out with the
      final release, after the one that overtook it. */
  lemma OvertakenComesOutLater(env: Env, peer: string, s: State, o: Outcome, msgs: seq<Payload>, order: seq<string>)
    requires Apart(s) && Apart(o.state) && FreesAtMostOne(s, o) && Overtakes(s, o)
    requires ReleaseOrder(RetransmitAll(env, peer, o.state, msgs).state, order)
    ensures !Increasing(Refs(o.out + RetransmitAll(env, peer, o.state, msgs).out
                             + Emissions(RetransmitAll(env, peer, o.state, msgs).state.pending, order)))
  {
    hide Key;
    var e, k :| e in o.out && k in s.pending && s.pending[k].ref.seqNo < e.ref.seqNo;
    var freed :| freed in s.lost && FreesShell(s, o, freed);
    var rest := RetransmitAll(env, peer, o.state, msgs);
    RetransmitKeepsPending(env, peer, o.state, msgs, k);
    StaysFree(env, peer, o.state, msgs, e.ref, s.pending[k].ref);
    assert k in Elements(order);
    var i :| 0 <= i < |order| && order[i] == k;
    var all := Refs(o.out + rest.out + Emissions(rest.state.pending, order));
    assert all[0] == e.ref && all[1 + |rest.out| + i] == s.pending[k].ref;
  }

  /** A frame that overtakes the backlog emits out of order, whatever the map order. */
  lemma {:induction false} OvertakingDisorders(env: Env, peer: string, s: State, msgs: seq<Payload>, order: seq<string>)
    requires Apart(s) && !FrameInOrder(env, peer, s, msgs)
    requires ReleaseOrder(RetransmitAll(env, peer, s, msgs).state, order)
    ensures !Increasing(Refs(RetransmitAll(env, peer, s, msgs).out
                             + Emissions(RetransmitAll(env, peer, s, msgs).state.pending, order)))
    decreases |msgs|
  {
    hide Key, RetransmitOne, FreesAtMostOne;
    var one := RetransmitOne(env, peer, s, msgs[0]);
    var rest := RetransmitAll(env, peer, one.state, msgs[1..]);
    RetransmitOneFrees(env, peer, s, msgs[0]);
    if Overtakes(s, one) {
      OvertakenComesOutLater(env, peer, s, one, msgs[1..], order);
    } else {
      OvertakingDisorders(env, peer, one.state, msgs[1..], order);
      var released := Emissions(rest.state.pending, order);
      DisorderInside(Refs(one.out), Refs(rest.out + released), []);
      assert Refs(one.out) + Refs(rest.out + released) + [] == Refs(one.out + rest.out + released);
    }
  }

  lemma OvertakingStepDisorders(env: Env, s: State, ev: Event)
    requires ev.Retransmit? && Apart(s) && Enabled(env, s, ev) && !FrameInOrder(env, ev.peer, s, ev.msgs)
    ensures !Increasing(Refs(Step(env, s, ev).out))
  {
    hide Key, Apart, FrameInOrder, RetransmitAll, Increasing, Refs, ReleaseOrder;
    OvertakingDisorders(env, ev.peer, s, ev.msgs, ev.order);
  }

  /** Exactly when a run emits in order: over in-sequence arrivals the output is strictly
      increasing if and only if no frame overtakes the backlog. */
  lemma {:induction false} OrderedExactlyWhen(env: Env, evs: seq<Event>)
    requires ValidRun(env, evs) && InSequence(Arrivals(evs))
    ensures Increasing(Refs(Exec(env, evs).emitted)) <==> FramesInOrder(env, evs)
  {
    hide Key, Step, Enabled, FrameInOrder, InSequence, Increasing, Apart, Refs;
    if FramesInOrder(env, evs) {
      RunIncreasing(env, evs);
    } else {
      var front, last := Front(evs), Last(evs);
      var before := Exec(env, front);
      var out := Step(env, before.state, last).out;
      InSequencePrefix(Arrivals(front), Arrival(last));
      assert Refs(before.emitted + out) == Refs(before.emitted) + Refs(out);
      if !FramesInOrder(env, front) {
        OrderedExactlyWhen(env, front);
        DisorderInside([], Refs(before.emitted), Refs(out));
        assert [] + Refs(before.emitted) + Refs(out) == Refs(before.emitted + out);
      } else {
        RunIncreasing(env, front);
        OvertakingStepDisorders(env, before.state, last);
        DisorderInside(Refs(before.emitted), Refs(out), []);
        assert Refs(before.emitted) + Refs(out) + [] == Refs(before.emitted + out);
      }
    }
  }

  /** Runs whose frames carry one message each are always in order. */
  lemma {:induction false} SingleMessageRunsInOrder(env: Env, evs: seq<Event>)
    requires ValidRun(env, evs) && InSequence(Arrivals(evs))
    requires forall i :: 0 <= i < |evs| && evs[i].Retransmit? ==> |evs[i].msgs| <= 1
    ensures FramesInOrder(env, evs)
  {
    hide Key, Step, Enabled, InSequence, Increasing, Refs, Inv, Apart;
    if evs != [] {
      var front, last := Front(evs), Last(evs);
      InSequencePrefix(Arrivals(front), Arrival(last));
      SingleMessageRunsInOrder(env, front);
      RunIncreasing(env, front);
      RunKeepsInv(env, front);
      if last.Retransmit? && last.msgs != [] {
        assert last.msgs == [last.msgs[0]];
        SingleMessageFrameInOrder(env, last.peer, Exec(env, front).state, last.msgs[0]);
      }
    }
  }

  lemma Extend(env: Env, evs: seq<Event>, ev: Event)
    requires ValidRun(env, evs) && Enabled(env, Exec(env, evs).state, ev)
    ensures ValidRun(env, evs + [ev])
    ensures var step := Step(env, Exec(env, evs).state, ev);
            Exec(env, evs + [ev]) == Trace(step.state, Exec(env, evs).emitted + step.out)
    ensures Arrivals(evs + [ev]) == Arrivals(evs) + Arrival(ev)
    ensures FramesInOrder(env, evs + [ev]) && ev.Retransmit? ==>
              FrameInOrder(env, ev.peer, Exec(env, evs).state, ev.msgs)
  {
    hide Key, Step, Enabled, FrameInOrder;
    assert Front(evs + [ev]) == evs && Last(evs + [ev]) == ev;
  }

  lemma TwoGaps(env: Env, a: Ref, b: Ref, c: Ref, item: Item) returns (s: State, evs: seq<Event>)
    requires Key(a) != Key(b) && Key(a) != Key(c) && Key(b) != Key(c)
    requires Key(a) != "" && Key(c) != ""
    requires a.seqNo == 10 && b.seqNo == 15 && c.seqNo == 20
    ensures s == State(map[Key(a) := Shell(a, "", 2, MsgData(a, [])), Key(c) := Shell(c, "", 2, MsgData(c, []))],
                       map[Key(b) := PendingMsg(b, item)])
    ensures ValidRun(env, evs) && Exec(env, evs).state == s && Arrivals(evs) == [a, b, c]
  {
    hide Key;
    KeyNonEmpty(a);
    KeyNonEmpty(c);
    var e1, e2, e3 := MarkLost("", 2, MsgData(a, [])), Deliver(b, item, []), MarkLost("", 2, MsgData(c, []));
    Extend(env, [], e1);
    assert [] + [e1] == [e1];
    var s1 := Exec(env, [e1]).state;
    assert s1 == State(map[Key(a) := Shell(a, "", 2, MsgData(a, []))], map[]);
    assert BlocksSeq(s1.lost[Key(a)], b);
    Extend(env, [e1], e2);
    Extend(env, [e1] + [e2], e3);
    s, evs := Exec(env, [e1] + [e2] + [e3]).state, [e1] + [e2] + [e3];
  }

  /** Two gaps filled by one frame with a message held back between them: numbers 10, 15
      and 20 arrive, 10 and 20 are missing, and the frame's restored 20 overtakes 15. */
  lemma TwoMessageFrameCanDisorder(env: Env)
    requires forall m :: env.rebuild(m).Some?
    ensures exists evs :: ValidRun(env, evs) && InSequence(Arrivals(evs))
                          && !Increasing(Refs(Exec(env, evs).emitted))
  {
    hide Key, ValidRun, Exec, Arrivals, Increasing, Refs, FrameInOrder, FramesInOrder, Enabled, ReleaseOrder, RetransmitAll;
    var a, b, c := ClientRef("a", 10), ClientRef("b", 15), ClientRef("c", 20);
    ClientRefKey("a", 10);
    ClientRefKey("b", 15);
    ClientRefKey("c", 20);
    assert "a" != "b" && "a" != "c" && "b" != "c";
    var s, evs := TwoGaps(env, a, b, c, Item("", "", 2, []));
    var msgs := [Payload(a, []), Payload(c, [])];
    var order := TwoGapsOvertake(env, s, a, b, c, msgs);
    var ev := Retransmit("", msgs, order);
    EnabledRetransmit(env, s, ev);
    Extend(env, evs, ev);
    ThreeInSequence(a, b, c);
    assert Arrivals(evs + [ev]) == [a, b, c];
    OrderedExactlyWhen(env, evs + [ev]);
  }

  lemma EnabledRetransmit(env: Env, s: State, ev: Event)
    requires ev.Retransmit? && ReleaseOrder(RetransmitAll(env, ev.peer, s, ev.msgs).state, ev.order)
    ensures Enabled(env, s, ev)
  {
    hide Key, RetransmitAll, ReleaseOrder;
  }

  function ClientRef(id: string, seqNo: int): Ref {
    Ref("", "", id, "", seqNo)
  }

  lemma ClientRefKey(id: string, seqNo: int)
    requires id != ""
    ensures Key(ClientRef(id, seqNo)) != ""
    ensures forall other, n :: other != "" && other != id ==> Key(ClientRef(other, n)) != Key(ClientRef(id, seqNo))
  {
    assert forall x, n :: x != "" ==> Key(ClientRef(x, n)) == ClientKey(x);
    assert forall x :: ClientKey(x)[7..] == x;
  }

  lemma ThreeInSequence(a: Ref, b: Ref, c: Ref)
    requires Key(a) != Key(b) && Key(a) != Key(c) && Key(b) != Key(c)
    requires 0 < a.seqNo < b.seqNo < c.seqNo
    ensures InSequence([a, b, c])
  {
    hide Key;
  }

  lemma TwoGapsOvertake(env: Env, s: State, a: Ref, b: Ref, c: Ref, msgs: seq<Payload>) returns (order: seq<string>)
    requires forall m :: env.rebuild(m).Some?
    requires Key(a) != Key(c) && s.lost.Keys == {Key(a), Key(c)} && s.pending.Keys == {Key(b)}
    requires s.lost[Key(a)].ref == a && s.lost[Key(c)].ref == c && s.pending[Key(b)].ref == b
    requires 0 < a.seqNo < b.seqNo < c.seqNo
    requires msgs == [Payload(a, []), Payload(c, [])]
    ensures ReleaseOrder(RetransmitAll(env, "", s, msgs).state, order)
    ensures !FrameInOrder(env, "", s, msgs)
  {
    hide Key;
    order := [Key(b)];
    var one := RetransmitOne(env, "", s, msgs[0]);
    assert one.state == s.(lost := s.lost - {Key(a)});
    assert !Blocked(one.state.lost, a);
    var two := RetransmitOne(env, "", one.state, msgs[1]);
    assert two.state.lost == map[] && two.state.pending == s.pending;
    assert two.out[0].ref == c && two.out[0] in two.out && Key(b) in one.state.pending;
    assert Overtakes(one.state, two);
    assert msgs[1..] == [msgs[1]] && msgs[1..][1..] == [];
    assert RetransmitAll(env, "", one.state, msgs[1..]).state == two.state;
    assert Elements(order) == {Key(b)};
  }
}
