/** What the reorder buffer keeps whatever the order of arrivals and frames: nothing is
    lost, nothing is duplicated; and when a second arrival replaces a held-back one. */
module ReorderConservation {
  import opened Common
  import opened MessageRef
  import opened ReorderSpec
  import opened ReorderRuns

  /** The arrivals a session takes up: a message marked lost without identity is ignored. */
  function TakenUp(ev: Event): seq<Ref> {
    match ev
    case Deliver(ref, _, _) => [ref]
    case MarkLost(_, _, msgData) => if HasIdentity(msgData.ref) then [msgData.ref] else []
    case _ => []
  }

  function AllTakenUp(evs: seq<Event>): seq<Ref> {
    if evs == [] then [] else AllTakenUp(Front(evs)) + TakenUp(Last(evs))
  }

  predicate KeysDistinct(refs: seq<Ref>) {
    forall i, j :: 0 <= i < j < |refs| ==> Key(refs[i]) != Key(refs[j])
  }

  /** Every arrival has been emitted, is waiting or has expired, and only one of these. */
  ghost predicate Conserved(came: set<Ref>, out: seq<Ref>, waiting: set<Ref>, expired: set<Ref>) {
    && NoDuplicates(out)
    && came == Elements(out) + waiting + expired
    && Elements(out) !! waiting
    && expired !! (Elements(out) + waiting)
  }

  // --- One change at a time ---------------------------------------------------------------

  lemma EmitMore(came: set<Ref>, out: seq<Ref>, waiting: set<Ref>, expired: set<Ref>, more: seq<Ref>, left: set<Ref>)
    requires Conserved(came, out, waiting, expired)
    requires NoDuplicates(more) && waiting == Elements(more) + left && Elements(more) !! left
    ensures Conserved(came, out + more, left, expired)
  {
    ElementsAppend(out, more);
    var all := out + more;
    forall i, j | 0 <= i < j < |all| ensures all[i] != all[j] {
      if i < |out| <= j {
        assert out[i] in Elements(out) && more[j - |out|] in Elements(more);
      }
    }
  }

  lemma OnlyHolder(s: State, k: string)
    requires Apart(s) && k in s.lost
    ensures s.lost[k].ref !in Waiting(s.(lost := s.lost - {k}))
  {
    hide Key;
    var t := s.(lost := s.lost - {k});
    forall j | j in t.lost ensures t.lost[j].ref != s.lost[k].ref {
      assert j == Key(t.lost[j].ref) && k == Key(s.lost[k].ref);
    }
    forall j | j in t.pending ensures t.pending[j].ref != s.lost[k].ref {
      assert j == Key(t.pending[j].ref) && k == Key(s.lost[k].ref);
    }
  }

  lemma FreeOneConserves(s: State, o: Outcome, came: set<Ref>, out: seq<Ref>, expired: set<Ref>)
    requires Apart(s) && FreesAtMostOne(s, o) && Conserved(came, out, Waiting(s), expired)
    ensures Conserved(came, out + Refs(o.out), Waiting(o.state), expired)
  {
    hide Key, Conserved;
    if o.out == [] {
      assert out + Refs(o.out) == out;
    } else {
      var k :| k in s.lost && FreesShell(s, o, k);
      var e := s.lost[k].ref;
      assert Refs(o.out) == [e] && Elements([e]) == {e};
      WaitingWithout(s, k);
      OnlyHolder(s, k);
      EmitMore(came, out, Waiting(s), expired, [e], Waiting(o.state));
    }
  }

  lemma {:induction false} FrameConserves(env: Env, peer: string, s: State, msgs: seq<Payload>,
                                          came: set<Ref>, out: seq<Ref>, expired: set<Ref>)
    requires Apart(s) && Conserved(came, out, Waiting(s), expired)
    ensures var all := RetransmitAll(env, peer, s, msgs);
            Apart(all.state) && Conserved(came, out + Refs(all.out), Waiting(all.state), expired)
    decreases |msgs|
  {
    hide Key, Conserved, Waiting, RetransmitOne, FreesAtMostOne, Apart;
    if msgs == [] {
      assert out + Refs([]) == out;
    } else {
      var one := RetransmitOne(env, peer, s, msgs[0]);
      RetransmitOneFrees(env, peer, s, msgs[0]);
      FreeOneConserves(s, one, came, out, expired);
      FrameConserves(env, peer, one.state, msgs[1..], came, out + Refs(one.out), expired);
      RefsAppend(out, one.out, RetransmitAll(env, peer, one.state, msgs[1..]).out);
    }
  }

  lemma ReleasedOnce(s: State, order: seq<string>)
    requires Apart(s) && ReleaseOrder(s, order)
    ensures NoDuplicates(Refs(Emissions(s.pending, order)))
    ensures Elements(Refs(Emissions(s.pending, order))) !! Waiting(Flush(s, order).state)
  {
    hide Key;
    var t := Flush(s, order).state;
    var rs := Refs(Emissions(s.pending, order));
    forall i, j | 0 <= i < j < |rs| ensures rs[i] != rs[j] {
      assert order[i] == Key(rs[i]) && order[j] == Key(rs[j]);
    }
    forall r | r in Elements(rs) ensures r !in Waiting(t) {
      var i :| 0 <= i < |rs| && rs[i] == r;
      assert order[i] in Elements(order) && order[i] == Key(r) && order[i] in s.pending;
      assert order[i] !in t.lost && order[i] !in t.pending;
    }
  }

  lemma FlushConserves(s: State, order: seq<string>, came: set<Ref>, out: seq<Ref>, expired: set<Ref>)
    requires Apart(s) && ReleaseOrder(s, order) && Conserved(came, out, Waiting(s), expired)
    ensures Apart(Flush(s, order).state)
    ensures Conserved(came, out + Refs(Flush(s, order).out), Waiting(Flush(s, order).state), expired)
  {
    hide Key, Conserved, Waiting, ReadyKeys;
    ReleasedElements(s, order);
    WaitingAfterFlush(s);
    ReleasedOnce(s, order);
    EmitMore(came, out, Waiting(s), expired, Refs(Emissions(s.pending, order)), Waiting(Flush(s, order).state));
  }

  lemma ExpiryConserves(s: State, k: string, came: set<Ref>, out: seq<Ref>, expired: set<Ref>)
    requires Apart(s) && k in s.lost && Conserved(came, out, Waiting(s), expired)
    ensures Apart(s.(lost := s.lost - {k}))
    ensures Conserved(came, out, Waiting(s.(lost := s.lost - {k})), expired + {s.lost[k].ref})
  {
    hide Key, Waiting;
    WaitingWithout(s, k);
    OnlyHolder(s, k);
  }

  // --- Arrivals ---------------------------------------------------------------------------

  /** Whatever is stored came in under the key it is stored under. */
  lemma NewKeyIsFree(s: State, came: seq<Ref>, ref: Ref)
    requires Apart(s) && Waiting(s) <= Elements(came) && KeysDistinct(came + [ref])
    ensures Key(ref) !in s.lost && Key(ref) !in s.pending && ref !in Elements(came)
    ensures Elements(came + [ref]) == Elements(came) + {ref}
  {
    hide Key;
    var all := came + [ref];
    forall r | r in Elements(came) ensures Key(r) != Key(ref) {
      var i :| 0 <= i < |came| && came[i] == r;
      assert all[i] == r && all[|came|] == ref;
    }
    assert Key(ref) in s.lost ==> s.lost[Key(ref)].ref in Waiting(s);
    assert Key(ref) in s.pending ==> s.pending[Key(ref)].ref in Waiting(s);
    ElementsAppend(came, [ref]);
  }

  lemma ArrivalConserves(came: set<Ref>, out: seq<Ref>, waiting: set<Ref>, expired: set<Ref>, ref: Ref)
    requires Conserved(came, out, waiting, expired) && ref !in came
    ensures Conserved(came + {ref}, out, waiting + {ref}, expired)
  {
  }

  lemma DeliverConserves(env: Env, s: State, ev: Event, came: seq<Ref>, out: seq<Ref>, expired: set<Ref>)
    requires ev.Deliver? && Inv(s) && Apart(s) && Enabled(env, s, ev)
    requires Conserved(Elements(came), out, Waiting(s), expired) && KeysDistinct(came + [ev.ref])
    ensures var step := Step(env, s, ev);
            Apart(step.state)
            && Conserved(Elements(came + [ev.ref]), out + Refs(step.out), Waiting(step.state), expired)
  {
    hide Key, Inv;
    NewKeyIsFree(s, came, ev.ref);
    ArrivalConserves(Elements(came), out, Waiting(s), expired, ev.ref);
    var step := Step(env, s, ev);
    if Blocked(s.lost, ev.ref) {
      hide Conserved, Waiting;
      assert out + Refs(step.out) == out;
      WaitingHeld(s, PendingMsg(ev.ref, ev.item));
    } else {
      DeliverFlushReleasesNothing(s, ev.order);
      assert Refs(step.out) == [ev.ref] && Elements([ev.ref]) == {ev.ref};
      assert ev.ref !in Waiting(s);
      EmitMore(Elements(came + [ev.ref]), out, Waiting(s) + {ev.ref}, expired, [ev.ref], Waiting(s));
    }
  }

  lemma WaitingMarked(s: State, shell: Shell)
    requires Key(shell.ref) !in s.lost
    ensures Waiting(s.(lost := s.lost[Key(shell.ref) := shell])) == Waiting(s) + {shell.ref}
  {
    hide Key;
    var t := s.(lost := s.lost[Key(shell.ref) := shell]);
    assert t.lost[Key(shell.ref)] == shell;
    forall j | j in s.lost ensures s.lost[j].ref in Waiting(t) { assert j in t.lost; }
  }

  lemma MarkLostConserves(env: Env, s: State, ev: Event, came: seq<Ref>, out: seq<Ref>, expired: set<Ref>)
    requires ev.MarkLost? && Apart(s) && Conserved(Elements(came), out, Waiting(s), expired)
    requires KeysDistinct(came + TakenUp(ev))
    ensures var step := Step(env, s, ev);
            Apart(step.state)
            && Conserved(Elements(came + TakenUp(ev)), out + Refs(step.out), Waiting(step.state), expired)
  {
    hide Key, Waiting, Conserved, KeysDistinct, HasIdentity;
    var ref := ev.msgData.ref;
    assert out + Refs(Step(env, s, ev).out) == out;
    if HasIdentity(ref) {
      KeyNonEmpty(ref);
      WithinArrivals(came, out, Waiting(s), expired);
      NewKeyIsFree(s, came, ref);
      ArrivalConserves(Elements(came), out, Waiting(s), expired, ref);
      WaitingMarked(s, Shell(ref, ev.peerID, ev.msgType, ev.msgData));
    } else {
      assert came + TakenUp(ev) == came;
    }
  }

  lemma WithinArrivals(came: seq<Ref>, out: seq<Ref>, waiting: set<Ref>, expired: set<Ref>)
    requires Conserved(Elements(came), out, waiting, expired)
    ensures waiting <= Elements(came)
  {
  }

  lemma StepConserves(env: Env, s: State, ev: Event, came: seq<Ref>, out: seq<Ref>, expired: set<Ref>)
    requires Inv(s) && Apart(s) && Enabled(env, s, ev)
    requires Conserved(Elements(came), out, Waiting(s), expired) && KeysDistinct(came + TakenUp(ev))
    ensures var step := Step(env, s, ev);
            Apart(step.state)
            && Conserved(Elements(came + TakenUp(ev)), out + Refs(step.out), Waiting(step.state), expired + Dropped(s, ev))
  {
    hide Key, Inv, Apart, Waiting, Conserved, KeysDistinct, Flush, ReleaseOrder, RetransmitAll, HasIdentity, Blocked;
    assert expired + {} == expired;
    match ev
    case Deliver(ref, item, order) => DeliverConserves(env, s, ev, came, out, expired);
    case MarkLost(_, _, _) => MarkLostConserves(env, s, ev, came, out, expired);
    case Retransmit(peer, msgs, order) =>
      assert came + [] == came;
      var all := RetransmitAll(env, peer, s, msgs);
      FrameConserves(env, peer, s, msgs, Elements(came), out, expired);
      FlushConserves(all.state, order, Elements(came), out + Refs(all.out), expired);
      RefsAppend(out, all.out, Flush(all.state, order).out);
    case Expire(key, order) =>
      assert came + [] == came;
      if key in s.lost {
        ExpiryConserves(s, key, Elements(came), out, expired);
        FlushConserves(s.(lost := s.lost - {key}), order, Elements(came), out, expired + {s.lost[key].ref});
      } else {
        assert out + Refs([]) == out;
      }
  }

  lemma DistinctPrefix(a: seq<Ref>, b: seq<Ref>)
    requires KeysDistinct(a + b)
    ensures KeysDistinct(a)
  {
    hide Key;
    forall i, j | 0 <= i < j < |a| ensures Key(a[i]) != Key(a[j]) {
      assert (a + b)[i] == a[i] && (a + b)[j] == a[j];
    }
  }

  lemma NothingCame()
    ensures Apart(EMPTY) && Conserved(Elements([]), [], Waiting(EMPTY), {})
  {
    assert Waiting(EMPTY) == {};
  }

  /** Conservation, for arrivals with distinct keys in any order and frames of any shape: the
      emitted references have no repeats, and with the waiting and the expired ones, from
      which they are disjoint, they make up the arrivals. */
  lemma {:induction false} RunConserves(env: Env, evs: seq<Event>)
    requires ValidRun(env, evs) && KeysDistinct(AllTakenUp(evs))
    ensures Apart(Exec(env, evs).state)
    ensures Conserved(Elements(AllTakenUp(evs)), Refs(Exec(env, evs).emitted), Waiting(Exec(env, evs).state),
                      Expired(env, evs))
  {
    hide Key, Step, Enabled, Conserved, KeysDistinct, Apart, Waiting, TakenUp;
    if evs == [] {
      NothingCame();
      assert Refs([]) == [];
    } else {
      var front, last := Front(evs), Last(evs);
      var before := Exec(env, front);
      DistinctPrefix(AllTakenUp(front), TakenUp(last));
      RunConserves(env, front);
      RunKeepsInv(env, front);
      StepConserves(env, before.state, last, AllTakenUp(front), Refs(before.emitted), Expired(env, front));
      assert Refs(before.emitted + Step(env, before.state, last).out)
             == Refs(before.emitted) + Refs(Step(env, before.state, last).out);
    }
  }

  // --- When a second arrival replaces a held-back one -------------------------------------

  /** Without distinct keys, the one way an arrival makes a held-back message vanish: another
      message is delivered under the same key while a lower number is missing. */
  lemma HeldBackVanishesExactlyWhen(env: Env, s: State, ev: Event, k: string)
    requires (ev.Deliver? || ev.MarkLost?) && Inv(s) && Enabled(env, s, ev) && k in s.pending
    ensures var t := Step(env, s, ev).state;
            k in t.pending
            && (t.pending[k] != s.pending[k]
                <==> ev.Deliver? && Key(ev.ref) == k && Blocked(s.lost, ev.ref) && PendingMsg(ev.ref, ev.item) != s.pending[k])
  {
    hide Key, Inv, Blocked, ReleaseOrder, Flush, HasIdentity;
    if ev.Deliver? && !Blocked(s.lost, ev.ref) {
      DeliverFlushReleasesNothing(s, ev.order);
    }
  }

  /** A message is not marked lost exactly when it has no identity or one with the same
      identity is missing already; otherwise exactly its shell is added. */
  lemma MarkIgnoredExactlyWhen(env: Env, s: State, ev: Event)
    requires ev.MarkLost? && Inv(s) && Enabled(env, s, ev)
    ensures var ref := ev.msgData.ref;
            var t := Step(env, s, ev).state;
            && t.pending == s.pending
            && (t.lost == s.lost <==> !HasIdentity(ref) || exists k :: k in s.lost && SameIdentity(s.lost[k].ref, ref))
            && (t.lost != s.lost ==>
                  t.lost == s.lost[Key(ref) := Shell(ref, ev.peerID, ev.msgType, ev.msgData)] && Key(ref) !in s.lost)
  {
    hide Key, HasIdentity, SameIdentity;
    var ref := ev.msgData.ref;
    KeyNonEmpty(ref);
    forall k | k in s.lost ensures k == Key(ref) && HasIdentity(ref) <==> SameIdentity(s.lost[k].ref, ref) {
      assert k != "" && k == Key(s.lost[k].ref);
      FiledTogetherExactlyWhen(s.lost[k].ref, ref);
    }
    if HasIdentity(ref) && Key(ref) !in s.lost {
      assert Key(ref) in Step(env, s, ev).state.lost;
    }
  }
}
