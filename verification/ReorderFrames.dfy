/** Which retransmit frames break the order, told from the maps and the frame before it is
    handled. */
module ReorderFrames {
  import opened Common
  import opened MessageRef
  import opened ReorderSpec
  import opened ReorderRuns

  /** The shell a message fills, if it is waiting and its bytes can be rebuilt. */
  function Target(env: Env, lost: map<string, Shell>, msg: Payload): (k: Option<string>)
    ensures k.Some? ==> k.value in lost
  {
    match FindShell(lost, msg.ref)
    case None => None
    case Some(k) => if env.rebuild(MsgData(lost[k].ref, msg.content)).Some? then Some(k) else None
  }

  /** The shells that the first `j` messages of a frame fill. */
  function Restored(env: Env, lost: map<string, Shell>, msgs: seq<Payload>, j: nat): (keys: set<string>)
    requires j <= |msgs|
    ensures keys <= lost.Keys
    decreases j, 0
  {
    if j == 0 then {}
    else
      var t := TargetAt(env, lost, msgs, j - 1);
      Restored(env, lost, msgs, j - 1) + if t.Some? then {t.value} else {}
  }

  /** The shell that message `j` fills, those before it having been handled. */
  function TargetAt(env: Env, lost: map<string, Shell>, msgs: seq<Payload>, j: nat): (k: Option<string>)
    requires j < |msgs|
    ensures k.Some? ==> k.value in lost
    decreases j, 1
  {
    Target(env, lost - Restored(env, lost, msgs, j), msgs[j])
  }

  /** A lower number than that of `ref` is still missing after the first `j` messages. */
  predicate GapAfter(env: Env, lost: map<string, Shell>, msgs: seq<Payload>, j: nat, ref: Ref)
    requires j <= |msgs|
  {
    exists l :: l in lost && l !in Restored(env, lost, msgs, j) && BlocksSeq(lost[l], ref)
  }

  /** Message `i` fills the shell of `k`, which then has to wait. */
  predicate HeldAt(env: Env, lost: map<string, Shell>, msgs: seq<Payload>, i: nat, k: string)
    requires i < |msgs|
  {
    TargetAt(env, lost, msgs, i) == Some(k) && GapAfter(env, lost, msgs, i + 1, lost[k].ref)
  }

  /** Something with a lower number than `ref` is held back when message `j` comes: since
      before the frame, or by an earlier message of it. */
  predicate LowerHeld(env: Env, s: State, msgs: seq<Payload>, j: nat, ref: Ref)
    requires j <= |msgs|
  {
    || (exists k :: k in s.pending && s.pending[k].ref.seqNo < ref.seqNo)
    || (exists i, k :: 0 <= i < j && k in s.lost && HeldAt(env, s.lost, msgs, i, k) && s.lost[k].ref.seqNo < ref.seqNo)
  }

  /** Message `j` restores something that nothing missing is below any more, although
      something held back is. */
  predicate OvertakesAt(env: Env, s: State, msgs: seq<Payload>, j: nat)
    requires j < |msgs|
  {
    var k := TargetAt(env, s.lost, msgs, j);
    k.Some?
    && !GapAfter(env, s.lost, msgs, j + 1, s.lost[k.value].ref)
    && LowerHeld(env, s, msgs, j, s.lost[k.value].ref)
  }

  predicate OvertakingFrame(env: Env, s: State, msgs: seq<Payload>) {
    exists j: nat :: j < |msgs| && OvertakesAt(env, s, msgs, j)
  }

  // --- The maps while a frame is handled ---------------------------------------------------

  function StateAt(env: Env, peer: string, s: State, msgs: seq<Payload>, j: nat): State
    requires j <= |msgs|
  {
    if j == 0 then s else RetransmitOne(env, peer, StateAt(env, peer, s, msgs, j - 1), msgs[j - 1]).state
  }

  lemma {:induction false} StateAtShift(env: Env, peer: string, s: State, msgs: seq<Payload>, j: nat)
    requires msgs != [] && j < |msgs|
    ensures StateAt(env, peer, s, msgs, j + 1)
            == StateAt(env, peer, RetransmitOne(env, peer, s, msgs[0]).state, msgs[1..], j)
  {
    hide RetransmitOne;
    if j > 0 {
      StateAtShift(env, peer, s, msgs, j - 1);
      assert msgs[1..][j - 1] == msgs[j];
    }
  }

  lemma {:induction false} FrameByMessage(env: Env, peer: string, s: State, msgs: seq<Payload>)
    ensures FrameInOrder(env, peer, s, msgs)
            <==> forall j: nat :: j < |msgs| ==>
                   !Overtakes(StateAt(env, peer, s, msgs, j), RetransmitOne(env, peer, StateAt(env, peer, s, msgs, j), msgs[j]))
    decreases |msgs|
  {
    hide RetransmitOne, Overtakes;
    if msgs != [] {
      var next := RetransmitOne(env, peer, s, msgs[0]).state;
      var rest := msgs[1..];
      FrameByMessage(env, peer, next, rest);
      forall j: nat | j < |rest|
        ensures StateAt(env, peer, s, msgs, j + 1) == StateAt(env, peer, next, rest, j) && msgs[j + 1] == rest[j]
      {
        StateAtShift(env, peer, s, msgs, j);
      }
      assert StateAt(env, peer, s, msgs, 0) == s;
      assert forall j: nat :: 0 < j < |msgs| ==> StateAt(env, peer, s, msgs, j) == StateAt(env, peer, next, rest, j - 1);
      assert forall j: nat :: j < |rest| ==> rest[j] == msgs[j + 1];
    }
  }

  /** The maps after `j` messages, from the maps before the frame: the filled shells are
      gone, and those filled above a gap are held back. */
  ghost predicate MapsAt(env: Env, s: State, msgs: seq<Payload>, j: nat, t: State)
    requires j <= |msgs|
  {
    && t.lost.Keys == s.lost.Keys - Restored(env, s.lost, msgs, j)
    && (forall k :: k in t.lost ==> t.lost[k].ref == s.lost[k].ref)
    && (forall k :: k in s.pending ==> k in t.pending && t.pending[k].ref == s.pending[k].ref)
    && (forall i, k :: 0 <= i < j && HeldAt(env, s.lost, msgs, i, k) ==> k in t.pending && t.pending[k].ref == s.lost[k].ref)
    && (forall k :: k in t.pending && k !in s.pending ==> exists i :: 0 <= i < j && HeldAt(env, s.lost, msgs, i, k))
  }

  lemma SameKeysSameShell(a: map<string, Shell>, b: map<string, Shell>, ref: Ref)
    requires a.Keys == b.Keys
    ensures FindShell(a, ref) == FindShell(b, ref)
  {
    hide Key, ClientKey, ServerKey, SeqKey;
    assert forall k :: k in a <==> k in b;
  }

  lemma GapByMaps(env: Env, s: State, msgs: seq<Payload>, j: nat, lost: map<string, Shell>, ref: Ref)
    requires j <= |msgs| && lost.Keys == s.lost.Keys - Restored(env, s.lost, msgs, j)
    requires forall k :: k in lost ==> lost[k].ref == s.lost[k].ref
    ensures Blocked(lost, ref) <==> GapAfter(env, s.lost, msgs, j, ref)
  {
    hide Restored;
    forall l | l in s.lost && l !in Restored(env, s.lost, msgs, j) ensures l in lost && lost[l].ref == s.lost[l].ref {
      assert l in lost.Keys;
    }
  }

  /** What message `j` does, told from the maps before the frame. */
  lemma MessageAt(env: Env, peer: string, s: State, msgs: seq<Payload>, j: nat, t: State)
    requires Keyed(s) && Keyed(t) && j < |msgs| && MapsAt(env, s, msgs, j, t)
    ensures var one := RetransmitOne(env, peer, t, msgs[j]);
            match TargetAt(env, s.lost, msgs, j)
            case None =>
              one.out == [] && one.state.lost.Keys == t.lost.Keys && one.state.pending == t.pending
              && forall k :: k in t.lost ==> one.state.lost[k].ref == t.lost[k].ref
            case Some(k) =>
              && k in t.lost && one.state.lost == t.lost - {k}
              && if GapAfter(env, s.lost, msgs, j + 1, s.lost[k].ref)
                 then one.out == [] && k in one.state.pending && one.state.pending[k].ref == s.lost[k].ref
                      && one.state.pending == t.pending[k := one.state.pending[k]]
                 else |one.out| == 1 && one.out[0].ref == s.lost[k].ref && one.state.pending == t.pending
  {
    hide Key, ClientKey, ServerKey, SeqKey, FindShell, HeldAt, GapAfter, Blocked;
    var before := s.lost - Restored(env, s.lost, msgs, j);
    assert before.Keys == t.lost.Keys;
    SameKeysSameShell(t.lost, before, msgs[j].ref);
    var found := FindShell(t.lost, msgs[j].ref);
    if found.Some? {
      var k := found.value;
      assert k in before && before[k] == s.lost[k] && t.lost[k].ref == s.lost[k].ref;
      assert t.lost[k].msgData.(content := msgs[j].content) == MsgData(s.lost[k].ref, msgs[j].content);
      if TargetAt(env, s.lost, msgs, j).Some? {
        assert Restored(env, s.lost, msgs, j + 1) == Restored(env, s.lost, msgs, j) + {k};
        GapByMaps(env, s, msgs, j + 1, t.lost - {k}, s.lost[k].ref);
      }
    }
  }

  lemma NextMaps(env: Env, peer: string, s: State, msgs: seq<Payload>, j: nat, t: State)
    requires Apart(s) && Keyed(t) && j < |msgs| && MapsAt(env, s, msgs, j, t)
    ensures MapsAt(env, s, msgs, j + 1, RetransmitOne(env, peer, t, msgs[j]).state)
  {
    hide Key, Keyed, RetransmitOne, GapAfter, TargetAt;
    assert Keyed(s);
    MessageAt(env, peer, s, msgs, j, t);
    var next := RetransmitOne(env, peer, t, msgs[j]).state;
    var target := TargetAt(env, s.lost, msgs, j);
    assert Restored(env, s.lost, msgs, j + 1)
           == Restored(env, s.lost, msgs, j) + if target.Some? then {target.value} else {};
    forall k | k in next.pending && k !in s.pending
      ensures exists i :: 0 <= i < j + 1 && HeldAt(env, s.lost, msgs, i, k)
    {
      if k in t.pending {
        var i :| 0 <= i < j && HeldAt(env, s.lost, msgs, i, k);
      } else {
        assert HeldAt(env, s.lost, msgs, j, k);
      }
    }
    forall i, k | 0 <= i < j + 1 && HeldAt(env, s.lost, msgs, i, k)
      ensures k in next.pending && next.pending[k].ref == s.lost[k].ref
    {
      if i == j {
        assert target == Some(k);
      }
    }
  }

  lemma {:induction false} MapsFollow(env: Env, peer: string, s: State, msgs: seq<Payload>, j: nat)
    requires Apart(s) && j <= |msgs|
    ensures Apart(StateAt(env, peer, s, msgs, j)) && MapsAt(env, s, msgs, j, StateAt(env, peer, s, msgs, j))
  {
    hide Key, RetransmitOne, FreesAtMostOne, HeldAt;
    if j > 0 {
      var t := StateAt(env, peer, s, msgs, j - 1);
      MapsFollow(env, peer, s, msgs, j - 1);
      RetransmitOneFrees(env, peer, t, msgs[j - 1]);
      hide MapsAt;
      NextMaps(env, peer, s, msgs, j - 1, t);
    }
  }

  lemma HeldBelow(env: Env, s: State, msgs: seq<Payload>, j: nat, t: State, ref: Ref)
    requires j <= |msgs| && MapsAt(env, s, msgs, j, t)
    ensures (exists k :: k in t.pending && t.pending[k].ref.seqNo < ref.seqNo) <==> LowerHeld(env, s, msgs, j, ref)
  {
    hide HeldAt, Restored;
    if k :| k in t.pending && t.pending[k].ref.seqNo < ref.seqNo {
      if k !in s.pending {
        var i :| 0 <= i < j && HeldAt(env, s.lost, msgs, i, k);
        HeldIsLost(env, s.lost, msgs, i, k);
      }
    }
  }

  lemma HeldIsLost(env: Env, lost: map<string, Shell>, msgs: seq<Payload>, i: nat, k: string)
    requires i < |msgs| && HeldAt(env, lost, msgs, i, k)
    ensures k in lost
  {
  }

  lemma OvertakesByMaps(env: Env, peer: string, s: State, msgs: seq<Payload>, j: nat, t: State)
    requires Keyed(s) && Keyed(t) && j < |msgs| && MapsAt(env, s, msgs, j, t)
    ensures Overtakes(t, RetransmitOne(env, peer, t, msgs[j])) <==> OvertakesAt(env, s, msgs, j)
  {
    hide Key, Keyed, RetransmitOne, GapAfter, TargetAt, LowerHeld, MapsAt;
    MessageAt(env, peer, s, msgs, j, t);
    var one := RetransmitOne(env, peer, t, msgs[j]);
    var target := TargetAt(env, s.lost, msgs, j);
    if target.Some? {
      HeldBelow(env, s, msgs, j, t, s.lost[target.value].ref);
      if one.out != [] {
        assert one.out[0] in one.out;
      }
    }
  }

  /** A frame overtakes the backlog exactly when the maps and the frame say so beforehand. */
  lemma FrameInOrderExactlyWhen(env: Env, peer: string, s: State, msgs: seq<Payload>)
    requires Apart(s)
    ensures FrameInOrder(env, peer, s, msgs) <==> !OvertakingFrame(env, s, msgs)
  {
    hide Key, Keyed, RetransmitOne, OvertakesAt, Overtakes, MapsAt, StateAt, FrameInOrder;
    FrameByMessage(env, peer, s, msgs);
    forall j: nat | j < |msgs|
      ensures Overtakes(StateAt(env, peer, s, msgs, j), RetransmitOne(env, peer, StateAt(env, peer, s, msgs, j), msgs[j]))
              <==> OvertakesAt(env, s, msgs, j)
    {
      MapsFollow(env, peer, s, msgs, j);
      OvertakesByMaps(env, peer, s, msgs, j, StateAt(env, peer, s, msgs, j));
    }
  }

  /** Some frame of a run, looked at just before it is handled, overtakes the backlog. */
  predicate SomeFrameOvertakes(env: Env, evs: seq<Event>)
    requires ValidRun(env, evs)
  {
    evs != [] && (SomeFrameOvertakes(env, Front(evs))
                  || (Last(evs).Retransmit? && OvertakingFrame(env, Exec(env, Front(evs)).state, Last(evs).msgs)))
  }

  /** Exactly when a run over in-sequence arrivals emits in order, told from the maps and the
      frame before each frame is handled. */
  lemma {:induction false} RunInOrderExactlyWhen(env: Env, evs: seq<Event>)
    requires ValidRun(env, evs) && InSequence(Arrivals(evs))
    ensures Increasing(Refs(Exec(env, evs).emitted)) <==> !SomeFrameOvertakes(env, evs)
  {
    hide Key, Increasing, Exec, FramesInOrder;
    OrderedExactlyWhen(env, evs);
    FramesByMaps(env, evs);
  }

  lemma {:induction false} FramesByMaps(env: Env, evs: seq<Event>)
    requires ValidRun(env, evs) && InSequence(Arrivals(evs))
    ensures FramesInOrder(env, evs) <==> !SomeFrameOvertakes(env, evs)
  {
    hide Key, Step, Enabled, FrameInOrder, OvertakingFrame, InSequence, Apart;
    if evs != [] {
      var front, last := Front(evs), Last(evs);
      InSequencePrefix(Arrivals(front), Arrival(last));
      FramesByMaps(env, front);
      if FramesInOrder(env, front) && last.Retransmit? {
        RunIncreasing(env, front);
        FrameInOrderExactlyWhen(env, last.peer, Exec(env, front).state, last.msgs);
      }
    }
  }
}
