/** The parser's cache of decrypted real-time messages
    (e2ewebsocket/im_parser/openim_marshal/read_from_server.go). Messages delivered in real
    time are remembered by key; when the same conversation is synced later, with its secure
    messages still encrypted, each of them is replaced by its remembered copy or dropped.
    The order in which Go visits the conversations of a push is an argument. */
module RealtimeCache {
  import opened Common

  const SECURE_MARKER: string := "__secure_ws__:"

  datatype Msg = Msg(seqNo: int, serverMsgID: string, clientMsgID: string, ex: string, content: Bytes)

  /** `rest` is what a conversation's entry holds besides its messages. */
  datatype Pull = Pull(msgs: seq<Option<Msg>>, rest: Bytes)

  type Push = map<string, Option<Pull>>

  type Cache = map<string, Msg>

  predicate Marked(m: Option<Msg>) {
    m.Some? && SECURE_MARKER <= m.value.ex
  }

  /** By sequence number, server id or client id, the first there is; empty when there is
      none. */
  function Key(conversation: string, m: Option<Msg>): string {
    if conversation == "" || m.None? then ""
    else if m.value.seqNo != 0 then conversation + "#seq:" + Decimal(m.value.seqNo)
    else if m.value.serverMsgID != "" then conversation + "#server:" + m.value.serverMsgID
    else if m.value.clientMsgID != "" then conversation + "#client:" + m.value.clientMsgID
    else ""
  }

  // --- What the source does ---------------------------------------------------------------

  datatype Entry = Stored(key: string, msg: Msg) | HandedOut(key: string, msg: Msg)

  /** `log` records what enters and leaves the cache. */
  datatype State = State(cache: Cache, log: seq<Entry>)

  const EMPTY: State := State(map[], [])

  datatype Took = Took(state: State, msg: Option<Msg>)

  function Take(s: State, conversation: string, m: Option<Msg>): Took {
    var key := Key(conversation, m);
    if key == "" || key !in s.cache then Took(s, None)
    else Took(State(s.cache - {key}, s.log + [HandedOut(key, s.cache[key])]), Some(s.cache[key]))
  }

  function Store(s: State, conversation: string, m: Option<Msg>): State {
    var key := Key(conversation, m);
    if key == "" || m.None? then s
    else State(s.cache[key := m.value], s.log + [Stored(key, m.value)])
  }

  function RememberList(s: State, conversation: string, msgs: seq<Option<Msg>>): State {
    if msgs == [] then s else Store(RememberList(s, conversation, Front(msgs)), conversation, Last(msgs))
  }

  function Remember(s: State, push: Push, order: seq<string>): State
    requires Elements(order) <= push.Keys
  {
    if order == [] then s
    else
      var before := Remember(s, push, Front(order));
      assert Last(order) in Elements(order) && Elements(Front(order)) <= Elements(order);
      var pull := push[Last(order)];
      if pull.None? then before else RememberList(before, Last(order), pull.value.msgs)
  }

  datatype Swept = Swept(state: State, out: seq<Option<Msg>>, removed: bool)

  function SweepOne(w: Swept, conversation: string, raw: Option<Msg>): Swept {
    if raw.None? then w
    else if Marked(raw) then
      var took := Take(w.state, conversation, raw);
      Swept(took.state, if took.msg.Some? then w.out + [took.msg] else w.out, true)
    else w.(out := w.out + [raw])
  }

  function SweepList(s: State, conversation: string, msgs: seq<Option<Msg>>): Swept {
    if msgs == [] then Swept(s, [], false) else SweepOne(SweepList(s, conversation, Front(msgs)), conversation, Last(msgs))
  }

  datatype Sanitized = Sanitized(state: State, push: Push, removed: bool)

  function SweepAll(s: State, push: Push, order: seq<string>): Sanitized
    requires Elements(order) <= push.Keys
  {
    if order == [] then Sanitized(s, map[], false)
    else
      assert Last(order) in Elements(order) && Elements(Front(order)) <= Elements(order);
      var before := SweepAll(s, push, Front(order));
      var conversation, pull := Last(order), push[Last(order)];
      if pull.None? then before.(push := before.push[conversation := None])
      else
        var w := SweepList(before.state, conversation, pull.value.msgs);
        Sanitized(w.state, before.push[conversation := Some(pull.value.(msgs := w.out))], before.removed || w.removed)
  }

  /** Every conversation once, in the order Go happens to visit them. */
  predicate Visits(push: Push, order: seq<string>) {
    NoDuplicates(order) && Elements(order) == push.Keys
  }

  /** Nothing is returned when no message was marked. */
  function Sanitize(s: State, push: Push, order: seq<string>): (State, Option<Push>)
    requires Visits(push, order)
  {
    var swept := SweepAll(s, push, order);
    (swept.state, if swept.removed then Some(swept.push) else None)
  }

  // --- What a sanitised conversation is ----------------------------------------------------

  /** The keys under which marked messages of a list are looked up. */
  function MarkedKeys(conversation: string, msgs: seq<Option<Msg>>): set<string> {
    set i | 0 <= i < |msgs| && Marked(msgs[i]) :: Key(conversation, msgs[i])
  }

  /** What stands in the place of message `i`: itself, its remembered copy unless an earlier
      message of the list has had it, or nothing. */
  function Replacement(cache: Cache, conversation: string, msgs: seq<Option<Msg>>, i: nat): Option<Msg>
    requires i < |msgs|
  {
    var key := Key(conversation, msgs[i]);
    if !Marked(msgs[i]) then msgs[i]
    else if key != "" && key in cache && key !in MarkedKeys(conversation, msgs[..i]) then Some(cache[key])
    else None
  }

  function Replacements(cache: Cache, conversation: string, msgs: seq<Option<Msg>>): (slots: seq<Option<Msg>>)
    ensures |slots| == |msgs|
    ensures forall i :: 0 <= i < |msgs| ==> slots[i] == Replacement(cache, conversation, msgs, i)
  {
    seq(|msgs|, i requires 0 <= i < |msgs| => Replacement(cache, conversation, msgs, i))
  }

  function Present(slots: seq<Option<Msg>>): seq<Option<Msg>> {
    if slots == [] then []
    else Present(Front(slots)) + if Last(slots).Some? then [Last(slots)] else []
  }

  predicate AnyMarked(msgs: seq<Option<Msg>>) {
    exists i :: 0 <= i < |msgs| && Marked(msgs[i])
  }

  lemma SnocMarked(conversation: string, msgs: seq<Option<Msg>>)
    requires msgs != []
    ensures MarkedKeys(conversation, msgs)
            == MarkedKeys(conversation, Front(msgs)) + if Marked(Last(msgs)) then {Key(conversation, Last(msgs))} else {}
    ensures AnyMarked(msgs) <==> AnyMarked(Front(msgs)) || Marked(Last(msgs))
  {
    var all, front := MarkedKeys(conversation, msgs), MarkedKeys(conversation, Front(msgs));
    forall k | k in all ensures k in front + if Marked(Last(msgs)) then {Key(conversation, Last(msgs))} else {} {
      var i :| 0 <= i < |msgs| && Marked(msgs[i]) && Key(conversation, msgs[i]) == k;
      if i < |msgs| - 1 { assert Front(msgs)[i] == msgs[i]; }
    }
    forall k | k in front ensures k in all {
      var i :| 0 <= i < |Front(msgs)| && Marked(Front(msgs)[i]) && Key(conversation, Front(msgs)[i]) == k;
      assert msgs[i] == Front(msgs)[i];
    }
    if AnyMarked(Front(msgs)) {
      var i :| 0 <= i < |Front(msgs)| && Marked(Front(msgs)[i]);
      assert msgs[i] == Front(msgs)[i];
    }
    assert Marked(Last(msgs)) ==> Marked(msgs[|msgs| - 1]);
  }

  lemma SnocReplacements(cache: Cache, conversation: string, msgs: seq<Option<Msg>>)
    requires msgs != []
    ensures Front(Replacements(cache, conversation, msgs)) == Replacements(cache, conversation, Front(msgs))
    ensures Last(Replacements(cache, conversation, msgs)) == Replacement(cache, conversation, msgs, |msgs| - 1)
  {
    forall i | 0 <= i < |msgs| - 1
      ensures Replacement(cache, conversation, msgs, i) == Replacement(cache, conversation, Front(msgs), i)
    {
      assert msgs[..i] == Front(msgs)[..i];
    }
  }

  /** A swept conversation is its input with unmarked messages kept in order and each marked
      one replaced in its place by its remembered copy or left out; what was looked up is
      no longer remembered, and whether anything was marked is reported. */
  lemma {:induction false} SweepListMeans(s: State, conversation: string, msgs: seq<Option<Msg>>)
    ensures var w := SweepList(s, conversation, msgs);
            && w.out == Present(Replacements(s.cache, conversation, msgs))
            && w.state.cache == s.cache - (MarkedKeys(conversation, msgs) - {""})
            && (w.removed <==> AnyMarked(msgs))
  {
    hide Key;
    if msgs != [] {
      SweepListMeans(s, conversation, Front(msgs));
      SnocMarked(conversation, msgs);
      SnocReplacements(s.cache, conversation, msgs);
      hide Replacement, Replacements, MarkedKeys, Marked, AnyMarked;
      SweepOneMeans(s, conversation, msgs);
    } else {
      assert MarkedKeys(conversation, msgs) == {};
      assert s.cache - ({} - {""}) == s.cache;
    }
  }

  lemma SweepOneMeans(s: State, conversation: string, msgs: seq<Option<Msg>>)
    requires msgs != []
    ensures var w := SweepList(s, conversation, Front(msgs));
            w.state.cache == s.cache - (MarkedKeys(conversation, Front(msgs)) - {""}) ==>
              var next := SweepOne(w, conversation, Last(msgs));
              var slot := Replacement(s.cache, conversation, msgs, |msgs| - 1);
              && next.out == w.out + (if slot.Some? then [slot] else [])
              && next.removed == (w.removed || Marked(Last(msgs)))
              && next.state.cache == s.cache - (MarkedKeys(conversation, Front(msgs))
                   + (if Marked(Last(msgs)) then {Key(conversation, Last(msgs))} else {}) - {""})
  {
    hide Key, MarkedKeys, SweepList;
    assert msgs[..|msgs| - 1] == Front(msgs);
  }

  /** The keys looked up in the conversations visited. */
  function KeysVisited(push: Push, order: seq<string>): set<string>
    requires Elements(order) <= push.Keys
  {
    if order == [] then {}
    else
      assert Last(order) in Elements(order) && Elements(Front(order)) <= Elements(order);
      KeysVisited(push, Front(order))
      + if push[Last(order)].None? then {} else MarkedKeys(Last(order), push[Last(order)].value.msgs)
  }

  predicate AnyMarkedIn(push: Push, order: seq<string>)
    requires Elements(order) <= push.Keys
  {
    exists c :: c in Elements(order) && push[c].Some? && AnyMarked(push[c].value.msgs)
  }

  /** The conversation visited at `i`, given what the ones before it have used up. */
  function CleanedAt(cache: Cache, push: Push, order: seq<string>, i: nat): Option<Pull>
    requires Elements(order) <= push.Keys && i < |order|
  {
    assert order[i] in Elements(order) && Elements(order[..i]) <= Elements(order);
    var pull := push[order[i]];
    if pull.None? then None
    else Some(pull.value.(msgs := Present(Replacements(cache - (KeysVisited(push, order[..i]) - {""}),
                                                       order[i], pull.value.msgs))))
  }

  lemma {:induction false} SanitizeUsesUp(s: State, push: Push, order: seq<string>)
    requires Elements(order) <= push.Keys
    ensures var swept := SweepAll(s, push, order);
            && swept.push.Keys == Elements(order)
            && swept.state.cache == s.cache - (KeysVisited(push, order) - {""})
            && (swept.removed <==> AnyMarkedIn(push, order))
  {
    hide MarkedKeys, Replacements, Present, AnyMarked, SweepList;
    if order == [] {
      assert s.cache - ({} - {""}) == s.cache;
    } else {
      var front, last := Front(order), Last(order);
      assert order == front + [last] && last in Elements(order) && Elements(order) == Elements(front) + {last};
      SanitizeUsesUp(s, push, front);
      if push[last].Some? {
        SweepListMeans(SweepAll(s, push, front).state, last, push[last].value.msgs);
      }
      assert AnyMarkedIn(push, order) <==>
             AnyMarkedIn(push, front) || (push[last].Some? && AnyMarked(push[last].value.msgs));
    }
  }

  lemma {:induction false} SanitizeAt(s: State, push: Push, order: seq<string>, i: nat)
    requires Elements(order) <= push.Keys && NoDuplicates(order) && i < |order|
    ensures order[i] in SweepAll(s, push, order).push
    ensures SweepAll(s, push, order).push[order[i]] == CleanedAt(s.cache, push, order, i)
  {
    hide MarkedKeys, Replacements, Present, AnyMarked, SweepList, KeysVisited;
    var front, last := Front(order), Last(order);
    assert last in Elements(order) && Elements(front) <= Elements(order);
    if i == |front| {
      assert order[..i] == front;
      SanitizeUsesUp(s, push, front);
      if push[last].Some? {
        SweepListMeans(SweepAll(s, push, front).state, last, push[last].value.msgs);
      }
    } else {
      SanitizeAt(s, push, front, i);
      assert front[..i] == order[..i] && front[i] == order[i] && order[i] != last;
    }
  }

  /** A sanitised push has the same conversations, each swept as above with what was still
      remembered when its turn came; nothing stays remembered that was looked up; and there
      is a result exactly when some message was marked. */
  lemma SanitizeMeans(s: State, push: Push, order: seq<string>)
    requires Visits(push, order)
    ensures var (after, result) := Sanitize(s, push, order);
            && after.cache == s.cache - (KeysVisited(push, order) - {""})
            && (result.Some? <==> AnyMarkedIn(push, order))
            && (result.Some? ==>
                  && result.value.Keys == push.Keys
                  && forall i :: 0 <= i < |order| ==> result.value[order[i]] == CleanedAt(s.cache, push, order, i))
  {
    hide KeysVisited, CleanedAt, AnyMarkedIn;
    SanitizeUsesUp(s, push, order);
    forall i | 0 <= i < |order|
      ensures order[i] in SweepAll(s, push, order).push
      ensures SweepAll(s, push, order).push[order[i]] == CleanedAt(s.cache, push, order, i)
    {
      SanitizeAt(s, push, order, i);
    }
  }

  // --- What is remembered -----------------------------------------------------------------

  /** Every message visited, with the key it is remembered under. */
  function Keyed(conversation: string, msgs: seq<Option<Msg>>): seq<(string, Msg)> {
    if msgs == [] then []
    else
      var key := Key(conversation, Last(msgs));
      Keyed(conversation, Front(msgs))
      + if key == "" || Last(msgs).None? then [] else [(key, Last(msgs).value)]
  }

  function KeyedIn(push: Push, order: seq<string>): seq<(string, Msg)>
    requires Elements(order) <= push.Keys
  {
    if order == [] then []
    else
      assert Last(order) in Elements(order) && Elements(Front(order)) <= Elements(order);
      KeyedIn(push, Front(order))
      + if push[Last(order)].None? then [] else Keyed(Last(order), push[Last(order)].value.msgs)
  }

  /** The last message under a key, if there is any. */
  function LastUnder(pairs: seq<(string, Msg)>, key: string): Option<Msg> {
    if pairs == [] then None
    else if Last(pairs).0 == key then Some(Last(pairs).1)
    else LastUnder(Front(pairs), key)
  }

  function Lookup(cache: Cache, key: string): Option<Msg> {
    if key in cache then Some(cache[key]) else None
  }

  lemma {:induction false} LastUnderAppend(a: seq<(string, Msg)>, b: seq<(string, Msg)>, key: string)
    ensures LastUnder(a + b, key) == if LastUnder(b, key).Some? then LastUnder(b, key) else LastUnder(a, key)
  {
    if b == [] {
      assert a + b == a;
    } else {
      LastUnderAppend(a, Front(b), key);
      assert Front(a + b) == a + Front(b) && Last(a + b) == Last(b);
    }
  }

  lemma {:induction false} RememberListMeans(s: State, conversation: string, msgs: seq<Option<Msg>>, key: string)
    ensures var latest := LastUnder(Keyed(conversation, msgs), key);
            Lookup(RememberList(s, conversation, msgs).cache, key)
            == if latest.Some? then latest else Lookup(s.cache, key)
  {
    hide Key;
    if msgs != [] {
      RememberListMeans(s, conversation, Front(msgs), key);
      var k := Key(conversation, Last(msgs));
      if k != "" && Last(msgs).Some? {
        LastUnderAppend(Keyed(conversation, Front(msgs)), [(k, Last(msgs).value)], key);
      } else {
        assert Keyed(conversation, Front(msgs)) + [] == Keyed(conversation, Front(msgs));
      }
    }
  }

  /** After a push has been remembered each key holds the last message visited under it,
      and keys without one hold what they held. */
  lemma {:induction false} RememberMeans(s: State, push: Push, order: seq<string>, key: string)
    requires Elements(order) <= push.Keys
    ensures var latest := LastUnder(KeyedIn(push, order), key);
            Lookup(Remember(s, push, order).cache, key) == if latest.Some? then latest else Lookup(s.cache, key)
  {
    hide RememberList, Keyed, Lookup;
    if order != [] {
      assert Last(order) in Elements(order) && Elements(Front(order)) <= Elements(order);
      RememberMeans(s, push, Front(order), key);
      var pull := push[Last(order)];
      if pull.Some? {
        RememberListMeans(Remember(s, push, Front(order)), Last(order), pull.value.msgs, key);
        LastUnderAppend(KeyedIn(push, Front(order)), Keyed(Last(order), pull.value.msgs), key);
      } else {
        assert KeyedIn(push, Front(order)) + [] == KeyedIn(push, Front(order));
      }
    }
  }

  // --- Which messages share a key ----------------------------------------------------------

  /** The first kind of identity that either has is the same in both: number before server id
      before client id. */
  predicate SameMessage(a: Msg, b: Msg) {
    if a.seqNo != 0 || b.seqNo != 0 then a.seqNo == b.seqNo
    else if a.serverMsgID != "" || b.serverMsgID != "" then a.serverMsgID == b.serverMsgID
    else a.clientMsgID == b.clientMsgID != ""
  }

  /** What follows the conversation in a key. */
  function Suffix(m: Msg): string {
    if m.seqNo != 0 then "#seq:" + Decimal(m.seqNo)
    else if m.serverMsgID != "" then "#server:" + m.serverMsgID
    else if m.clientMsgID != "" then "#client:" + m.clientMsgID
    else ""
  }

  lemma KeyIsSuffixed(conversation: string, m: Msg)
    requires conversation != ""
    ensures Key(conversation, Some(m)) == if Suffix(m) == "" then "" else conversation + Suffix(m)
    ensures Suffix(m) != "" ==> Suffix(m)[0] == '#' && |Suffix(m)| > 3
  {
  }

  lemma SuffixKinds(a: Msg, b: Msg)
    ensures Suffix(a) == Suffix(b) != "" <==> SameMessage(a, b)
  {
    hide Decimal;
    SamePrefix("#seq:", Decimal(a.seqNo), Decimal(b.seqNo));
    DecimalInjective(a.seqNo, b.seqNo);
    SamePrefix("#server:", a.serverMsgID, b.serverMsgID);
    SamePrefix("#client:", a.clientMsgID, b.clientMsgID);
    assert Suffix(a) != "" ==> Suffix(a)[1] == (if a.seqNo != 0 || a.serverMsgID != "" then 's' else 'c');
    assert Suffix(b) != "" ==> Suffix(b)[1] == (if b.seqNo != 0 || b.serverMsgID != "" then 's' else 'c');
    assert a.seqNo != 0 ==> Suffix(a)[3] == 'q';
    assert b.seqNo != 0 ==> Suffix(b)[3] == 'q';
    assert a.seqNo == 0 && a.serverMsgID != "" ==> Suffix(a)[3] == 'r';
    assert b.seqNo == 0 && b.serverMsgID != "" ==> Suffix(b)[3] == 'r';
  }

  /** Within a conversation two messages share a key exactly when they are the same message. */
  lemma SameKeyExactlyWhen(conversation: string, a: Msg, b: Msg)
    requires conversation != ""
    ensures Key(conversation, Some(a)) == Key(conversation, Some(b)) != "" <==> SameMessage(a, b)
  {
    hide Key, Suffix, SameMessage;
    KeyIsSuffixed(conversation, a);
    KeyIsSuffixed(conversation, b);
    SuffixKinds(a, b);
    SamePrefix(conversation, Suffix(a), Suffix(b));
  }

  /** `d` begins with `c` and one of the texts that can begin an id within `c`. */
  predicate Nested(c: string, d: string) {
    c + "#server:" <= d || c + "#client:" <= d
  }

  /** Messages of different conversations can share a key exactly when one conversation is
      nested in the other. */
  lemma ConversationsMeetExactlyWhen(c: string, d: string)
    requires c != "" && d != "" && c != d
    ensures (exists a, b :: Key(c, Some(a)) == Key(d, Some(b)) != "") <==> Nested(c, d) || Nested(d, c)
  {
    if a, b :| Key(c, Some(a)) == Key(d, Some(b)) != "" {
      MeetingNests(c, d, a, b);
    }
    if Nested(c, d) {
      var a, b := NestingMeets(c, d);
    }
    if Nested(d, c) {
      var b, a := NestingMeets(d, c);
    }
  }

  lemma MeetingNests(c: string, d: string, a: Msg, b: Msg)
    requires c != "" && d != "" && c != d && Key(c, Some(a)) == Key(d, Some(b)) != ""
    ensures Nested(c, d) || Nested(d, c)
  {
    hide Key, Suffix;
    KeyIsSuffixed(c, a);
    KeyIsSuffixed(d, b);
    SameLengthSameStart(c, d, Suffix(a), Suffix(b));
    if |c| < |d| {
      LongerNests(c, d, a, b);
    }
    if |d| < |c| {
      LongerNests(d, c, b, a);
    }
  }

  lemma SameLengthSameStart(c: string, d: string, t: string, u: string)
    requires c + t == d + u
    ensures |c| == |d| ==> c == d
  {
    if |c| == |d| {
      assert c == (c + t)[..|c|] && d == (d + u)[..|c|];
    }
  }

  /** A number's suffix has no second hash mark, an id's none before the id. */
  lemma HashPlaces(m: Msg)
    ensures forall i :: 0 < i < |Suffix(m)| && Suffix(m)[i] == '#' ==> m.seqNo == 0 && i >= 8
    ensures m.seqNo == 0 && Suffix(m) != "" ==> |Suffix(m)| >= 8 && Suffix(m)[..8] in {"#server:", "#client:"}
  {
    hide Decimal;
    var digits := Decimal(m.seqNo);
    DecimalInjective(m.seqNo, m.seqNo);
    forall i | 0 <= i < |digits| ensures digits[i] != '#' {
      if !AllDigits(digits) && i > 0 { assert digits[i] == digits[1..][i - 1]; }
    }
  }

  lemma LongerNests(c: string, d: string, a: Msg, b: Msg)
    requires |c| < |d| && c + Suffix(a) == d + Suffix(b) && Suffix(a) != "" && Suffix(b) != ""
    requires Suffix(b)[0] == '#'
    ensures Nested(c, d)
  {
    hide Suffix;
    var t, n := Suffix(a), |d| - |c|;
    var text := c + t;
    assert text[..|d|] == d && text[..|c|] == c;
    assert d == c + t[..n] && t[n] == '#';
    HashPlaces(a);
    assert t[..8] <= t[..n];
    assert c + t[..8] <= c + t[..n];
  }

  lemma NestingMeets(c: string, d: string) returns (a: Msg, b: Msg)
    requires c != "" && d != "" && Nested(c, d)
    ensures Key(c, Some(a)) == Key(d, Some(b)) != ""
  {
    b := Msg(0, "x", "", "", []);
    var p := if c + "#server:" <= d then "#server:" else "#client:";
    var id := d[|c| + 8..] + "#server:x";
    a := if c + "#server:" <= d then Msg(0, id, "", "", []) else Msg(0, "", id, "", []);
    assert d == c + p + d[|c| + 8..];
    assert c + (p + id) == d + ("#server:" + "x");
  }

  // --- Whole runs ------------------------------------------------------------------------

  datatype Call = RememberCall(push: Push, order: seq<string>) | SanitizeCall(push: Push, order: seq<string>)

  predicate CallOk(c: Call) {
    Visits(c.push, c.order)
  }

  function After(calls: seq<Call>): State
    requires forall i :: 0 <= i < |calls| ==> CallOk(calls[i])
  {
    if calls == [] then EMPTY
    else
      var c := calls[|calls| - 1];
      var before := After(calls[..|calls| - 1]);
      assert CallOk(c);
      if c.RememberCall? then Remember(before, c.push, c.order) else SweepAll(before, c.push, c.order).state
  }

  /** The cache a log leads to. */
  function CacheOf(log: seq<Entry>): Cache {
    if log == [] then map[]
    else match Last(log)
      case Stored(key, msg) => CacheOf(Front(log))[key := msg]
      case HandedOut(key, _) => CacheOf(Front(log)) - {key}
  }

  /** Whatever is handed out was in the cache just then. */
  predicate Truthful(log: seq<Entry>) {
    log == []
    || (Truthful(Front(log))
        && (Last(log).HandedOut? ==> Last(log).key in CacheOf(Front(log)) && CacheOf(Front(log))[Last(log).key] == Last(log).msg))
  }

  predicate Consistent(s: State) {
    Truthful(s.log) && s.cache == CacheOf(s.log)
  }

  lemma EntryKeeps(s: State, conversation: string, m: Option<Msg>)
    requires Consistent(s)
    ensures Consistent(Take(s, conversation, m).state)
    ensures Consistent(Store(s, conversation, m))
    ensures Take(s, conversation, m).msg.Some? ==>
              Take(s, conversation, m).state.log == s.log + [HandedOut(Key(conversation, m), Take(s, conversation, m).msg.value)]
    ensures Take(s, conversation, m).msg.None? ==> Take(s, conversation, m).state == s
  {
    hide Key, Truthful, CacheOf;
    var key := Key(conversation, m);
    if key != "" && m.Some? {
      OneEntry(s.log, Stored(key, m.value));
    }
    if key in s.cache {
      OneEntry(s.log, HandedOut(key, s.cache[key]));
    }
  }

  lemma OneEntry(log: seq<Entry>, e: Entry)
    ensures CacheOf(log + [e]) == if e.Stored? then CacheOf(log)[e.key := e.msg] else CacheOf(log) - {e.key}
    ensures Truthful(log) && (e.HandedOut? ==> e.key in CacheOf(log) && CacheOf(log)[e.key] == e.msg) ==> Truthful(log + [e])
  {
    assert Front(log + [e]) == log && Last(log + [e]) == e;
  }

  lemma {:induction false} SweepKeeps(s: State, conversation: string, msgs: seq<Option<Msg>>)
    requires Consistent(s)
    ensures Consistent(SweepList(s, conversation, msgs).state)
  {
    hide Consistent, Take, Marked;
    if msgs != [] {
      SweepKeeps(s, conversation, Front(msgs));
      EntryKeeps(SweepList(s, conversation, Front(msgs)).state, conversation, Last(msgs));
    }
  }

  lemma {:induction false} RememberListKeeps(s: State, conversation: string, msgs: seq<Option<Msg>>)
    requires Consistent(s)
    ensures Consistent(RememberList(s, conversation, msgs))
  {
    hide Consistent, Store;
    if msgs != [] {
      RememberListKeeps(s, conversation, Front(msgs));
      EntryKeeps(RememberList(s, conversation, Front(msgs)), conversation, Last(msgs));
    }
  }

  lemma {:induction false} CallKeeps(s: State, push: Push, order: seq<string>)
    requires Consistent(s) && Elements(order) <= push.Keys
    ensures Consistent(Remember(s, push, order)) && Consistent(SweepAll(s, push, order).state)
  {
    hide Consistent, RememberList, SweepList;
    if order != [] {
      assert Last(order) in Elements(order) && Elements(Front(order)) <= Elements(order);
      CallKeeps(s, push, Front(order));
      var pull := push[Last(order)];
      if pull.Some? {
        RememberListKeeps(Remember(s, push, Front(order)), Last(order), pull.value.msgs);
        SweepKeeps(SweepAll(s, push, Front(order)).state, Last(order), pull.value.msgs);
      }
    }
  }

  lemma {:induction false} RunsAreConsistent(calls: seq<Call>)
    requires forall i :: 0 <= i < |calls| ==> CallOk(calls[i])
    ensures Consistent(After(calls))
  {
    hide Consistent, Remember, SweepAll;
    if calls == [] {
      NothingRemembered();
    } else {
      var c := calls[|calls| - 1];
      RunsAreConsistent(calls[..|calls| - 1]);
      CallKeeps(After(calls[..|calls| - 1]), c.push, c.order);
    }
  }

  lemma NothingRemembered()
    ensures Consistent(EMPTY)
  {
  }

  /** Each hand-out is of the message last remembered under its key and not handed out
      since: no remembered entry is ever handed out twice. */
  lemma HandedOutOnce(calls: seq<Call>, i: nat)
    requires forall j :: 0 <= j < |calls| ==> CallOk(calls[j])
    requires i < |After(calls).log| && After(calls).log[i].HandedOut?
    ensures var log := After(calls).log;
            exists j: nat :: j < i && log[j] == Stored(log[i].key, log[i].msg)
                             && forall k :: j < k < i ==> log[k].key != log[i].key
  {
    RunsAreConsistent(calls);
    var log := After(calls).log;
    PrefixTruthful(log, i + 1);
    assert Front(log[..i + 1]) == log[..i];
    var j := StoredBefore(log[..i], log[i].key);
    forall k | j < k < i ensures log[k].key != log[i].key {
      assert log[..i][k] == log[k];
    }
  }

  lemma {:induction false} PrefixTruthful(log: seq<Entry>, n: nat)
    requires Truthful(log) && n <= |log|
    ensures Truthful(log[..n])
  {
    if n == |log| {
      assert log[..n] == log;
    } else {
      PrefixTruthful(Front(log), n);
      assert Front(log)[..n] == log[..n];
    }
  }

  lemma {:induction false} StoredBefore(log: seq<Entry>, key: string) returns (j: nat)
    requires key in CacheOf(log)
    ensures j < |log| && log[j] == Stored(key, CacheOf(log)[key])
    ensures forall k :: j < k < |log| ==> log[k].key != key
  {
    if Last(log) == Stored(key, CacheOf(log)[key]) {
      j := |log| - 1;
    } else {
      j := StoredBefore(Front(log), key);
    }
  }

  function Count(log: seq<Entry>, key: string, handedOut: bool): nat {
    if log == [] then 0
    else Count(Front(log), key, handedOut)
         + if Last(log).key == key && Last(log).HandedOut? == handedOut then 1 else 0
  }

  /** Counted per key: a key is handed out at most as often as it was remembered, and one
      time less while an entry for it is still held. */
  lemma {:induction false} NoMoreThanRemembered(log: seq<Entry>, key: string)
    requires Truthful(log)
    ensures Count(log, key, true) + (if key in CacheOf(log) then 1 else 0) <= Count(log, key, false)
  {
    if log != [] {
      NoMoreThanRemembered(Front(log), key);
    }
  }

  lemma RunsHandOutNoMore(calls: seq<Call>, key: string)
    requires forall j :: 0 <= j < |calls| ==> CallOk(calls[j])
    ensures Count(After(calls).log, key, true) <= Count(After(calls).log, key, false)
  {
    RunsAreConsistent(calls);
    NoMoreThanRemembered(After(calls).log, key);
  }

  // --- The copy of the same message ---------------------------------------------------------

  /** Some call remembered the message in the conversation. */
  predicate RememberedIn(calls: seq<Call>, conversation: string, m: Msg) {
    exists j :: 0 <= j < |calls| && calls[j].RememberCall? && InPush(calls[j].push, conversation, m)
  }

  predicate InPush(push: Push, conversation: string, m: Msg) {
    conversation in push && push[conversation].Some? && Some(m) in push[conversation].value.msgs
  }

  /** A stored entry is filed under the key its message has in a conversation of the push. */
  ghost predicate FromPush(push: Push, e: Entry) {
    e.HandedOut? || exists c :: InPush(push, c, e.msg) && e.key == Key(c, Some(e.msg)) != ""
  }

  lemma {:induction false} RememberListSourced(s: State, push: Push, conversation: string, msgs: seq<Option<Msg>>, e: Entry)
    requires forall m :: m in msgs && m.Some? ==> InPush(push, conversation, m.value)
    requires e in RememberList(s, conversation, msgs).log
    ensures e in s.log || FromPush(push, e)
  {
    hide Key, InPush;
    if msgs != [] {
      var before := RememberList(s, conversation, Front(msgs));
      assert Last(msgs) in msgs;
      if e in before.log {
        RememberListSourced(s, push, conversation, Front(msgs), e);
      }
    }
  }

  lemma {:induction false} RememberSourced(s: State, push: Push, order: seq<string>, e: Entry)
    requires Elements(order) <= push.Keys && e in Remember(s, push, order).log
    ensures e in s.log || FromPush(push, e)
  {
    hide RememberList, FromPush;
    if order != [] {
      assert Last(order) in Elements(order) && Elements(Front(order)) <= Elements(order);
      var pull := push[Last(order)];
      var before := Remember(s, push, Front(order));
      if pull.Some? {
        RememberListSourced(before, push, Last(order), pull.value.msgs, e);
      }
      if e in before.log {
        RememberSourced(s, push, Front(order), e);
      }
    }
  }

  lemma {:induction false} SweepStoresNothing(s: State, conversation: string, msgs: seq<Option<Msg>>, e: Entry)
    requires e in SweepList(s, conversation, msgs).state.log
    ensures e in s.log || e.HandedOut?
  {
    hide Key, Marked;
    if msgs != [] {
      var w := SweepList(s, conversation, Front(msgs));
      if e in w.state.log { SweepStoresNothing(s, conversation, Front(msgs), e); }
    }
  }

  lemma {:induction false} SweepAllStoresNothing(s: State, push: Push, order: seq<string>, e: Entry)
    requires Elements(order) <= push.Keys && e in SweepAll(s, push, order).state.log
    ensures e in s.log || e.HandedOut?
  {
    hide SweepList;
    if order != [] {
      assert Last(order) in Elements(order) && Elements(Front(order)) <= Elements(order);
      var before := SweepAll(s, push, Front(order)).state;
      var pull := push[Last(order)];
      if pull.Some? {
        SweepStoresNothing(before, Last(order), pull.value.msgs, e);
      }
      if e in before.log { SweepAllStoresNothing(s, push, Front(order), e); }
    }
  }

  lemma {:induction false} StoredWasRemembered(calls: seq<Call>, e: Entry)
    requires forall j :: 0 <= j < |calls| ==> CallOk(calls[j])
    requires e in After(calls).log && e.Stored?
    ensures exists c :: RememberedIn(calls, c, e.msg) && e.key == Key(c, Some(e.msg)) != ""
  {
    hide Key, Remember, SweepAll, InPush;
    if calls != [] {
      var front, last := calls[..|calls| - 1], calls[|calls| - 1];
      var before := After(front);
      assert CallOk(last);
      if last.RememberCall? {
        RememberSourced(before, last.push, last.order, e);
      } else {
        SweepAllStoresNothing(before, last.push, last.order, e);
      }
      if e in before.log {
        StoredWasRemembered(front, e);
        var c :| RememberedIn(front, c, e.msg) && e.key == Key(c, Some(e.msg)) != "";
        var j :| 0 <= j < |front| && front[j].RememberCall? && InPush(front[j].push, c, e.msg);
        assert calls[j] == front[j];
      }
    }
  }

  lemma HeldWasRemembered(calls: seq<Call>, key: string)
    requires forall j :: 0 <= j < |calls| ==> CallOk(calls[j])
    requires key in After(calls).cache
    ensures exists d :: RememberedIn(calls, d, After(calls).cache[key]) && key == Key(d, Some(After(calls).cache[key])) != ""
  {
    hide Key, Remember, SweepAll, RememberedIn, After;
    RunsAreConsistent(calls);
    var j := StoredBefore(After(calls).log, key);
    StoredWasRemembered(calls, After(calls).log[j]);
  }

  /** What is held for message `m` of a conversation: a copy remembered of the same message
      there, or of one in a conversation nested in it or around it. */
  ghost predicate CopyOf(calls: seq<Call>, conversation: string, m: Msg, copied: Msg) {
    exists d :: RememberedIn(calls, d, copied)
                && if d == conversation then SameMessage(m, copied) else Nested(conversation, d) || Nested(d, conversation)
  }

  lemma HeldIsCopy(calls: seq<Call>, conversation: string, m: Msg)
    requires forall j :: 0 <= j < |calls| ==> CallOk(calls[j])
    requires conversation != "" && Key(conversation, Some(m)) != "" && Key(conversation, Some(m)) in After(calls).cache
    ensures CopyOf(calls, conversation, m, After(calls).cache[Key(conversation, Some(m))])
  {
    hide Key, RememberedIn, After, Nested, SameMessage;
    var key := Key(conversation, Some(m));
    HeldWasRemembered(calls, key);
    var copied := After(calls).cache[key];
    var d :| RememberedIn(calls, d, copied) && key == Key(d, Some(copied)) != "";
    if d == conversation {
      SameKeyExactlyWhen(conversation, m, copied);
    } else {
      KeyNeedsConversation(d, copied);
      MeetingNests(conversation, d, m, copied);
    }
  }

  lemma KeyNeedsConversation(conversation: string, m: Msg)
    ensures Key(conversation, Some(m)) != "" ==> conversation != ""
  {
  }

  /** After any calls, every message of a sanitised conversation is an unmarked one of the
      input or takes the place of a marked one as a copy of it. */
  lemma SanitizedHoldsCopies(calls: seq<Call>, push: Push, order: seq<string>, i: nat, x: Option<Msg>)
    requires (forall j :: 0 <= j < |calls| ==> CallOk(calls[j])) && Visits(push, order)
    requires i < |order| && Sanitize(After(calls), push, order).1.Some?
    requires var p := Sanitize(After(calls), push, order).1.value;
             order[i] in p && p[order[i]].Some? && x in p[order[i]].value.msgs
    ensures order[i] in push && push[order[i]].Some?
    ensures var input := push[order[i]].value.msgs;
            (x in input && x.Some? && !Marked(x))
            || (x.Some? && exists m :: Some(m) in input && Marked(Some(m)) && CopyOf(calls, order[i], m, x.value))
  {
    hide Key, After, SweepAll, RememberedIn, Nested, SameMessage, CopyOf, Marked, KeysVisited, Present, AnyMarkedIn;
    assert order[i] in Elements(order);
    SanitizeMeans(After(calls), push, order);
    var held := After(calls).cache - (KeysVisited(push, order[..i]) - {""});
    var input := push[order[i]].value.msgs;
    var slots := Replacements(held, order[i], input);
    var k := PresentWas(slots, x);
    assert x == Replacement(held, order[i], input, k);
    if Marked(input[k]) {
      hide Replacements;
      MarkedIsSome(input[k]);
      KeyNeedsConversation(order[i], input[k].value);
      HeldIsCopy(calls, order[i], input[k].value);
      assert Some(input[k].value) in input;
    }
  }

  lemma MarkedIsSome(m: Option<Msg>)
    ensures Marked(m) ==> m.Some?
  {
  }

  lemma {:induction false} PresentWas(slots: seq<Option<Msg>>, x: Option<Msg>) returns (k: nat)
    requires x in Present(slots)
    ensures k < |slots| && slots[k] == x && x.Some?
  {
    if Last(slots).Some? && x == Last(slots) {
      k := |slots| - 1;
    } else {
      k := PresentWas(Front(slots), x);
    }
  }

  lemma {:induction false} LastOfSame(conversation: string, msgs: seq<Option<Msg>>, j: nat, m: Msg)
    requires conversation != "" && j < |msgs| && msgs[j] == Some(m) && Key(conversation, Some(m)) != ""
    requires forall k :: j < k < |msgs| && msgs[k].Some? ==> !SameMessage(msgs[k].value, m)
    ensures LastUnder(Keyed(conversation, msgs), Key(conversation, Some(m))) == Some(m)
  {
    hide Key, SameMessage;
    var front, last := Front(msgs), Last(msgs);
    var key := Key(conversation, Some(m));
    if j < |msgs| - 1 {
      LastOfSame(conversation, front, j, m);
      if last.Some? {
        SameKeyExactlyWhen(conversation, last.value, m);
        LastUnderAppend(Keyed(conversation, front), [(Key(conversation, last), last.value)], key);
      }
      assert Keyed(conversation, front) + [] == Keyed(conversation, front);
    } else {
      LastUnderAppend(Keyed(conversation, front), [(key, m)], key);
    }
  }

  lemma {:induction false} NoneElsewhere(conversation: string, d: string, msgs: seq<Option<Msg>>, m: Msg)
    requires conversation != "" && d != conversation && !Nested(conversation, d) && !Nested(d, conversation)
    requires Key(conversation, Some(m)) != ""
    ensures LastUnder(Keyed(d, msgs), Key(conversation, Some(m))) == None
  {
    hide Key, Nested;
    if msgs != [] {
      var front, last := Front(msgs), Last(msgs);
      var key := Key(conversation, Some(m));
      NoneElsewhere(conversation, d, front, m);
      if last.Some? && Key(d, last) != "" {
        KeyNeedsConversation(d, last.value);
        if Key(d, last) == key { MeetingNests(conversation, d, m, last.value); }
        LastUnderAppend(Keyed(d, front), [(Key(d, last), last.value)], key);
      }
      assert Keyed(d, front) + [] == Keyed(d, front);
    }
  }

  lemma {:induction false} LastInPush(push: Push, order: seq<string>, conversation: string, j: nat, m: Msg)
    requires Elements(order) <= push.Keys && NoDuplicates(order) && conversation in Elements(order) && conversation != ""
    requires push[conversation].Some? && j < |push[conversation].value.msgs| && push[conversation].value.msgs[j] == Some(m)
    requires Key(conversation, Some(m)) != ""
    requires forall k :: j < k < |push[conversation].value.msgs| && push[conversation].value.msgs[k].Some? ==>
               !SameMessage(push[conversation].value.msgs[k].value, m)
    requires forall d :: d in push && d != conversation ==> !Nested(conversation, d) && !Nested(d, conversation)
    ensures LastUnder(KeyedIn(push, order), Key(conversation, Some(m))) == Some(m)
  {
    hide Key, Keyed, Nested, SameMessage;
    var front, last := Front(order), Last(order);
    assert last in Elements(order) && Elements(front) <= Elements(order);
    var key := Key(conversation, Some(m));
    var here := if push[last].None? then [] else Keyed(last, push[last].value.msgs);
    LastUnderAppend(KeyedIn(push, front), here, key);
    if last == conversation {
      LastOfSame(conversation, push[conversation].value.msgs, j, m);
    } else {
      if push[last].Some? { NoneElsewhere(conversation, last, push[last].value.msgs, m); }
      var i :| 0 <= i < |order| && order[i] == conversation;
      assert front[i] == conversation;
      LastInPush(push, front, conversation, j, m);
    }
  }

  /** A message that has been remembered comes back in place of its marked form: for a push
      without nested conversations, the last copy of it in its conversation, unless an earlier
      marked form of the same message has taken it. */
  lemma RememberedIsRestored(s: State, push: Push, order: seq<string>, conversation: string, j: nat, m: Msg,
                             synced: seq<Option<Msg>>, i: nat)
    requires Visits(push, order) && conversation in push && conversation != "" && push[conversation].Some?
    requires j < |push[conversation].value.msgs| && push[conversation].value.msgs[j] == Some(m)
    requires forall k :: j < k < |push[conversation].value.msgs| && push[conversation].value.msgs[k].Some? ==>
               !SameMessage(push[conversation].value.msgs[k].value, m)
    requires forall d :: d in push && d != conversation ==> !Nested(conversation, d) && !Nested(d, conversation)
    requires i < |synced| && synced[i].Some? && "__secure_ws__:" <= synced[i].value.ex && SameMessage(synced[i].value, m)
    requires forall k :: 0 <= k < i && Marked(synced[k]) ==> !SameMessage(synced[k].value, m)
    ensures Replacement(Remember(s, push, order).cache, conversation, synced, i) == Some(m)
  {
    hide Key, Nested, SameMessage, Remember;
    var key := Key(conversation, Some(m));
    SameKeyExactlyWhen(conversation, synced[i].value, m);
    LastInPush(push, order, conversation, j, m);
    RememberMeans(s, push, order, key);
    forall k | 0 <= k < i && Marked(synced[k]) ensures Key(conversation, synced[k]) != key {
      MarkedIsSome(synced[k]);
      SameKeyExactlyWhen(conversation, synced[k].value, m);
    }
    assert key !in MarkedKeys(conversation, synced[..i]);
  }

  // --- The parser ------------------------------------------------------------------------

  class Parser {
    var realtimeMsgMap: Cache
    ghost var log: seq<Entry>

    constructor ()
      ensures Value() == EMPTY
    {
      realtimeMsgMap, log := map[], [];
    }

    ghost function Value(): State
      reads this
    {
      State(realtimeMsgMap, log)
    }

    method TakeRealtimeMsgData(conversation: string, msg: Option<Msg>) returns (r: Option<Msg>)
      modifies this
      ensures Took(Value(), r) == Take(old(Value()), conversation, msg)
    {
      hide Key;
      var key := Key(conversation, msg);
      if key == "" || key !in realtimeMsgMap {
        return None;
      }
      r := Some(realtimeMsgMap[key]);
      log := log + [HandedOut(key, realtimeMsgMap[key])];
      realtimeMsgMap := realtimeMsgMap - {key};
    }

    method RememberPull(conversation: string, msgs: seq<Option<Msg>>)
      modifies this
      ensures Value() == RememberList(old(Value()), conversation, msgs)
    {
      hide Key;
      for i := 0 to |msgs|
        invariant Value() == RememberList(old(Value()), conversation, msgs[..i])
      {
        assert Front(msgs[..i + 1]) == msgs[..i];
        var key := Key(conversation, msgs[i]);
        if key == "" || msgs[i].None? {
          continue;
        }
        realtimeMsgMap := realtimeMsgMap[key := msgs[i].value];
        log := log + [Stored(key, msgs[i].value)];
      }
      assert msgs[..|msgs|] == msgs;
    }

    method RememberRealtimePushMessages(push: Push, order: seq<string>)
      requires Visits(push, order)
      modifies this
      ensures Value() == Remember(old(Value()), push, order)
    {
      hide RememberList;
      for i := 0 to |order|
        invariant Elements(order[..i]) <= push.Keys
        invariant Value() == Remember(old(Value()), push, order[..i])
      {
        assert order[i] in Elements(order) && Elements(order[..i + 1]) <= Elements(order);
        assert Front(order[..i + 1]) == order[..i];
        var pull := push[order[i]];
        if pull.Some? {
          RememberPull(order[i], pull.value.msgs);
        }
      }
      assert order[..|order|] == order;
    }

    method SweepPull(conversation: string, msgs: seq<Option<Msg>>) returns (out: seq<Option<Msg>>, removed: bool)
      modifies this
      ensures Swept(Value(), out, removed) == SweepList(old(Value()), conversation, msgs)
    {
      hide Take;
      out, removed := [], false;
      for i := 0 to |msgs|
        invariant Swept(Value(), out, removed) == SweepList(old(Value()), conversation, msgs[..i])
      {
        assert Front(msgs[..i + 1]) == msgs[..i];
        var raw := msgs[i];
        if raw.None? {
          continue;
        }
        if SECURE_MARKER <= raw.value.ex {
          removed := true;
          var realtimeMsg := TakeRealtimeMsgData(conversation, raw);
          if realtimeMsg.Some? {
            out := out + [realtimeMsg];
          }
          continue;
        }
        out := out + [raw];
      }
      assert msgs[..|msgs|] == msgs;
    }

    method SanitizeSyncedPushMessages(push: Push, order: seq<string>) returns (r: Option<Push>)
      requires Visits(push, order)
      modifies this
      ensures (Value(), r) == Sanitize(old(Value()), push, order)
    {
      hide SweepList;
      var sanitized: Push := map[];
      var removedSecure := false;
      for i := 0 to |order|
        invariant Elements(order[..i]) <= push.Keys
        invariant Sanitized(Value(), sanitized, removedSecure) == SweepAll(old(Value()), push, order[..i])
      {
        assert order[i] in Elements(order) && Elements(order[..i + 1]) <= Elements(order);
        assert Front(order[..i + 1]) == order[..i];
        var pull := push[order[i]];
        if pull.None? {
          sanitized := sanitized[order[i] := None];
          continue;
        }
        var out, removed := SweepPull(order[i], pull.value.msgs);
        removedSecure := removedSecure || removed;
        sanitized := sanitized[order[i] := Some(pull.value.(msgs := out))];
      }
      assert order[..|order|] == order;
      if !removedSecure {
        return None;
      }
      return Some(sanitized);
    }
  }
}
