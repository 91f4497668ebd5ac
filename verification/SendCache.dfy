/** The sender's cache of outbound plaintexts (e2ewebsocket/recovery.go): a map bounded by
    evicting the oldest insertion, and the answers to lost requests taken from it. */
module SendCache {
  import opened Common
  import opened MessageRef
  import opened ReorderSpec

  const MAX_SEND_CACHE_ENTRIES: nat := 256

  datatype Entry = Entry(ref: Ref, content: Bytes)

  datatype Cache = Cache(entries: map<string, Entry>, order: seq<string>)

  function Evict(c: Cache): Cache
    decreases |c.order|
  {
    if |c.order| <= MAX_SEND_CACHE_ENTRIES then c
    else Evict(Cache(c.entries - {c.order[0]}, c.order[1..]))
  }

  function Put(c: Cache, msg: MsgData): Cache {
    var key := Key(msg.ref);
    if key == "" then c
    else Evict(Cache(c.entries[key := Entry(msg.ref, msg.content)],
                     if key in c.entries then c.order else c.order + [key]))
  }

  function After(hist: seq<MsgData>): Cache {
    if hist == [] then Cache(map[], []) else Put(After(Front(hist)), Last(hist))
  }

  // --- The cache seen from its history --------------------------------------------------

  /** The newest 256 entries of an append-only log. */
  function Window(log: seq<string>): seq<string> {
    if |log| <= 256 then log else log[|log| - 256..]
  }

  /** Every insertion ever made: a write is one unless its key is still in the window. */
  function Insertions(hist: seq<MsgData>): seq<string> {
    if hist == [] then []
    else
      var log, key := Insertions(Front(hist)), Key(Last(hist).ref);
      if key == "" || key in Window(log) then log else log + [key]
  }

  function LastWrite(hist: seq<MsgData>, key: string): Option<Entry> {
    if hist == [] then None
    else if Key(Last(hist).ref) == key then Some(Entry(Last(hist).ref, Last(hist).content))
    else LastWrite(Front(hist), key)
  }

  predicate CacheInv(c: Cache) {
    NoDuplicates(c.order) && Elements(c.order) == c.entries.Keys && |c.order| <= MAX_SEND_CACHE_ENTRIES
  }

  /** One write: at most one entry goes, and it is the oldest. */
  lemma PutShape(c: Cache, msg: MsgData)
    requires CacheInv(c) && Key(msg.ref) != ""
    ensures var key, d := Key(msg.ref), Put(c, msg);
            && CacheInv(d)
            && d.order == Window(if key in c.entries then c.order else c.order + [key])
            && (forall k :: k in d.entries && k != key ==> k in c.entries && d.entries[k] == c.entries[k])
            && key in d.entries && d.entries[key] == Entry(msg.ref, msg.content)
  {
    hide Key;
    var key := Key(msg.ref);
    var entries := c.entries[key := Entry(msg.ref, msg.content)];
    if key in c.entries {
      assert Evict(Cache(entries, c.order)) == Cache(entries, c.order);
    } else {
      var order := c.order + [key];
      assert Elements(order) == Elements(c.order) + {key};
      assert NoDuplicates(order) by {
        forall i | 0 <= i < |c.order| ensures order[i] != key { assert c.order[i] in Elements(c.order); }
      }
      if |order| > MAX_SEND_CACHE_ENTRIES {
        var d := Cache(entries - {order[0]}, order[1..]);
        assert Evict(Cache(entries, order)) == Evict(d) == d;
        TailElements(order);
        assert order[0] != order[|order| - 1] == key;
      }
    }
  }

  lemma TailElements(xs: seq<string>)
    requires xs != [] && NoDuplicates(xs)
    ensures NoDuplicates(xs[1..]) && Elements(xs[1..]) == Elements(xs) - {xs[0]}
  {
    forall x | x in Elements(xs) - {xs[0]} ensures x in Elements(xs[1..]) {
      var i :| 0 <= i < |xs| && xs[i] == x;
      assert xs[1..][i - 1] == x;
    }
  }

  lemma WindowAppend(log: seq<string>, key: string)
    ensures Window(Window(log) + [key]) == Window(log + [key])
  {
  }

  /** The cache is a bounded FIFO map over every history: its order is the newest 256
      insertions, without repeats, its keys are exactly those, and each key holds what
      was last written under it. */
  lemma {:induction false} CacheIsWindowOfHistory(hist: seq<MsgData>)
    ensures CacheInv(After(hist))
    ensures After(hist).order == Window(Insertions(hist))
    ensures forall k :: k in After(hist).entries ==> LastWrite(hist, k) == Some(After(hist).entries[k])
  {
    hide Key, Put, CacheInv;
    if hist == [] {
      EmptyCache();
    } else {
      var c, msg := After(Front(hist)), Last(hist);
      CacheIsWindowOfHistory(Front(hist));
      if Key(msg.ref) == "" {
        UnidentifiedIgnored(c, msg);
        KeysIdentified(Front(hist));
      } else {
        PutShape(c, msg);
        InvKeys(c);
        assert Key(msg.ref) in c.entries <==> Key(msg.ref) in Window(Insertions(Front(hist)));
        WindowAppend(Insertions(Front(hist)), Key(msg.ref));
        assert Window(Window(Insertions(Front(hist)))) == Window(Insertions(Front(hist)));
      }
    }
  }

  lemma EmptyCache()
    ensures CacheInv(Cache(map[], []))
  {
  }

  lemma UnidentifiedIgnored(c: Cache, msg: MsgData)
    requires Key(msg.ref) == ""
    ensures Put(c, msg) == c
  {
    hide Key;
  }

  lemma InvKeys(c: Cache)
    requires CacheInv(c)
    ensures forall k :: k in c.entries <==> k in c.order
  {
    forall k ensures k in c.entries <==> k in c.order {
      assert k in c.order <==> k in Elements(c.order);
    }
  }

  lemma {:induction false} KeysIdentified(hist: seq<MsgData>)
    ensures "" !in After(hist).entries
    ensures CacheInv(After(hist))
  {
    hide Key, Put, CacheInv;
    if hist == [] {
      EmptyCache();
    } else {
      KeysIdentified(Front(hist));
      if Key(Last(hist).ref) == "" {
        UnidentifiedIgnored(After(Front(hist)), Last(hist));
      } else {
        PutShape(After(Front(hist)), Last(hist));
      }
    }
  }

  // --- Answering lost requests ----------------------------------------------------------

  function FindCached(c: Cache, ref: Ref): Option<Entry> {
    match FirstPresent(CandidateKeys(ref), c.entries.Keys)
    case None => None
    case Some(k) => Some(c.entries[k])
  }

  function Respond(c: Cache, messages: seq<Payload>): seq<Payload> {
    if messages == [] then []
    else
      Respond(c, Front(messages))
      + (match FindCached(c, Last(messages).ref)
         case None => []
         case Some(e) => [Payload(Merge(Last(messages).ref, e.ref), e.content)])
  }

  /** A reference is found exactly when one of its keys is cached, and then by the first. */
  lemma FoundExactlyWhen(c: Cache, ref: Ref)
    ensures var keys := CandidateKeys(ref);
            && (FindCached(c, ref).Some? <==> exists i :: 0 <= i < |keys| && keys[i] in c.entries)
            && forall i :: 0 <= i < |keys| && keys[i] in c.entries && (forall j :: 0 <= j < i ==> keys[j] !in c.entries) ==>
                 FindCached(c, ref) == Some(c.entries[keys[i]])
  {
    hide CandidateKeys;
    var keys := CandidateKeys(ref);
    forall i | 0 <= i < |keys| && keys[i] in c.entries && forall j :: 0 <= j < i ==> keys[j] !in c.entries
      ensures FindCached(c, ref) == Some(c.entries[keys[i]])
    {
      FirstPresentUnique(keys, c.entries.Keys, i);
    }
  }

  /** A response answers in order exactly the requests that are found, each with the cached
      content and its reference completed from the cached one. */
  lemma {:induction false} RespondExactly(c: Cache, messages: seq<Payload>, more: Payload)
    ensures Respond(c, []) == []
    ensures Respond(c, messages + [more])
            == Respond(c, messages)
               + if FindCached(c, more.ref).None? then []
                 else [Payload(Merge(more.ref, FindCached(c, more.ref).value.ref), FindCached(c, more.ref).value.content)]
  {
    assert Front(messages + [more]) == messages && Last(messages + [more]) == more;
  }

  class Sender {
    var sendCache: map<string, Entry>
    var sendCacheOrder: seq<string>

    constructor ()
      ensures Value() == After([])
    {
      sendCache, sendCacheOrder := map[], [];
    }

    function Value(): Cache
      reads this
    {
      Cache(sendCache, sendCacheOrder)
    }

    method CacheOutboundMessage(msgData: MsgData)
      modifies this
      ensures Value() == Put(old(Value()), msgData)
    {
      KeyNonEmpty(msgData.ref);
      if !HasIdentity(msgData.ref) {
        return;
      }
      hide Key;
      var key := Key(msgData.ref);
      if key == "" {
        return;
      }
      if key !in sendCache {
        sendCacheOrder := sendCacheOrder + [key];
      }
      sendCache := sendCache[key := Entry(msgData.ref, msgData.content)];
      while |sendCacheOrder| > MAX_SEND_CACHE_ENTRIES
        invariant Evict(Value()) == Put(old(Value()), msgData)
        decreases |sendCacheOrder|
      {
        var oldest := sendCacheOrder[0];
        sendCacheOrder := sendCacheOrder[1..];
        sendCache := sendCache - {oldest};
      }
    }

    method FindCachedOutboundLocked(ref: Ref) returns (entry: Option<Entry>)
      ensures entry == FindCached(Value(), ref)
    {
      hide CandidateKeys;
      var keys := CandidateKeys(ref);
      for i := 0 to |keys|
        invariant forall j :: 0 <= j < i ==> keys[j] !in sendCache
      {
        if keys[i] in sendCache {
          FirstPresentUnique(keys, sendCache.Keys, i);
          return Some(sendCache[keys[i]]);
        }
      }
      return None;
    }

    method HandleLostRequest(messages: seq<Payload>) returns (response: seq<Payload>)
      ensures response == Respond(Value(), messages)
    {
      response := [];
      for i := 0 to |messages|
        invariant response == Respond(Value(), messages[..i])
      {
        hide FindCached;
        assert Front(messages[..i + 1]) == messages[..i] && Last(messages[..i + 1]) == messages[i];
        var entry := FindCachedOutboundLocked(messages[i].ref);
        if entry.None? {
          continue;
        }
        response := response + [Payload(Merge(messages[i].ref, entry.value.ref), entry.value.content)];
      }
      assert messages[..|messages|] == messages;
    }
  }

  lemma FirstPresentUnique(keys: seq<string>, present: set<string>, i: nat)
    requires i < |keys| && keys[i] in present
    requires forall j :: 0 <= j < i ==> keys[j] !in present
    ensures FirstPresent(keys, present) == Some(keys[i])
  {
    var found := FirstPresent(keys, present);
    assert keys[i] in present;
    var n :| 0 <= n < |keys| && keys[n] == found.value && found.value in present
             && forall j :: 0 <= j < n ==> keys[j] !in present;
  }

  // --- The round trip -------------------------------------------------------------------

  /** The four-way lookup of a retransmission is the first of its candidate keys that has
      a waiting shell. */
  lemma LookupIsFirstCandidate(lost: map<string, Shell>, ref: Ref)
    requires "" !in lost
    ensures FindShell(lost, ref) == FirstPresent(CandidateKeys(ref), lost.Keys)
  {
    var keys := CandidateKeys(ref);
    KeyNonEmpty(ref);
    var found := FindShell(lost, ref);
    if found.Some? {
      var i := if ref.clientMsgID != "" && ClientKey(ref.clientMsgID) == found.value then 0
               else if ref.serverMsgID != "" && ServerKey(ref.serverMsgID) == found.value
                    then (if ref.clientMsgID != "" then 1 else 0)
               else |keys| - 1;
      hide ClientKey, ServerKey, SeqKey;
      assert keys[i] == found.value;
      FirstPresentUnique(keys, lost.Keys, i);
    } else {
      hide ClientKey, ServerKey, SeqKey;
      assert forall i :: 0 <= i < |keys| ==> keys[i] !in lost;
    }
  }

  predicate NoEarlierShell(lost: map<string, Shell>, keys: seq<string>, own: string) {
    exists i :: 0 <= i < |keys| && keys[i] == own && forall j :: 0 <= j < i ==> keys[j] !in lost
  }

  /** A completed reference always finds a waiting shell, and finds the requester's own
      exactly when no shell waits under a key that comes earlier in it. */
  lemma RetransmissionFindsShell(lost: map<string, Shell>, p: Ref, cached: Ref)
    requires "" !in lost && HasIdentity(p) && Key(p) in lost
    ensures FindShell(lost, Merge(p, cached)).Some?
    ensures FindShell(lost, Merge(p, cached)) == Some(Key(p))
            <==> NoEarlierShell(lost, CandidateKeys(Merge(p, cached)), Key(p))
  {
    var m := Merge(p, cached);
    MergeKeepsKeys(p, cached);
    LookupIsFirstCandidate(lost, m);
    hide Key, CandidateKeys, Merge;
    var keys := CandidateKeys(m);
    if NoEarlierShell(lost, keys, Key(p)) {
      var i :| 0 <= i < |keys| && keys[i] == Key(p) && forall j :: 0 <= j < i ==> keys[j] !in lost;
      FirstPresentUnique(keys, lost.Keys, i);
    }
  }

  /** A reference whose own first key is also the completed one's is never misdirected. */
  lemma ClientIdentifiedNeverMisdirected(lost: map<string, Shell>, p: Ref, cached: Ref)
    requires p.clientMsgID != ""
    ensures NoEarlierShell(lost, CandidateKeys(Merge(p, cached)), Key(p))
  {
    assert CandidateKeys(Merge(p, cached))[0] == ClientKey(p.clientMsgID) == Key(p);
  }

  /** Request, response and retransmission restore the plaintext last cached under the
      lost reference's first key, releasing it or holding it back behind a lower gap. */
  lemma LostRequestRoundTrip(hist: seq<MsgData>, env: Env, peer: string, s: State, p: Ref, request: Payload)
    requires Inv(s) && request.ref == p
    requires Key(p) in After(hist).entries
    requires Key(p) in s.lost && s.lost[Key(p)].ref == p
    requires var cached := After(hist).entries[Key(p)];
             && NoEarlierShell(s.lost, CandidateKeys(Merge(p, cached.ref)), Key(p))
             && env.rebuild(MsgData(p, cached.content)).Some?
    ensures var cached := After(hist).entries[Key(p)];
            var item := Item(env.sessionId, peer, s.lost[Key(p)].msgType, env.rebuild(MsgData(p, cached.content)).value);
            var rest := s.lost - {Key(p)};
            && LastWrite(hist, Key(p)) == Some(cached)
            && RetransmitAll(env, peer, s, Respond(After(hist), [request]))
               == if Blocked(rest, p) then Outcome(State(rest, s.pending[Key(p) := PendingMsg(p, item)]), [])
                  else Outcome(State(rest, s.pending), [Emission(p, item)])
  {
    var c := After(hist);
    CacheIsWindowOfHistory(hist);
    KeyNonEmpty(p);
    assert Key(p) != "";
    assert CandidateKeys(p)[0] == Key(p);
    hide Key, CandidateKeys, Merge, CacheInv, After, Put;
    FirstPresentUnique(CandidateKeys(p), c.entries.Keys, 0);
    var cached := c.entries[Key(p)];
    RetransmissionFindsShell(s.lost, p, cached.ref);
    var answer := Payload(Merge(p, cached.ref), cached.content);
    RespondOne(c, request);
    assert Respond(c, [request]) == [answer];
    RetransmitSingle(env, peer, s, answer);
  }

  lemma RespondOne(c: Cache, request: Payload)
    ensures Respond(c, [request]) == match FindCached(c, request.ref)
                                     case None => []
                                     case Some(e) => [Payload(Merge(request.ref, e.ref), e.content)]
  {
    hide FindCached, Merge;
    assert Front([request]) == [] && Last([request]) == request;
    assert Respond(c, []) == [];
  }

  lemma RetransmitSingle(env: Env, peer: string, s: State, msg: Payload)
    ensures RetransmitAll(env, peer, s, [msg]) == RetransmitOne(env, peer, s, msg)
  {
    hide RetransmitOne;
    assert [msg][1..] == [];
    var one := RetransmitOne(env, peer, s, msg);
    assert RetransmitAll(env, peer, one.state, []) == Outcome(one.state, []);
    assert one.out + [] == one.out;
  }
}
