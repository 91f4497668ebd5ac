/** Message identities (e2ewebsocket/recovery.go): the keys a reference can be looked up
    under, and how a request's reference is completed from the sender's cached one. */
module MessageRef {
  import opened Common

  datatype Ref = Ref(sendID: string, recvID: string, clientMsgID: string, serverMsgID: string, seqNo: int)

  predicate HasIdentity(ref: Ref) {
    !(ref.clientMsgID == "" && ref.serverMsgID == "" && ref.seqNo == 0)
  }

  function ClientKey(id: string): string { "client:" + id }

  function ServerKey(id: string): string { "server:" + id }

  function SeqKey(n: int): string { "seq:" + Decimal(n) }

  function CandidateKeys(ref: Ref): seq<string> {
    (if ref.clientMsgID != "" then [ClientKey(ref.clientMsgID)] else [])
    + (if ref.serverMsgID != "" then [ServerKey(ref.serverMsgID)] else [])
    + (if ref.seqNo != 0 then [SeqKey(ref.seqNo)] else [])
  }

  function Key(ref: Ref): string {
    var keys := CandidateKeys(ref);
    if |keys| == 0 then "" else keys[0]
  }

  function Merge(primary: Ref, fallback: Ref): Ref {
    Ref(if primary.sendID == "" then fallback.sendID else primary.sendID,
        if primary.recvID == "" then fallback.recvID else primary.recvID,
        if primary.clientMsgID == "" then fallback.clientMsgID else primary.clientMsgID,
        if primary.serverMsgID == "" then fallback.serverMsgID else primary.serverMsgID,
        if primary.seqNo == 0 then fallback.seqNo else primary.seqNo)
  }

  /** A reference is stored under a key exactly when it identifies its message. */
  lemma KeyNonEmpty(ref: Ref)
    ensures Key(ref) != "" <==> HasIdentity(ref)
  {
    if ref.clientMsgID != "" {
      assert CandidateKeys(ref)[0] == ClientKey(ref.clientMsgID);
    } else if ref.serverMsgID != "" {
      assert CandidateKeys(ref)[0] == ServerKey(ref.serverMsgID);
    } else if ref.seqNo != 0 {
      assert CandidateKeys(ref)[0] == SeqKey(ref.seqNo);
    }
  }

  lemma KeyKindsDisjoint(a: string, b: string, n: int)
    ensures ClientKey(a) != ServerKey(b)
    ensures ClientKey(a) != SeqKey(n)
    ensures ServerKey(b) != SeqKey(n)
  {
    assert ClientKey(a)[0] == 'c' && ServerKey(b)[0] == 's' && SeqKey(n)[0] == 's';
    assert ServerKey(b)[2] == 'r' && SeqKey(n)[2] == 'q';
  }

  lemma SameKindKeys(a: Ref, b: Ref)
    ensures ClientKey(a.clientMsgID) == ClientKey(b.clientMsgID) <==> a.clientMsgID == b.clientMsgID
    ensures ServerKey(a.serverMsgID) == ServerKey(b.serverMsgID) <==> a.serverMsgID == b.serverMsgID
    ensures SeqKey(a.seqNo) == SeqKey(b.seqNo) <==> a.seqNo == b.seqNo
  {
    SamePrefix("client:", a.clientMsgID, b.clientMsgID);
    SamePrefix("server:", a.serverMsgID, b.serverMsgID);
    SamePrefix("seq:", Decimal(a.seqNo), Decimal(b.seqNo));
    DecimalInjective(a.seqNo, b.seqNo);
  }

  lemma CandidateKinds(a: Ref, k: string)
    ensures k in CandidateKeys(a)
            <==> (a.clientMsgID != "" && k == ClientKey(a.clientMsgID))
                 || (a.serverMsgID != "" && k == ServerKey(a.serverMsgID))
                 || (a.seqNo != 0 && k == SeqKey(a.seqNo))
  {
    hide ClientKey, ServerKey, SeqKey;
  }

  /** References meet under some key exactly when they share an id of one kind or the number. */
  lemma KeysMeetExactlyWhen(a: Ref, b: Ref)
    ensures (exists k :: k in CandidateKeys(a) && k in CandidateKeys(b))
            <==> (a.clientMsgID != "" && a.clientMsgID == b.clientMsgID)
                 || (a.serverMsgID != "" && a.serverMsgID == b.serverMsgID)
                 || (a.seqNo != 0 && a.seqNo == b.seqNo)
  {
    hide ClientKey, ServerKey, SeqKey, CandidateKeys;
    SameKindKeys(a, b);
    forall k ensures CandidateMeets(a, b, k) {
      CandidateKinds(a, k);
      CandidateKinds(b, k);
      KeyKindsDisjoint(a.clientMsgID, b.serverMsgID, b.seqNo);
      KeyKindsDisjoint(b.clientMsgID, a.serverMsgID, a.seqNo);
      KeyKindsDisjoint(a.clientMsgID, a.serverMsgID, b.seqNo);
      KeyKindsDisjoint(a.clientMsgID, b.serverMsgID, a.seqNo);
    }
    CandidateKinds(a, ClientKey(a.clientMsgID));
    CandidateKinds(b, ClientKey(a.clientMsgID));
    CandidateKinds(a, ServerKey(a.serverMsgID));
    CandidateKinds(b, ServerKey(a.serverMsgID));
    CandidateKinds(a, SeqKey(a.seqNo));
    CandidateKinds(b, SeqKey(a.seqNo));
    if k :| k in CandidateKeys(a) && k in CandidateKeys(b) {
      assert CandidateMeets(a, b, k);
    }
  }

  predicate CandidateMeets(a: Ref, b: Ref, k: string) {
    k in CandidateKeys(a) && k in CandidateKeys(b) ==>
      || (a.clientMsgID != "" && a.clientMsgID == b.clientMsgID)
      || (a.serverMsgID != "" && a.serverMsgID == b.serverMsgID)
      || (a.seqNo != 0 && a.seqNo == b.seqNo)
  }

  /** The first kind of identity that either has is the same in both: client id before server
      id before number. */
  predicate SameIdentity(a: Ref, b: Ref) {
    if a.clientMsgID != "" || b.clientMsgID != "" then a.clientMsgID == b.clientMsgID
    else if a.serverMsgID != "" || b.serverMsgID != "" then a.serverMsgID == b.serverMsgID
    else a.seqNo == b.seqNo != 0
  }

  /** References are filed under one key exactly when they have the same identity. */
  lemma FiledTogetherExactlyWhen(a: Ref, b: Ref)
    ensures Key(a) == Key(b) != "" <==> SameIdentity(a, b)
  {
    KeyNonEmpty(a);
    KeyNonEmpty(b);
    hide ClientKey, ServerKey, SeqKey;
    SameKindKeys(a, b);
    KeyKindsDisjoint(a.clientMsgID, b.serverMsgID, b.seqNo);
    KeyKindsDisjoint(b.clientMsgID, a.serverMsgID, a.seqNo);
    KeyKindsDisjoint(a.clientMsgID, a.serverMsgID, b.seqNo);
    KeyKindsDisjoint(b.clientMsgID, b.serverMsgID, a.seqNo);
  }

  /** The first of `keys` that is in `present`. */
  function FirstPresent(keys: seq<string>, present: set<string>): (k: Option<string>)
    ensures k.None? <==> forall i :: 0 <= i < |keys| ==> keys[i] !in present
    ensures k.Some? ==> exists i :: 0 <= i < |keys| && keys[i] == k.value && k.value in present
                                    && forall j :: 0 <= j < i ==> keys[j] !in present
  {
    if keys == [] then None
    else if keys[0] in present then
      Some(keys[0])
    else
      var rest := FirstPresent(keys[1..], present);
      assert keys == [keys[0]] + keys[1..];
      assert rest.None? ==> forall i :: 0 <= i < |keys| ==> keys[i] !in present by {
        if rest.None? {
          forall i | 0 <= i < |keys| ensures keys[i] !in present {
            if i > 0 { assert keys[1..][i - 1] == keys[i]; }
          }
        }
      }
      assert rest.Some? ==> exists i :: 0 <= i < |keys| && keys[i] == rest.value && rest.value in present
                                        && forall j :: 0 <= j < i ==> keys[j] !in present by {
        if rest.Some? {
          var i :| 0 <= i < |keys[1..]| && keys[1..][i] == rest.value && rest.value in present
                   && forall j :: 0 <= j < i ==> keys[1..][j] !in present;
          assert keys[i + 1] == rest.value;
          forall j | 0 <= j < i + 1 ensures keys[j] !in present {
            if j > 0 { assert keys[1..][j - 1] == keys[j]; }
          }
        }
      }
      rest
  }

  /** Where a completed reference has the `i`th key of the reference it completes. */
  function KeptAt(p: Ref, f: Ref, i: nat): (x: nat)
    requires i < |CandidateKeys(p)|
    ensures x < |CandidateKeys(Merge(p, f))| && CandidateKeys(Merge(p, f))[x] == CandidateKeys(p)[i]
  {
    var client, server := if p.clientMsgID != "" then 1 else 0, if p.serverMsgID != "" then 1 else 0;
    if i < client then 0
    else if i < client + server then (if Merge(p, f).clientMsgID != "" then 1 else 0)
    else |CandidateKeys(Merge(p, f))| - 1
  }

  /** A completed reference keeps every key of the request, in the same relative order. */
  lemma MergeKeepsKeys(p: Ref, f: Ref)
    ensures forall k :: k in CandidateKeys(p) ==> k in CandidateKeys(Merge(p, f))
    ensures HasIdentity(p) ==> Key(p) in CandidateKeys(Merge(p, f))
    ensures forall i, j :: 0 <= i < j < |CandidateKeys(p)| ==> KeptAt(p, f, i) < KeptAt(p, f, j)
  {
    KeyNonEmpty(p);
  }

  /** Nothing of either reference is given up: completing takes over exactly what is missing. */
  lemma MergeCompletes(p: Ref, f: Ref)
    ensures forall k :: k in CandidateKeys(f) ==>
              k in CandidateKeys(Merge(p, f))
              || (k == ClientKey(f.clientMsgID) && p.clientMsgID != "")
              || (k == ServerKey(f.serverMsgID) && p.serverMsgID != "")
              || (k == SeqKey(f.seqNo) && p.seqNo != 0)
    ensures HasIdentity(Merge(p, f)) <==> HasIdentity(p) || HasIdentity(f)
    ensures Merge(p, Ref("", "", "", "", 0)) == p && Merge(Ref("", "", "", "", 0), f) == f
    ensures Merge(p, p) == p
  {
    hide ClientKey, ServerKey, SeqKey;
  }
}
