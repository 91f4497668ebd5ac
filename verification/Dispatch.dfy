/** What a connection does with a secure message from the server
    (e2ewebsocket/conn.go): whether it is dropped, whose session it belongs to, and what
    its record means to that session. */
module Dispatch {
  import opened Common
  import opened HalfConn
  import opened HandshakeMessage

  // --- Whose message ---------------------------------------------------------------------

  const REALTIME_PUSH: int := 2001

  /** Only real-time pushes, and messages without a request identifier, are decrypted. */
  predicate ShouldDrop(reqIdentifier: int) {
    reqIdentifier != 0 && reqIdentifier != REALTIME_PUSH
  }

  predicate SelfEcho(host: string, sender: string, receiver: string) {
    sender != "" && sender == host && receiver != "" && receiver != host
  }

  function PeerOf(host: string, sender: string, receiver: string): string {
    if sender == "" then receiver
    else if sender == host && receiver != "" then receiver
    else sender
  }

  function SessionId(a: string, b: string): string {
    if LexLess(a, b) then a + "_" + b else b + "_" + a
  }

  /** The session an incoming message belongs to; none when it is dropped. */
  function Route(host: string, sender: string, receiver: string, reqIdentifier: int): Option<string> {
    if ShouldDrop(reqIdentifier) || SelfEcho(host, sender, receiver) then None
    else
      var peer := PeerOf(host, sender, receiver);
      if peer == "" then None else Some(SessionId(host, peer))
  }

  /** A message reaches at its receiver the session that its sender uses for the receiver,
      and never a session of the sender itself. */
  lemma BothEndsShareSession(a: string, b: string, reqIdentifier: int)
    requires a != "" && b != "" && a != b
    ensures SessionId(a, b) == SessionId(b, a)
    ensures Route(b, a, b, reqIdentifier) == if reqIdentifier in {0, 2001} then Some(SessionId(a, b)) else None
    ensures Route(a, a, b, reqIdentifier) == None
  {
    LexLessTotal(a, b);
  }

  /** Exactly which messages reach a session, and whose: only pushes in real time or without
      a request identifier, never an echo of the host's own message to another, nor one
      without a name; the session is the sender's, or the receiver's when the sender is left
      out. */
  lemma RoutedExactlyWhen(host: string, sender: string, receiver: string, reqIdentifier: int)
    requires host != ""
    ensures Route(host, sender, receiver, reqIdentifier)
            == if reqIdentifier !in {0, 2001} then None
               else if sender == "" then (if receiver == "" then None else Some(SessionId(host, receiver)))
               else if sender == host && receiver != "" && receiver != host then None
               else Some(SessionId(host, sender))
  {
    hide SessionId;
  }

  function Lower(a: string, b: string): string {
    if LexLess(a, b) then a else b
  }

  function Higher(a: string, b: string): string {
    if LexLess(a, b) then b else a
  }

  /** `x_y` and `u_v` are one text cut at two underscores, the first cut being the earlier. */
  predicate CutTwice(x: string, y: string, u: string, v: string) {
    |x| < |u| && u[..|x| + 1] == x + "_" && y == u[|x| + 1..] + "_" + v
  }

  /** When two pairs of names share a session id: they are the same pair, or the id can be
      cut at two of its underscores. */
  lemma SessionIdNamesPair(a: string, b: string, c: string, d: string)
    ensures SessionId(a, b) == SessionId(c, d)
            <==> (a == c && b == d) || (a == d && b == c)
                 || CutTwice(Lower(a, b), Higher(a, b), Lower(c, d), Higher(c, d))
                 || CutTwice(Lower(c, d), Higher(c, d), Lower(a, b), Higher(a, b))
  {
    hide LexLess;
    LexLessTotal(a, b);
    LexLessTotal(c, d);
    CutsOfOneText(Lower(a, b), Higher(a, b), Lower(c, d), Higher(c, d));
  }

  lemma CutsOfOneText(x: string, y: string, u: string, v: string)
    ensures x + "_" + y == u + "_" + v <==> (x == u && y == v) || CutTwice(x, y, u, v) || CutTwice(u, v, x, y)
  {
    if x + "_" + y == u + "_" + v {
      if |x| == |u| {
        SameCut(x, y, u, v);
      } else if |x| < |u| {
        EarlierCut(x, y, u, v);
      } else {
        EarlierCut(u, v, x, y);
      }
    }
    if CutTwice(x, y, u, v) { JoinedCuts(x, y, u, v); }
    if CutTwice(u, v, x, y) { JoinedCuts(u, v, x, y); }
  }

  lemma SameCut(x: string, y: string, u: string, v: string)
    requires x + "_" + y == u + "_" + v && |x| == |u|
    ensures x == u && y == v
  {
    var s := x + "_" + y;
    assert s[..|x|] == x && (u + "_" + v)[..|u|] == u;
    assert s[|x| + 1..] == y && (u + "_" + v)[|u| + 1..] == v;
  }

  lemma EarlierCut(x: string, y: string, u: string, v: string)
    requires x + "_" + y == u + "_" + v && |x| < |u|
    ensures CutTwice(x, y, u, v)
  {
    var s := x + "_" + y;
    var t := u + "_" + v;
    assert s[..|x| + 1] == x + "_" && t[..|x| + 1] == u[..|x| + 1];
    assert s[|x| + 1..] == y && t[|x| + 1..] == u[|x| + 1..] + "_" + v;
  }

  lemma JoinedCuts(x: string, y: string, u: string, v: string)
    requires CutTwice(x, y, u, v)
    ensures x + "_" + y == u + "_" + v
  {
    assert u == u[..|x| + 1] + u[|x| + 1..];
    var w := u[|x| + 1..];
    assert x + "_" + (w + "_" + v) == (x + "_" + w) + "_" + v;
  }

  // --- One host's peers --------------------------------------------------------------------

  /** `h` is its own first `i` characters and an underscore, over and over, ends with an
      underscore and its last `i` characters, and the latter are a name above `h`. */
  predicate Folds(h: string, i: nat): (folds: bool)
    ensures folds ==> 1 <= i < |h|
  {
    && 1 <= i < |h| && h[i] == '_' && h[|h| - 1 - i] == '_'
    && h[i + 1..] == h[..|h| - i - 1]
    && LexLess(h, h[|h| - i..])
  }

  /** Exactly which different peers of one host share a session id: the two that a fold of
      the host's own name determines. */
  lemma PeersShareSessionExactlyWhen(h: string, p: string, q: string)
    ensures p != q && SessionId(h, p) == SessionId(h, q)
            <==> exists i: nat :: Folds(h, i) && {p, q} == {h[..i], h[|h| - i..]}
  {
    hide Folds, SessionId;
    if p != q && SessionId(h, p) == SessionId(h, q) {
      OneAboveHost(h, p, q);
      var upper, lower := if LexLess(h, p) then p else q, if LexLess(h, p) then q else p;
      SharedFolds(h, upper, lower);
      assert {p, q} == {lower, upper};
      assert Folds(h, |lower|) && {p, q} == {h[..|lower|], h[|h| - |lower|..]};
    }
    if i: nat :| Folds(h, i) && {p, q} == {h[..i], h[|h| - i..]} {
      FoldShares(h, i);
      SamePair(p, q, h[..i], h[|h| - i..]);
    }
  }

  lemma OneAboveHost(h: string, p: string, q: string)
    requires p != q && SessionId(h, p) == SessionId(h, q)
    ensures LexLess(h, p) || LexLess(h, q)
  {
    if !LexLess(h, p) && !LexLess(h, q) {
      SameCut(p, h, q, h);
    }
  }

  lemma SamePair(p: string, q: string, a: string, b: string)
    requires {p, q} == {a, b} && a != b
    ensures (p == a && q == b) || (p == b && q == a)
  {
    assert p in {a, b} && q in {a, b} && a in {p, q} && b in {p, q};
  }

  /** When a host has two peers with one session id at all, decided by its own name. */
  lemma HostCollidesExactlyWhen(h: string)
    ensures (exists p, q :: p != q && p != h && q != h && SessionId(h, p) == SessionId(h, q))
            <==> exists i: nat :: Folds(h, i)
  {
    if p, q :| p != q && p != h && q != h && SessionId(h, p) == SessionId(h, q) {
      PeersShareSessionExactlyWhen(h, p, q);
    }
    if i: nat :| Folds(h, i) {
      FoldShares(h, i);
      var q, p := h[..i], h[|h| - i..];
      assert p != q && p != h && q != h && SessionId(h, p) == SessionId(h, q);
    }
  }

  /** So a name without an underscore gives each of its host's peers its own session. */
  lemma PlainHostNeverCollides(h: string, p: string, q: string)
    requires '_' !in h
    ensures SessionId(h, p) == SessionId(h, q) <==> p == q
  {
    PeersShareSessionExactlyWhen(h, p, q);
    assert forall i: nat :: Folds(h, i) ==> h[i] in h;
  }

  lemma SharedFolds(h: string, p: string, q: string)
    requires p != q && LexLess(h, p) && SessionId(h, p) == SessionId(h, q)
    ensures Folds(h, |q|) && q == h[..|q|] && p == h[|h| - |q|..]
  {
    var s, t := SessionId(h, p), SessionId(h, q);
    var n, m := |h|, |q|;
    assert LexLess(h, q) ==> p == q by {
      if LexLess(h, q) { SameCut(h, p, h, q); }
    }
    assert s == h + "_" + p && t == q + "_" + h && !LexLess(h, q);
    assert |p| == m;
    LexLessTotal(h, p);
    if m > n {
      assert q[..n] == t[..n] == s[..n] == h;
      PrefixIsLess(q, n);
      assert false;
    }
    if m == n {
      SameCut(h, p, q, h);
      assert false;
    }
    assert q == t[..m] == s[..m] == h[..m];
    assert s[m] == h[m] && t[m] == '_';
    assert s[n] == '_' && t[n] == h[n - 1 - m];
    assert h[m + 1..] == s[m + 1..n] == t[m + 1..n] == h[..n - m - 1];
    assert p == s[n + 1..] == t[n + 1..] == h[n - m..];
    assert m >= 1;
  }

  lemma {:induction false} PrefixIsLess(s: string, n: nat)
    requires n < |s|
    ensures LexLess(s[..n], s)
  {
    if n > 0 {
      PrefixIsLess(s[1..], n - 1);
      assert s[..n][1..] == s[1..][..n - 1];
    }
  }

  lemma FoldShares(h: string, i: nat)
    requires Folds(h, i)
    ensures var q, p := h[..i], h[|h| - i..];
            p != q && p != h && q != h && SessionId(h, p) == SessionId(h, q)
  {
    var n := |h|;
    var q, p := h[..i], h[n - i..];
    PrefixIsLess(h, i);
    LexLessTotal(q, h);
    LexLessTotal(h, p);
    LexLessTotal(p, h);
    assert |p| == |q| == i;
    assert h == h[..i] + "_" + h[i + 1..];
    assert h == h[..n - i - 1] + "_" + h[n - i..];
    var w := h[i + 1..];
    assert q + "_" + w == h && w + "_" + p == h;
    assert h + "_" + p == q + "_" + (w + "_" + p);
  }

  /** A name that folds: two different peers of one host with one session id. */
  lemma SessionIdsCanCollide()
    ensures Folds("a_b_a", 3) && SessionId("a_b_a", "a_b") == SessionId("a_b_a", "b_a")
  {
    var h := "a_b_a";
    assert h[2..] == "b_a" && h[..3] == "a_b" && h[4..] == "a" == h[..1];
    FoldShares(h, 3);
  }

  // --- What its record means -------------------------------------------------------------

  const ALERT: Byte := 21
  const HANDSHAKE: Byte := 22
  const APPLICATION_DATA: Byte := 23
  const CHANGE_CIPHER_SPEC: Byte := 24
  const SECURE_CONTROL: Byte := 25

  const ALERT_TEXT: Bytes := [65, 108, 101, 114, 116]
  const CCS_TEXT: Bytes := [67, 67, 83]

  /** `wait` asks for the handshake to be awaited first. */
  datatype Verdict =
    | ResetSession(hello: Bytes)
    | Terminate
    | MarkLost(content: Bytes)
    | CloseLocally
    | Deliver(data: Bytes, wait: bool)
    | ToHandshake(data: Bytes)
    | SwitchCipher
    | Control(data: Bytes, wait: bool)
    | Panic

  predicate IsPlaintextHello(content: Bytes) {
    |content| >= 2 && content[0] == HANDSHAKE
    && ParseMessage(content[1..]).Some? && ParseMessage(content[1..]).value.HelloMsg?
  }

  predicate BeforeHandshake(half: Half, complete: bool) {
    !complete && half.cipher.None?
  }

  function Meaning(half: Half, complete: bool, loaded: bool, plaintext: Bytes): Verdict {
    if plaintext == [] then Terminate
    else
      var typ, data := plaintext[0], plaintext[1..];
      if typ == ALERT then
        if data == ALERT_TEXT then CloseLocally else Terminate
      else if typ == APPLICATION_DATA then
        if BeforeHandshake(half, complete) then MarkLost(data) else Deliver(data, !complete && loaded)
      else if typ == HANDSHAKE then
        if ParseMessage(data).Some? then ToHandshake(data)
        else if BeforeHandshake(half, complete) then MarkLost(data) else Terminate
      else if typ == CHANGE_CIPHER_SPEC then
        if data == CCS_TEXT then SwitchCipher else Terminate
      else if typ == SECURE_CONTROL then Control(data, !complete && loaded)
      else if BeforeHandshake(half, complete) then MarkLost(data) else Terminate
  }

  datatype Dispatched = Dispatched(half: Half, verdict: Verdict)

  /** `loaded`: the session existed before this record. */
  function DispatchRecord(half: Half, complete: bool, loaded: bool, record: Bytes): Dispatched {
    var unsealed := OpenRecord(half, record);
    Dispatched(unsealed.half,
               match unsealed.result
               case Ok(plaintext) => Meaning(unsealed.half, complete, loaded, plaintext)
               case Wraparound => Panic
               case _ => if IsPlaintextHello(record) then ResetSession(record[1..]) else Terminate)
  }

  method HandleRecord(conn: HalfConn, complete: bool, loaded: bool, record: Bytes) returns (v: Verdict)
    requires conn.counter.Length == COUNTER_LEN
    modifies conn, conn.counter
    ensures Dispatched(conn.Value(), v) == DispatchRecord(old(conn.Value()), complete, loaded, record)
  {
    hide OpenRecord, ParseMessage;
    var unsealed := conn.Decrypt(record);
    if unsealed.Wraparound? {
      return Panic;
    }
    if !unsealed.Ok? {
      if IsPlaintextHello(record) {
        return ResetSession(record[1..]);
      }
      return Terminate;
    }
    var plaintext := unsealed.data;
    if |plaintext| < 1 {
      return Terminate;
    }
    var typ, data := plaintext[0], plaintext[1..];
    match typ {
      case 21 =>
        if data != ALERT_TEXT {
          return Terminate;
        }
        return CloseLocally;
      case 23 =>
        if !complete && conn.cipher.None? {
          return MarkLost(data);
        }
        return Deliver(data, !complete && loaded);
      case 22 =>
        if ParseMessage(data).None? {
          if !complete && conn.cipher.None? {
            return MarkLost(data);
          }
          return Terminate;
        }
        return ToHandshake(data);
      case 24 =>
        if |data| != 3 || data != CCS_TEXT {
          return Terminate;
        }
        return SwitchCipher;
      case 25 => return Control(data, !complete && loaded);
      case _ =>
        if !complete && conn.cipher.None? {
          return MarkLost(data);
        }
        return Terminate;
    }
  }

  /** What each record means, by its first opened byte: 21 alert, 22 handshake, 23 application
      data, 24 change of cipher, 25 control. What comes before a cipher and before completion
      and is not of these, or is application data, is marked lost. */
  lemma OpenedRecordMeans(half: Half, complete: bool, loaded: bool, record: Bytes, typ: Byte, data: Bytes)
    requires OpenRecord(half, record).result == Ok([typ] + data)
    ensures var v := DispatchRecord(half, complete, loaded, record).verdict;
            var lost := !complete && half.cipher.None?;
            && (typ == 21 ==> v == if data == [65, 108, 101, 114, 116] then CloseLocally else Terminate)
            && (typ == 22 ==> v == if ParseMessage(data).Some? then ToHandshake(data)
                                   else if lost then MarkLost(data) else Terminate)
            && (typ == 23 ==> v == if lost then MarkLost(data) else Deliver(data, !complete && loaded))
            && (typ == 24 ==> v == if data == [67, 67, 83] then SwitchCipher else Terminate)
            && (typ == 25 ==> v == Control(data, !complete && loaded))
            && (typ !in {21, 22, 23, 24, 25} ==> v == if lost then MarkLost(data) else Terminate)
  {
    hide ParseMessage;
    OpeningKeepsCipher(half, record);
    hide OpenRecord;
    assert ([typ] + data)[1..] == data;
  }

  lemma OpeningKeepsCipher(half: Half, record: Bytes)
    ensures OpenRecord(half, record).half.cipher == half.cipher
  {
    hide Inc;
  }

  /** When a record resets the session: it cannot be opened, but is a hello in the clear; the
      hello then goes to the new session. Any other that cannot be opened ends the session. */
  lemma ResetExactlyWhen(half: Half, complete: bool, loaded: bool, record: Bytes, hello: Bytes)
    ensures var opening := OpenRecord(half, record).result;
            var v := DispatchRecord(half, complete, loaded, record).verdict;
            var isHello := record != [] && record[0] == 22 && ParseMessage(record[1..]).Some?
                           && ParseMessage(record[1..]).value.HelloMsg?;
            && (v == ResetSession(hello) <==>
                  !opening.Ok? && !opening.Wraparound? && isHello && hello == record[1..])
            && (!opening.Ok? && !opening.Wraparound? && !isHello ==> v == Terminate)
            && (opening.Wraparound? ==> v == Panic)
  {
    hide OpenRecord, ParseMessage;
    assert ParseMessage([]).None? by { NothingParses(); }
    assert |record| == 1 ==> record[1..] == [];
  }

  lemma NothingParses()
    ensures ParseMessage([]).None?
  {
  }

  /** The same for a record that comes in the clear, where there is no cipher yet. */
  lemma ClearRecordMeans(half: Half, complete: bool, loaded: bool, data: Bytes)
    requires half.cipher.None? && !AllOnes(half.counter)
    ensures DispatchRecord(half, complete, loaded, []).verdict == Terminate
    ensures DispatchRecord(half, complete, loaded, [23] + data).verdict
            == if complete then Deliver(data, false) else MarkLost(data)
    ensures DispatchRecord(half, complete, loaded, [25] + data).verdict == Control(data, !complete && loaded)
    ensures DispatchRecord(half, complete, loaded, [21] + data).verdict
            == if data == [65, 108, 101, 114, 116] then CloseLocally else Terminate
  {
    hide Inc, ParseMessage, AllOnes, Meaning;
    OpenedRecordMeans(half, complete, loaded, [23] + data, 23, data);
    OpenedRecordMeans(half, complete, loaded, [25] + data, 25, data);
    OpenedRecordMeans(half, complete, loaded, [21] + data, 21, data);
    EmptyMeans(complete, loaded);
  }

  lemma EmptyMeans(complete: bool, loaded: bool)
    ensures forall half :: Meaning(half, complete, loaded, []) == Terminate
  {
  }

  // --- Stale ciphertext ------------------------------------------------------------------

  /** Sealing with a short explicit nonce puts the record number's leading byte first. */
  lemma LeadingByte(half: Half, payload: Bytes, rand: Bytes)
    requires half.cipher.Some? && 1 <= half.cipher.value.explicitNonceLen < 16
    requires |half.counter| == COUNTER_LEN && SealRecord(half, payload, rand).result.Ok?
    ensures var record := SealRecord(half, payload, rand).result.data;
            record != [] && record[0] == half.counter[0] == BigEndian(half.counter) / Pow256(7)
  {
    var counter := half.counter;
    assert counter == counter[..1] + counter[1..];
    BigEndianSplit(counter[..1], counter[1..]);
    BigEndianBound(counter[1..]);
    var head, tail := counter[0] as int, BigEndian(counter[1..]);
    assert BigEndian(counter[..1]) == head by {
      assert counter[..1][..0] == [] && counter[..1][0] == counter[0];
    }
    Quotient(head, tail, Pow256(7));
    ExplicitFirst(half, payload, rand);
  }

  lemma ExplicitFirst(half: Half, payload: Bytes, rand: Bytes)
    requires half.cipher.Some? && 1 <= half.cipher.value.explicitNonceLen < 16
    requires |half.counter| == COUNTER_LEN && SealRecord(half, payload, rand).result.Ok?
    ensures var record := SealRecord(half, payload, rand).result.data;
            record != [] && record[0] == half.counter[0]
  {
    hide Inc;
  }

  predicate OutsideTypes(counter: Bytes) {
    BigEndian(counter) < ALERT as nat * Pow256(7) || (SECURE_CONTROL as nat + 1) * Pow256(7) <= BigEndian(counter)
  }

  lemma TypeRange(c: Bytes)
    requires c != [] && c[0] == BigEndian(c) / Pow256(7)
    ensures OutsideTypes(c) <==> c[0] < ALERT || c[0] > SECURE_CONTROL
  {
    hide BigEndian, Pow256;
    QuotientBelow(BigEndian(c), Pow256(7), ALERT as nat);
    QuotientBelow(BigEndian(c), Pow256(7), SECURE_CONTROL as nat + 1);
  }

  lemma QuotientBelow(v: nat, n: nat, bound: nat)
    requires n > 0
    ensures v / n < bound <==> v < bound * n
  {
    var q := v / n;
    assert v == n * q + v % n;
    if q < bound {
      AtMostTimes(q + 1, bound, n);
      assert n * q + n == (q + 1) * n;
    } else {
      AtMostTimes(bound, q, n);
    }
  }

  lemma AtMostTimes(a: nat, b: nat, n: nat)
    requires a <= b
    ensures a * n <= b * n
  {
    assert b * n - a * n == (b - a) * n;
  }

  /** A protected record that reaches a session without a cipher is never mistaken for
      something else, exactly as long as its record number does not start with one of the
      five type bytes: it is marked lost while the handshake is under way, and refused after. */
  lemma StaleCiphertext(sender: Half, payload: Bytes, rand: Bytes, half: Half, complete: bool, loaded: bool)
    requires sender.cipher.Some? && 1 <= sender.cipher.value.explicitNonceLen < 16
    requires |sender.counter| == COUNTER_LEN && SealRecord(sender, payload, rand).result.Ok?
    requires half.cipher.None? && !AllOnes(half.counter)
    ensures var record := SealRecord(sender, payload, rand).result.data;
            var v := DispatchRecord(half, complete, loaded, record).verdict;
            && record != []
            && (OutsideTypes(sender.counter) <==> record[0] !in {21, 22, 23, 24, 25})
            && (OutsideTypes(sender.counter) ==>
                  !IsPlaintextHello(record) && v == if complete then Terminate else MarkLost(record[1..]))
  {
    hide SealRecord, ParseMessage, BigEndian, Pow256, OutsideTypes;
    LeadingByte(sender, payload, rand);
    TypeRange(sender.counter);
  }

  /** And one that a session with another cipher cannot open is refused, not taken for a
      hello that would reset the session. */
  lemma UnreadableCiphertext(sender: Half, payload: Bytes, rand: Bytes, half: Half, complete: bool, loaded: bool)
    requires sender.cipher.Some? && 1 <= sender.cipher.value.explicitNonceLen < 16
    requires |sender.counter| == COUNTER_LEN && SealRecord(sender, payload, rand).result.Ok?
    requires OutsideTypes(sender.counter)
    ensures var record := SealRecord(sender, payload, rand).result.data;
            OpenRecord(half, record).result.BadRecordMAC? ==>
              DispatchRecord(half, complete, loaded, record) == Dispatched(half, Terminate)
  {
    hide SealRecord, ParseMessage, BigEndian, Pow256, OutsideTypes;
    LeadingByte(sender, payload, rand);
    TypeRange(sender.counter);
  }

  /** A peer that lost its session and starts over is heard: its plaintext hello, which the
      old cipher cannot open, resets the session and is what the new one reads first. */
  lemma RestartedPeerIsHeard(half: Half, h: Hello, complete: bool, loaded: bool)
    requires h.versions != [] && MarshalHello(h).Some?
    ensures var record := [HANDSHAKE] + MarshalHello(h).value;
            var unsealed := OpenRecord(half, record).result;
            && (unsealed.BadRecordMAC? || unsealed.NonceZero? ==>
                  && DispatchRecord(half, complete, loaded, record).verdict == ResetSession(MarshalHello(h).value)
                  && ParseMessage(MarshalHello(h).value) == Some(HelloMsg(Decoded(h))))
            && (half.cipher.None? && !AllOnes(half.counter) ==>
                  DispatchRecord(half, complete, loaded, record).verdict == ToHandshake(MarshalHello(h).value))
  {
    hide ParseMessage, MarshalHello;
    var record := [HANDSHAKE] + MarshalHello(h).value;
    assert record[1..] == MarshalHello(h).value;
    assert MarshalHello(h).value != [] by { MarshalHelloNonEmpty(h); }
    MessageRoundTrip(HelloMsg(h));
  }

  lemma MarshalHelloNonEmpty(h: Hello)
    requires h.versions != [] && MarshalHello(h).Some?
    ensures MarshalHello(h).value != []
  {
  }
}
