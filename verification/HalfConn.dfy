/** One direction of a session's record protection (e2ewebsocket/session.go): the record
    counter, AEAD framing and the switch to a prepared cipher. */
module HalfConn {
  import opened Common

  /** An AEAD suite as the record layer uses it. */
  datatype Aead = Aead(seal: (Bytes, Bytes, Bytes) -> Bytes,
                       open: (Bytes, Bytes, Bytes) -> Option<Bytes>,
                       overhead: nat,
                       explicitNonceLen: nat)

  /** Opening undoes sealing, and sealing adds exactly the overhead. */
  ghost predicate Lawful(c: Aead) {
    && (forall n, p, a :: c.open(n, c.seal(n, p, a), a) == Some(p))
    && (forall n, p, a :: |c.seal(n, p, a)| == |p| + c.overhead)
  }

  /** `counter` is the eight-byte record number; `ready` the one-slot channel that tells a
      waiting switch that a cipher has been prepared. */
  datatype Half = Half(cipher: Option<Aead>, nextCipher: Option<Aead>, ready: bool, counter: Bytes)

  const COUNTER_LEN: nat := 8

  const FRESH: Half := Half(None, None, false, Zeros(COUNTER_LEN))

  datatype Result = Ok(data: Bytes) | BadRecordMAC | NonceZero | ShortRand | Wraparound

  // --- The record counter ---------------------------------------------------------------

  /** Adds one to the last byte and carries; all ones become all zeros. */
  function Inc(s: Bytes): (r: Bytes)
    ensures |r| == |s|
  {
    if s == [] then []
    else if s[|s| - 1] < 255 then s[..|s| - 1] + [s[|s| - 1] + 1]
    else Inc(s[..|s| - 1]) + [0]
  }

  predicate AllOnes(s: Bytes) {
    forall i :: 0 <= i < |s| ==> s[i] == 255
  }

  /** The increment is plus one on the number, except at its largest value. */
  lemma {:induction false} IncIsPlusOne(s: Bytes)
    ensures AllOnes(s) <==> BigEndian(s) == Pow256(|s|) - 1
    ensures !AllOnes(s) ==> BigEndian(Inc(s)) == BigEndian(s) + 1
    ensures AllOnes(s) ==> BigEndian(Inc(s)) == 0
  {
    if s != [] {
      var front, last := s[..|s| - 1], s[|s| - 1];
      IncIsPlusOne(front);
      BigEndianBound(front);
      assert s == front + [last];
      assert AllOnes(s) <==> AllOnes(front) && last == 255;
      if last < 255 {
        assert Inc(s)[..|s| - 1] == front;
      } else {
        assert Inc(s)[..|s| - 1] == Inc(front);
      }
    }
  }

  lemma {:induction false} ZerosValue(n: nat)
    ensures BigEndian(Zeros(n)) == 0
  {
    if n > 0 {
      assert Zeros(n)[..n - 1] == Zeros(n - 1);
      ZerosValue(n - 1);
    }
  }

  /** An increment changes a suffix of 255s to zeros and adds one before it. */
  lemma {:induction false} IncAt(s: Bytes, i: nat)
    requires i < |s| && s[i] < 255 && forall j :: i < j < |s| ==> s[j] == 255
    ensures Inc(s) == s[..i] + [s[i] + 1] + Zeros(|s| - 1 - i)
  {
    if i < |s| - 1 {
      var front := s[..|s| - 1];
      IncAt(front, i);
      assert front[..i] == s[..i];
      assert Zeros(|s| - 1 - i) == Zeros(|front| - 1 - i) + [0];
    }
  }

  lemma NotAllOnes(s: Bytes, i: nat)
    requires i < |s| && s[i] < 255
    ensures !AllOnes(s)
  {
  }

  lemma EachIsOnes(s: Bytes)
    requires forall j :: 0 <= j < |s| ==> s[j] == 255
    ensures AllOnes(s)
  {
  }

  lemma {:induction false} IncAllOnes(s: Bytes)
    requires AllOnes(s)
    ensures Inc(s) == Zeros(|s|)
  {
    if s != [] {
      IncAllOnes(s[..|s| - 1]);
      assert Zeros(|s|) == Zeros(|s| - 1) + [0];
    }
  }

  // --- Framing --------------------------------------------------------------------------

  /** A short explicit nonce is the counter, cut or zero-padded; a long one is random. */
  function ExplicitNonce(counter: Bytes, n: nat, rand: Bytes): (nonce: Bytes)
    requires |counter| == COUNTER_LEN && (n >= 16 ==> n <= |rand|)
    ensures |nonce| == n
  {
    if n >= 16 then rand[..n]
    else counter[..Min(n, COUNTER_LEN)] + Zeros(n - Min(n, COUNTER_LEN))
  }

  /** Counter and payload length, the length in two bytes. */
  function AdditionalData(counter: Bytes, n: nat): Bytes {
    counter + [n / 256 % 256, n % 256]
  }

  datatype Sealed = Sealed(half: Half, result: Result)

  function SealRecord(h: Half, payload: Bytes, rand: Bytes): Sealed
    requires |h.counter| == COUNTER_LEN
  {
    match h.cipher
    case None => Sealed(h, Ok(payload))
    case Some(c) =>
      var n := c.explicitNonceLen;
      if n >= 16 && |rand| < n then Sealed(h, ShortRand)
      else
        var explicit := ExplicitNonce(h.counter, n, rand);
        var nonce := if n == 0 then h.counter else explicit;
        var record := explicit + c.seal(nonce, payload, AdditionalData(h.counter, |payload|));
        Sealed(h.(counter := Inc(h.counter)), if AllOnes(h.counter) then Wraparound else Ok(record))
  }

  function OpenRecord(h: Half, payload: Bytes): Sealed {
    var counted := h.(counter := Inc(h.counter));
    match h.cipher
    case None => Sealed(counted, if AllOnes(h.counter) then Wraparound else Ok(payload))
    case Some(c) =>
      var n := c.explicitNonceLen;
      if |payload| < n then Sealed(h, BadRecordMAC)
      else if n == 0 then Sealed(h, NonceZero)
      else if |payload| - n < c.overhead then Sealed(h, BadRecordMAC)
      else
        match c.open(payload[..n], payload[n..], AdditionalData(h.counter, |payload| - n - c.overhead))
        case None => Sealed(h, BadRecordMAC)
        case Some(p) => Sealed(counted, if AllOnes(h.counter) then Wraparound else Ok(p))
  }

  // --- Switching ciphers ----------------------------------------------------------------

  function Prepare(h: Half, c: Aead): Half {
    h.(nextCipher := Some(c), ready := true)
  }

  function Switch(h: Half): Half
    requires h.nextCipher.Some?
  {
    Half(h.nextCipher, None, h.ready, Zeros(COUNTER_LEN))
  }

  /** Both ends prepared with the same cipher. */
  ghost predicate Paired(out: Half, peerIn: Half) {
    && out.cipher == peerIn.cipher
    && out.counter == peerIn.counter
    && |out.counter| == COUNTER_LEN
  }

  /** Once both ends have switched to a cipher prepared on both, they agree on cipher and
      counter whatever either counted before. */
  lemma SwitchPairs(out: Half, peerIn: Half, c: Aead)
    ensures Paired(Switch(Prepare(out, c)), Switch(Prepare(peerIn, c)))
    ensures Switch(Prepare(out, c)) == Half(Some(c), None, true, [0, 0, 0, 0, 0, 0, 0, 0])
  {
  }

  /** Exactly when the peer reads back what was sent: a suite needs an explicit nonce, for
      a suite without one the sender falls back to the counter but the receiver refuses. */
  lemma RecordRoundTrip(out: Half, peerIn: Half, payload: Bytes, rand: Bytes)
    requires Paired(out, peerIn) && out.cipher.Some? && Lawful(out.cipher.value)
    requires SealRecord(out, payload, rand).result.Ok?
    ensures var sent := SealRecord(out, payload, rand);
            var got := OpenRecord(peerIn, sent.result.data);
            && (got.result == Ok(payload) <==> out.cipher.value.explicitNonceLen > 0)
            && (out.cipher.value.explicitNonceLen == 0 ==> got == Sealed(peerIn, NonceZero))
            && (out.cipher.value.explicitNonceLen > 0 ==> Paired(sent.half, got.half))
  {
    var c := out.cipher.value;
    var n := c.explicitNonceLen;
    var explicit := ExplicitNonce(out.counter, n, rand);
    var nonce := if n == 0 then out.counter else explicit;
    var body := c.seal(nonce, payload, AdditionalData(out.counter, |payload|));
    var record := SealRecord(out, payload, rand).result.data;
    assert record == explicit + body;
    assert record[..n] == explicit && record[n..] == body;
  }

  datatype Stream = Stream(half: Half, results: seq<Result>)

  function SealAll(h: Half, payloads: seq<Bytes>, rand: nat -> Bytes): (s: Stream)
    requires |h.counter| == COUNTER_LEN
    ensures |s.half.counter| == COUNTER_LEN && |s.results| == |payloads|
  {
    if payloads == [] then Stream(h, [])
    else
      var before := SealAll(h, payloads[..|payloads| - 1], rand);
      var last := SealRecord(before.half, payloads[|payloads| - 1], rand(|payloads| - 1));
      Stream(last.half, before.results + [last.result])
  }

  function OpenAll(h: Half, records: seq<Bytes>): (s: Stream)
    ensures |s.results| == |records|
  {
    if records == [] then Stream(h, [])
    else
      var before := OpenAll(h, records[..|records| - 1]);
      var last := OpenRecord(before.half, records[|records| - 1]);
      Stream(last.half, before.results + [last.result])
  }

  predicate AllOk(results: seq<Result>) {
    forall i :: 0 <= i < |results| ==> results[i].Ok?
  }

  function Data(results: seq<Result>): (records: seq<Bytes>)
    requires AllOk(results)
    ensures |records| == |results| && forall i :: 0 <= i < |results| ==> records[i] == results[i].data
  {
    seq(|results|, i requires 0 <= i < |results| => results[i].data)
  }

  ghost predicate EnoughRand(c: Aead, rand: nat -> Bytes) {
    c.explicitNonceLen >= 16 ==> forall i :: |rand(i)| >= c.explicitNonceLen
  }

  lemma OneRecord(out: Half, peerIn: Half, payload: Bytes, rand: Bytes)
    requires Paired(out, peerIn) && out.cipher.Some? && Lawful(out.cipher.value)
    requires out.cipher.value.explicitNonceLen > 0
    requires out.cipher.value.explicitNonceLen >= 16 ==> |rand| >= out.cipher.value.explicitNonceLen
    requires BigEndian(out.counter) + 1 < Pow256(COUNTER_LEN)
    ensures var sent := SealRecord(out, payload, rand);
            && sent.result.Ok?
            && sent.half.cipher == out.cipher
            && BigEndian(sent.half.counter) == BigEndian(out.counter) + 1
            && (var got := OpenRecord(peerIn, sent.result.data);
                got.result == Ok(payload) && Paired(sent.half, got.half))
  {
    hide Lawful, Inc;
    IncIsPlusOne(out.counter);
    RecordRoundTrip(out, peerIn, payload, rand);
  }

  lemma DataSnoc(results: seq<Result>, r: Result)
    requires AllOk(results) && r.Ok?
    ensures AllOk(results + [r]) && Data(results + [r]) == Data(results) + [r.data]
  {
  }

  /** Lockstep: from paired ends, any list of payloads short of the counter's range comes
      out of the peer record by record as it went in, and both counters have moved by the
      number of records. */
  lemma {:induction false} Lockstep(out: Half, peerIn: Half, payloads: seq<Bytes>, rand: nat -> Bytes)
    requires Paired(out, peerIn) && out.cipher.Some? && Lawful(out.cipher.value)
    requires out.cipher.value.explicitNonceLen > 0 && EnoughRand(out.cipher.value, rand)
    requires BigEndian(out.counter) + |payloads| < Pow256(COUNTER_LEN)
    ensures var sent := SealAll(out, payloads, rand);
            && AllOk(sent.results)
            && (var got := OpenAll(peerIn, Data(sent.results));
                && AllOk(got.results) && Data(got.results) == payloads
                && Paired(sent.half, got.half) && sent.half.cipher == out.cipher
                && BigEndian(sent.half.counter) == BigEndian(out.counter) + |payloads|)
  {
    hide Lawful, SealRecord, OpenRecord, Data, AllOk, EnoughRand, BigEndian, Pow256;
    if payloads == [] {
      assert SealAll(out, [], rand) == Stream(out, []);
      NothingSent(peerIn);
    } else {
      var front, last := payloads[..|payloads| - 1], payloads[|payloads| - 1];
      Lockstep(out, peerIn, front, rand);
      var sent := SealAll(out, front, rand);
      var got := OpenAll(peerIn, Data(sent.results));
      assert out.cipher.value.explicitNonceLen >= 16 ==> |rand(|front|)| >= out.cipher.value.explicitNonceLen by {
        EnoughAt(out.cipher.value, rand, |front|);
      }
      OneRecord(sent.half, got.half, last, rand(|front|));
      var one := SealRecord(sent.half, last, rand(|front|));
      var back := OpenRecord(got.half, one.result.data);
      DataSnoc(sent.results, one.result);
      DataSnoc(got.results, back.result);
      var records := Data(sent.results + [one.result]);
      assert records[..|records| - 1] == Data(sent.results);
      assert payloads == front + [last];
    }
  }

  lemma EnoughAt(c: Aead, rand: nat -> Bytes, i: nat)
    requires EnoughRand(c, rand)
    ensures c.explicitNonceLen >= 16 ==> |rand(i)| >= c.explicitNonceLen
  {
  }

  lemma NothingSent(h: Half)
    ensures AllOk([]) && Data([]) == [] && OpenAll(h, []) == Stream(h, [])
  {
  }

  /** Before the switch the two counts differ: a plaintext record leaves the sender's
      counter alone and advances the receiver's. */
  lemma {:induction false} PlaintextCountsDiffer(out: Half, peerIn: Half, payloads: seq<Bytes>, rand: nat -> Bytes)
    requires out.cipher.None? && peerIn.cipher.None? && |out.counter| == |peerIn.counter| == COUNTER_LEN
    requires BigEndian(peerIn.counter) + |payloads| < Pow256(COUNTER_LEN)
    ensures var sent := SealAll(out, payloads, rand);
            && sent.half == out && AllOk(sent.results) && Data(sent.results) == payloads
            && (var got := OpenAll(peerIn, payloads);
                && AllOk(got.results) && Data(got.results) == payloads
                && got.half == peerIn.(counter := got.half.counter) && |got.half.counter| == COUNTER_LEN
                && BigEndian(got.half.counter) == BigEndian(peerIn.counter) + |payloads|)
  {
    hide SealRecord, OpenRecord, Data, AllOk, BigEndian, Pow256;
    if payloads == [] {
      NothingSent(peerIn);
    } else {
      var front, last := payloads[..|payloads| - 1], payloads[|payloads| - 1];
      PlaintextCountsDiffer(out, peerIn, front, rand);
      var sent, got := SealAll(out, front, rand), OpenAll(peerIn, front);
      OnePlaintext(out, got.half, last, rand(|front|));
      DataSnoc(sent.results, Ok(last));
      DataSnoc(got.results, Ok(last));
      assert payloads == front + [last];
    }
  }

  lemma OnePlaintext(out: Half, peerIn: Half, payload: Bytes, rand: Bytes)
    requires out.cipher.None? && peerIn.cipher.None? && |out.counter| == |peerIn.counter| == COUNTER_LEN
    requires BigEndian(peerIn.counter) + 1 < Pow256(COUNTER_LEN)
    ensures SealRecord(out, payload, rand) == Sealed(out, Ok(payload))
    ensures var got := OpenRecord(peerIn, payload);
            && got.result == Ok(payload) && |got.half.counter| == COUNTER_LEN
            && got.half == peerIn.(counter := got.half.counter)
            && BigEndian(got.half.counter) == BigEndian(peerIn.counter) + 1
  {
    hide Inc;
    IncIsPlusOne(peerIn.counter);
  }

  /** Both phases of a session: whatever was exchanged in the clear, after the switch on
      both ends the k-th protected record is the k-th payload and both counters equal k. */
  lemma LockstepAfterSwitch(clear: seq<Bytes>, c: Aead, payloads: seq<Bytes>, rand: nat -> Bytes)
    requires Lawful(c) && c.explicitNonceLen > 0 && EnoughRand(c, rand)
    requires |clear| < Pow256(COUNTER_LEN) && |payloads| < Pow256(COUNTER_LEN)
    ensures var out := Switch(Prepare(SealAll(FRESH, clear, rand).half, c));
            var peerIn := Switch(Prepare(OpenAll(FRESH, clear).half, c));
            var sent := SealAll(out, payloads, rand);
            && AllOk(sent.results)
            && (var got := OpenAll(peerIn, Data(sent.results));
                && AllOk(got.results) && Data(got.results) == payloads
                && BigEndian(sent.half.counter) == BigEndian(got.half.counter) == |payloads|)
  {
    hide SealRecord, OpenRecord, SealAll, OpenAll, Data, AllOk, Pow256, Lawful, EnoughRand, BigEndian;
    ZerosValue(COUNTER_LEN);
    PlaintextCountsDiffer(FRESH, FRESH, clear, rand);
    var out := Switch(Prepare(SealAll(FRESH, clear, rand).half, c));
    var peerIn := Switch(Prepare(OpenAll(FRESH, clear).half, c));
    SwitchPairs(SealAll(FRESH, clear, rand).half, OpenAll(FRESH, clear).half, c);
    Lockstep(out, peerIn, payloads, rand);
  }

  // --- The bytes of a record --------------------------------------------------------------

  /** The explicit nonce of the record numbered by the eight bytes `q`: for sixteen bytes or
      more it is drawn, below that it is the number, filled up with zeros or cut. */
  function NonceBytes(q: Bytes, n: nat, rand: Bytes): Bytes
    requires |q| == 8 && (n >= 16 ==> n <= |rand|)
  {
    if n >= 16 then rand[..n] else (q + Zeros(8))[..n]
  }

  /** Record number `q` is its explicit nonce and the payload sealed under it, or under the
      number when there is none, with the number and the payload's length in two bytes as
      additional data. */
  ghost predicate IsRecord(record: Bytes, c: Aead, q: Bytes, payload: Bytes, rand: Bytes)
  {
    && |q| == 8 && (c.explicitNonceLen >= 16 ==> c.explicitNonceLen <= |rand|)
    && var e := NonceBytes(q, c.explicitNonceLen, rand);
    exists high: Byte, low: Byte ::
      && high as int * 256 + low as int == |payload| % 65536
      && record == e + c.seal(if e == [] then q else e, payload, q + [high, low])
  }

  lemma SealedBytes(h: Half, payload: Bytes, rand: Bytes)
    requires h.cipher.Some? && |h.counter| == COUNTER_LEN
    ensures SealRecord(h, payload, rand).result.Ok? ==>
              IsRecord(SealRecord(h, payload, rand).result.data, h.cipher.value, h.counter, payload, rand)
  {
    hide Inc, AllOnes;
    if SealRecord(h, payload, rand).result.Ok? {
      var c := h.cipher.value;
      var n := c.explicitNonceLen;
      if n < 16 {
        assert h.counter[..Min(n, 8)] + Zeros(n - Min(n, 8)) == (h.counter + Zeros(8))[..n];
      }
      var high: Byte, low: Byte := |payload| / 256 % 256, |payload| % 256;
      assert high as int * 256 + low as int == |payload| % 65536 by { TwoBytes(|payload|); }
    }
  }

  lemma TwoBytes(v: nat)
    ensures v / 256 % 256 * 256 + v % 256 == v % 65536
  {
  }

  lemma {:induction false} NumberOf(h: Half, payloads: seq<Bytes>, rand: nat -> Bytes)
    requires h.cipher.Some? && |h.counter| == COUNTER_LEN
    requires AllOk(SealAll(h, payloads, rand).results)
    ensures SealAll(h, payloads, rand).half.cipher == h.cipher
    ensures BigEndian(SealAll(h, payloads, rand).half.counter) == BigEndian(h.counter) + |payloads|
  {
    hide BigEndian, Inc;
    if payloads != [] {
      var front := payloads[..|payloads| - 1];
      var before := SealAll(h, front, rand);
      var all := SealAll(h, payloads, rand);
      assert forall i :: 0 <= i < |front| ==> before.results[i] == all.results[i];
      assert all.results[|front|].Ok?;
      NumberOf(h, front, rand);
      IncIsPlusOne(before.half.counter);
    }
  }

  /** What is on the wire and what the AEAD is given for each record of a stream: record `k`
      carries, and is sealed under, the number `k` counted from the start of the counter. */
  lemma {:induction false} StreamBytes(h: Half, payloads: seq<Bytes>, rand: nat -> Bytes, k: nat)
    requires h.cipher.Some? && |h.counter| == COUNTER_LEN && k < |payloads|
    requires AllOk(SealAll(h, payloads, rand).results)
    ensures exists q :: |q| == 8 && BigEndian(q) == BigEndian(h.counter) + k
                        && IsRecord(SealAll(h, payloads, rand).results[k].data, h.cipher.value, q, payloads[k], rand(k))
  {
    hide BigEndian, IsRecord, SealRecord;
    var front := payloads[..|payloads| - 1];
    var before, all := SealAll(h, front, rand), SealAll(h, payloads, rand);
    assert forall i :: 0 <= i < |front| ==> before.results[i] == all.results[i];
    assert AllOk(before.results);
    if k < |front| {
      StreamBytes(h, front, rand, k);
      assert front[k] == payloads[k];
    } else {
      NumberOf(h, front, rand);
      assert all.results[k].Ok?;
      SealedBytes(before.half, payloads[k], rand(k));
    }
  }

  /** Under a suite with 8 to 15 explicit nonce bytes every record starts with its number in
      eight bytes and zeros up to that length. */
  lemma RecordStartsWithNumber(h: Half, payloads: seq<Bytes>, rand: nat -> Bytes, k: nat)
    requires h.cipher.Some? && 8 <= h.cipher.value.explicitNonceLen < 16
    requires |h.counter| == COUNTER_LEN && k < |payloads| && AllOk(SealAll(h, payloads, rand).results)
    ensures var record := SealAll(h, payloads, rand).results[k].data;
            var n := h.cipher.value.explicitNonceLen;
            && |record| >= n && BigEndian(record[..8]) == BigEndian(h.counter) + k
            && forall i :: 8 <= i < n ==> record[i] == 0
  {
    hide BigEndian, SealAll;
    StreamBytes(h, payloads, rand, k);
    var n := h.cipher.value.explicitNonceLen;
    var record := SealAll(h, payloads, rand).results[k].data;
    var q :| |q| == 8 && BigEndian(q) == BigEndian(h.counter) + k && IsRecord(record, h.cipher.value, q, payloads[k], rand(k));
    assert record[..n] == (q + Zeros(8))[..n];
    assert record[..8] == record[..n][..8] == q;
  }

  /** So no two records of a stream carry the same nonce. */
  lemma NoncesDiffer(h: Half, payloads: seq<Bytes>, rand: nat -> Bytes, j: nat, k: nat)
    requires h.cipher.Some? && 8 <= h.cipher.value.explicitNonceLen < 16
    requires |h.counter| == COUNTER_LEN && j < k < |payloads| && AllOk(SealAll(h, payloads, rand).results)
    ensures var records := SealAll(h, payloads, rand).results;
            var n := h.cipher.value.explicitNonceLen;
            |records[j].data| >= n && |records[k].data| >= n && records[j].data[..n] != records[k].data[..n]
  {
    hide BigEndian, SealAll;
    RecordStartsWithNumber(h, payloads, rand, j);
    RecordStartsWithNumber(h, payloads, rand, k);
    var records := SealAll(h, payloads, rand).results;
    var n := h.cipher.value.explicitNonceLen;
    assert records[j].data[..8] == records[j].data[..n][..8] && records[k].data[..8] == records[k].data[..n][..8];
  }

  /** When a payload can be sent: always without a cipher, as it is and uncounted; with one
      when the randomness suffices for a long nonce and the number is not the last. */
  lemma SealsExactlyWhen(h: Half, payload: Bytes, rand: Bytes)
    requires |h.counter| == COUNTER_LEN
    ensures h.cipher.None? ==> SealRecord(h, payload, rand) == Sealed(h, Ok(payload))
    ensures h.cipher.Some? ==>
              var n := h.cipher.value.explicitNonceLen;
              var s := SealRecord(h, payload, rand);
              && (s.result.Ok? <==> (n < 16 || n <= |rand|) && BigEndian(h.counter) + 1 < Pow256(8))
              && (s.result.Ok? ==> s.half == h.(counter := s.half.counter) && BigEndian(s.half.counter) == BigEndian(h.counter) + 1)
              && (n >= 16 && |rand| < n ==> s == Sealed(h, ShortRand))
  {
    hide Inc, BigEndian, Pow256, AllOnes;
    IncIsPlusOne(h.counter);
    BigEndianBound(h.counter);
  }

  /** Exactly which records are opened, with what the AEAD is asked; any other is refused and
      leaves the counter and everything else alone. */
  lemma OpensExactlyWhen(h: Half, record: Bytes)
    requires |h.counter| == COUNTER_LEN && !AllOnes(h.counter)
    ensures h.cipher.None? ==> OpenRecord(h, record) == Sealed(h.(counter := Inc(h.counter)), Ok(record))
    ensures h.cipher.Some? ==>
              var c := h.cipher.value;
              var n := c.explicitNonceLen;
              var o := OpenRecord(h, record);
              && (o.result.Ok? <==> n > 0 && exists high: Byte, low: Byte ::
                    && |record| >= n + c.overhead && high as int * 256 + low as int == (|record| - n - c.overhead) % 65536
                    && c.open(record[..n], record[n..], h.counter + [high, low]).Some?
                    && o == Sealed(h.(counter := Inc(h.counter)), Ok(c.open(record[..n], record[n..], h.counter + [high, low]).value)))
              && (!o.result.Ok? ==> o.half == h && (o.result.NonceZero? || o.result.BadRecordMAC?))
  {
    hide Inc, AllOnes, Lawful;
    if h.cipher.Some? {
      var c := h.cipher.value;
      var n := c.explicitNonceLen;
      if n > 0 && |record| >= n + c.overhead {
        var len := |record| - n - c.overhead;
        var high: Byte, low: Byte := len / 256 % 256, len % 256;
        TwoBytes(len);
        assert h.counter + [high, low] == AdditionalData(h.counter, len);
      }
    }
  }

  // --- The half connection itself -------------------------------------------------------

  datatype Switched = Done | MustWait | SessionClosed | InternalError

  class HalfConn {
    var cipher: Option<Aead>
    var nextCipher: Option<Aead>
    var nextCipherReady: bool
    const counter: array<Byte>

    constructor ()
      ensures Value() == FRESH && counter.Length == COUNTER_LEN && fresh(counter)
    {
      cipher, nextCipher, nextCipherReady := None, None, false;
      counter := new Byte[COUNTER_LEN](_ => 0);
    }

    ghost function Value(): Half
      reads this, counter
    {
      Half(cipher, nextCipher, nextCipherReady, counter[..])
    }

    /** Adds one in place from the last byte up; the wraparound is reported, the source
        panics. */
    method IncSeq() returns (wrapped: bool)
      requires counter.Length == COUNTER_LEN
      modifies counter
      ensures counter[..] == Inc(old(counter[..]))
      ensures wrapped <==> BigEndian(old(counter[..])) == Pow256(COUNTER_LEN) - 1
      ensures !wrapped ==> BigEndian(counter[..]) == BigEndian(old(counter[..])) + 1
    {
      hide BigEndian, Pow256, Inc, AllOnes;
      ghost var was := counter[..];
      IncIsPlusOne(was);
      var i := 7;
      while i >= 0
        invariant -1 <= i <= 7
        invariant forall j :: i < j <= 7 ==> was[j] == 255 && counter[j] == 0
        invariant forall j :: 0 <= j <= i ==> counter[j] == was[j]
      {
        var bumped := counter[i] as int + 1;
        counter[i] := bumped % 256;
        if counter[i] != 0 {
          IncAt(was, i);
          assert !AllOnes(was) by { NotAllOnes(was, i); }
          assert counter[..] == was[..i] + [was[i] + 1] + Zeros(7 - i);
          return false;
        }
        i := i - 1;
      }
      assert AllOnes(was) by { EachIsOnes(was); }
      IncAllOnes(was);
      assert counter[..] == Zeros(8);
      return true;
    }

    method Encrypt(payload: Bytes, rand: Bytes) returns (result: Result)
      requires counter.Length == COUNTER_LEN
      modifies this, counter
      ensures Sealed(Value(), result) == SealRecord(old(Value()), payload, rand)
    {
      IncIsPlusOne(counter[..]);
      if cipher.None? {
        return Ok(payload);
      }
      var c := cipher.value;
      var n := c.explicitNonceLen;
      var explicit: Bytes := [];
      if n > 0 {
        if n >= 16 && |rand| < n {
          return ShortRand;
        }
        explicit := ExplicitNonce(counter[..], n, rand);
      }
      var nonce := if |explicit| == 0 then counter[..] else explicit;
      var record := explicit + c.seal(nonce, payload, AdditionalData(counter[..], |payload|));
      var wrapped := IncSeq();
      result := if wrapped then Wraparound else Ok(record);
    }

    method Decrypt(payload: Bytes) returns (result: Result)
      requires counter.Length == COUNTER_LEN
      modifies this, counter
      ensures Sealed(Value(), result) == OpenRecord(old(Value()), payload)
    {
      IncIsPlusOne(counter[..]);
      var plaintext := payload;
      if cipher.Some? {
        var c := cipher.value;
        var n := c.explicitNonceLen;
        if |payload| < n {
          return BadRecordMAC;
        }
        var nonce := payload[..n];
        if |nonce| == 0 {
          return NonceZero;
        }
        var rest := payload[n..];
        if |rest| < c.overhead {
          return BadRecordMAC;
        }
        var unsealed := c.open(nonce, rest, AdditionalData(counter[..], |rest| - c.overhead));
        if unsealed.None? {
          return BadRecordMAC;
        }
        plaintext := unsealed.value;
      }
      var wrapped := IncSeq();
      result := if wrapped then Wraparound else Ok(plaintext);
    }

    method PrepareCipherSpec(c: Aead)
      modifies this
      ensures Value() == Prepare(old(Value()), c)
    {
      nextCipher := Some(c);
      if !nextCipherReady {
        nextCipherReady := true;
      }
    }

    /** The part of the switch up to the point where it has to wait for a cipher. */
    method ChangeCipherSpec() returns (r: Switched)
      requires counter.Length == COUNTER_LEN
      modifies this, counter
      ensures old(nextCipher).Some? ==> r == Done && Value() == Switch(old(Value()))
      ensures old(nextCipher).None? ==> r == MustWait && Value() == old(Value())
    {
      if nextCipher.None? {
        return MustWait;
      }
      Activate();
      return Done;
    }

    /** The waiting switch resumes when the session closes or a cipher is announced; with
        both at once either may be taken. */
    method ResumeChangeCipherSpec(closed: bool, preferClosed: bool) returns (r: Switched)
      requires counter.Length == COUNTER_LEN
      modifies this, counter
      ensures closed && (preferClosed || !old(nextCipherReady)) ==> r == SessionClosed && Value() == old(Value())
      ensures !closed && !old(nextCipherReady) ==> r == MustWait && Value() == old(Value())
      ensures !(closed && preferClosed) && old(nextCipherReady) && old(nextCipher).Some? ==>
                r == Done && Value() == Switch(old(Value()).(ready := false))
      ensures !(closed && preferClosed) && old(nextCipherReady) && old(nextCipher).None? ==>
                r == InternalError && Value() == old(Value()).(ready := false)
    {
      if closed && (preferClosed || !nextCipherReady) {
        return SessionClosed;
      }
      if !nextCipherReady {
        return MustWait;
      }
      nextCipherReady := false;
      if nextCipher.None? {
        return InternalError;
      }
      Activate();
      return Done;
    }

    method Activate()
      requires counter.Length == COUNTER_LEN && nextCipher.Some?
      modifies this, counter
      ensures Value() == Switch(old(Value()))
    {
      cipher := nextCipher;
      nextCipher := None;
      for i := 0 to 8
        invariant cipher == old(nextCipher) && nextCipher == None && nextCipherReady == old(nextCipherReady)
        invariant forall j :: 0 <= j < i ==> counter[j] == 0
      {
        counter[i] := 0;
      }
      assert counter[..] == Zeros(8);
    }
  }
}
