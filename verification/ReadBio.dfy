/** The read side of the byte bridge to the C library (crypto/bio.go). `ReadFromOnce` fills
    a buffer in two critical sections with an unlocked read of the connection in between,
    while the C side takes bytes from the front of the same buffer.

    The first part says what each critical section does to the queue and proves what holds
    over every interleaving of them; the class after it works in place on one array. */
module ReadBio {
  import opened Common

  const SSL_RECORD_SIZE: nat := 16384

  /** An open `ReadFromOnce`: the length it found, the room it offers to the connection and
      what the connection has put there. */
  datatype Window = Window(at: nat, room: nat, arrived: Bytes)

  datatype State = State(bytes: Bytes, cap: nat, eof: bool, release: bool, window: Option<Window>)

  const EMPTY: State := State([], 0, false, false, None)

  datatype Op =
    | Read(hasData: bool, size: int)
    | Begin
    | Fill(data: Bytes)
    | Finish
    | SetRelease(flag: bool)
    | MarkEOF

  datatype Reply = Reply(rc: int, data: Bytes, panicked: bool)

  const DONE: Reply := Reply(0, [], false)

  /** A second `ReadFromOnce` waits for the first; the connection fills at most the room it
      was offered, once. */
  predicate Possible(s: State, op: Op) {
    match op
    case Begin => s.window.None?
    case Fill(data) => s.window.Some? && s.window.value.arrived == [] && |data| <= s.window.value.room
    case Finish => s.window.Some?
    case _ => true
  }

  datatype Stepped = Stepped(state: State, reply: Reply)

  function Taken(s: State, size: nat): State {
    var left := s.bytes[Min(size, |s.bytes|)..];
    s.(bytes := left, cap := if s.release && left == [] then 0 else s.cap)
  }

  function Step(s: State, op: Op): Stepped
    requires Possible(s, op)
  {
    match op
    case Read(hasData, size) =>
      if size < 0 then Stepped(s, Reply(-1, [], false))
      else if s.bytes == [] then Stepped(s, Reply(if s.eof then 0 else -1, [], false))
      else if size == 0 || !hasData then Stepped(s, Reply(|s.bytes|, [], false))
      else Stepped(Taken(s, size), Reply(Min(size, |s.bytes|), s.bytes[..Min(size, |s.bytes|)], false))
    case Begin =>
      var cap := if s.cap < |s.bytes| + SSL_RECORD_SIZE then |s.bytes| + SSL_RECORD_SIZE else s.cap;
      Stepped(s.(cap := cap, window := Some(Window(|s.bytes|, cap - |s.bytes|, []))), DONE)
    case Fill(data) => Stepped(s.(window := Some(s.window.value.(arrived := data))), DONE)
    case Finish =>
      var arrived := s.window.value.arrived;
      if arrived != [] && |s.bytes| + |arrived| > s.cap
      then Stepped(s.(window := None), Reply(0, [], true))
      else Stepped(s.(bytes := s.bytes + arrived, window := None), Reply(|arrived|, [], false))
    case SetRelease(flag) => Stepped(s.(release := flag), DONE)
    case MarkEOF => Stepped(s.(eof := true), DONE)
  }

  // --- Runs -----------------------------------------------------------------------------

  predicate Interleaving(ops: seq<Op>)
    decreases |ops|, 0
  {
    ops == [] || (Interleaving(Front(ops)) && Possible(After(Front(ops)), Last(ops)))
  }

  function After(ops: seq<Op>): State
    requires Interleaving(ops)
    decreases |ops|, 1
  {
    if ops == [] then EMPTY else Step(After(Front(ops)), Last(ops)).state
  }

  function Replies(ops: seq<Op>): (replies: seq<Reply>)
    requires Interleaving(ops)
    ensures |replies| == |ops|
  {
    if ops == [] then [] else Replies(Front(ops)) + [Step(After(Front(ops)), Last(ops)).reply]
  }

  /** Everything the C side has been given. */
  function Consumed(replies: seq<Reply>): Bytes {
    if replies == [] then [] else Consumed(Front(replies)) + Last(replies).data
  }

  /** Everything the connection has delivered. */
  function Received(ops: seq<Op>): Bytes {
    if ops == [] then []
    else Received(Front(ops)) + if Last(ops).Fill? then Last(ops).data else []
  }

  function InFlight(s: State): Bytes {
    if s.window.None? then [] else s.window.value.arrived
  }

  predicate NoPanic(replies: seq<Reply>) {
    forall i :: 0 <= i < |replies| ==> !replies[i].panicked
  }

  /** The read that empties a non-empty buffer while buffers are being released. */
  predicate ReleasesBuffer(s: State, op: Op) {
    s.release && s.bytes != [] && op.Read? && op.hasData && op.size > 0 && op.size >= |s.bytes|
  }

  /** Has that happened since the last `ReadFromOnce` began? */
  predicate ReleasedInWindow(ops: seq<Op>)
    requires Interleaving(ops)
  {
    ops != [] && !Last(ops).Begin?
    && (ReleasedInWindow(Front(ops)) || ReleasesBuffer(After(Front(ops)), Last(ops)))
  }

  /** What the code relies on between its two critical sections. */
  predicate Sound(s: State, released: bool) {
    && |s.bytes| <= s.cap
    && (s.window.Some? ==>
          var w := s.window.value;
          && |w.arrived| <= w.room && w.room >= 16384
          && (if released then s.bytes == [] && s.cap == 0
              else |s.bytes| <= w.at && s.cap == w.at + w.room))
  }

  lemma StepSound(s: State, op: Op, released: bool)
    requires Possible(s, op) && Sound(s, released)
    ensures Sound(Step(s, op).state, !op.Begin? && (released || ReleasesBuffer(s, op)))
  {
  }

  lemma {:induction false} RunsAreSound(ops: seq<Op>)
    requires Interleaving(ops)
    ensures Sound(After(ops), ReleasedInWindow(ops))
  {
    if ops != [] {
      RunsAreSound(Front(ops));
      StepSound(After(Front(ops)), Last(ops), ReleasedInWindow(Front(ops)));
    }
  }

  /** The second critical section slices past the capacity exactly when bytes have arrived
      and a read in between released the buffer. */
  lemma FinishPanicsExactlyWhen(ops: seq<Op>)
    requires Interleaving(ops) && After(ops).window.Some?
    ensures Step(After(ops), Finish).reply.panicked <==> InFlight(After(ops)) != [] && ReleasedInWindow(ops)
  {
    RunsAreSound(ops);
  }

  /** Bytes come out in the order they went in: over every interleaving without a panic,
      what was consumed, what is queued and what has arrived but is not yet appended make
      up exactly what the connection delivered. */
  lemma {:induction false} ReadsAreFifo(ops: seq<Op>)
    requires Interleaving(ops) && NoPanic(Replies(ops))
    ensures Consumed(Replies(ops)) + After(ops).bytes + InFlight(After(ops)) == Received(ops)
  {
    hide Step, Possible;
    if ops != [] {
      var before, op := After(Front(ops)), Last(ops);
      var replies := Replies(ops);
      var reply := Last(replies);
      assert Front(replies) == Replies(Front(ops));
      assert NoPanic(Front(replies)) && !reply.panicked;
      ReadsAreFifo(Front(ops));
      StepConserves(before, op);
      Regroup(Consumed(Front(replies)), reply.data, After(ops).bytes, InFlight(After(ops)));
      var gained := if op.Fill? then op.data else [];
      Regroup(Consumed(Front(replies)), before.bytes, InFlight(before), gained);
    }
  }

  lemma Regroup(a: Bytes, b: Bytes, c: Bytes, d: Bytes)
    ensures a + b + c + d == a + (b + c + d)
  {
  }

  lemma StepConserves(s: State, op: Op)
    requires Possible(s, op) && !Step(s, op).reply.panicked
    ensures var t := Step(s, op);
            t.reply.data + t.state.bytes + InFlight(t.state)
            == s.bytes + InFlight(s) + if op.Fill? then op.data else []
  {
  }

  /** A read of a positive size is given the next bytes the connection delivered, as many
      as it asks for or as there are in the queue. */
  lemma ReadGivesNext(ops: seq<Op>, size: nat)
    requires Interleaving(ops) && NoPanic(Replies(ops)) && size > 0
    ensures var done := |Consumed(Replies(ops))|;
            var queued := |Received(ops)| - done - |InFlight(After(ops))|;
            var reply := Step(After(ops), Read(true, size)).reply;
            && queued >= 0
            && (queued > 0 ==> reply.rc == Min(size, queued) && reply.data == Received(ops)[done..done + reply.rc])
            && (queued == 0 ==> reply.rc == (if After(ops).eof then 0 else -1) && reply.data == [])
  {
    hide Consumed, Received, InFlight, Replies, NoPanic;
    ReadsAreFifo(ops);
    var out, s := Consumed(Replies(ops)), After(ops);
    hide After, Interleaving;
    Regrouped(out, s.bytes, InFlight(s));
    if s.bytes != [] {
      NextSlice(out, s.bytes, InFlight(s), Min(size, |s.bytes|));
    }
  }

  /** Reads that take nothing: a null buffer or a size of zero is told how much is queued, a
      negative size is refused; and a finished `ReadFromOnce` tells how much arrived in it. */
  lemma OtherAnswers(ops: seq<Op>, hasData: bool, size: int)
    requires Interleaving(ops) && NoPanic(Replies(ops))
    ensures var queued := |Received(ops)| - |Consumed(Replies(ops))| - |InFlight(After(ops))|;
            var s := After(ops);
            && (size < 0 ==> Step(s, Read(hasData, size)) == Stepped(s, Reply(-1, [], false)))
            && (size == 0 || (size > 0 && !hasData) ==>
                  Step(s, Read(hasData, size))
                  == Stepped(s, Reply(if queued > 0 then queued else if s.eof then 0 else -1, [], false)))
            && (s.window.Some? && !Step(s, Finish).reply.panicked ==>
                  Step(s, Finish).reply == Reply(|InFlight(s)|, [], false) && Step(s, Finish).state.bytes == s.bytes + InFlight(s))
  {
    hide Consumed, Received, Replies, NoPanic;
    ReadsAreFifo(ops);
    var out, s := Consumed(Replies(ops)), After(ops);
    hide After, Interleaving;
    Regrouped(out, s.bytes, InFlight(s));
    assert s.bytes + [] == s.bytes;
  }

  lemma Regrouped(a: Bytes, b: Bytes, c: Bytes)
    ensures a + b + c == a + (b + c) && |a + b + c| == |a| + |b| + |c|
  {
  }

  lemma NextSlice(done: Bytes, queue: Bytes, rest: Bytes, n: nat)
    requires n <= |queue|
    ensures (done + (queue + rest))[|done|..|done| + n] == queue[..n]
  {
  }

  predicate NeverReleases(ops: seq<Op>) {
    forall i :: 0 <= i < |ops| ==> ops[i] != SetRelease(true)
  }

  /** With buffers kept there is no panic, so the queue is exact without further conditions. */
  lemma {:induction false} KeptBuffersNeverPanic(ops: seq<Op>)
    requires Interleaving(ops) && NeverReleases(ops)
    ensures NoPanic(Replies(ops)) && !After(ops).release && !ReleasedInWindow(ops)
    ensures Consumed(Replies(ops)) + After(ops).bytes + InFlight(After(ops)) == Received(ops)
  {
    if ops != [] {
      assert Last(ops) == ops[|ops| - 1];
      KeptBuffersNeverPanic(Front(ops));
      RunsAreSound(Front(ops));
    }
    ReadsAreFifo(ops);
  }

  // --- The buffer in place --------------------------------------------------------------

  /** The locals of an open `ReadFromOnce`: the array its destination slice lies in, where
      that slice starts, and how many bytes the connection has put there. */
  datatype Call = Call(dst: array<Byte>, at: nat, n: nat)

  class ReadBio {
    var buf: array<Byte>
    var length: nat
    var eof: bool
    var releaseBuffers: bool
    var call: Option<Call>

    constructor ()
      ensures Valid() && Value() == EMPTY && Arrays() == {buf} && fresh(buf)
    {
      buf, length, eof, releaseBuffers, call := new Byte[0], 0, false, false, None;
    }

    ghost function Arrays(): set<object>
      reads this
    {
      {buf} + if call.Some? then {call.value.dst} else {}
    }

    /** While a call is open the buffer is still its array, cut somewhere at or before the
        destination, or has been released. */
    ghost predicate Valid()
      reads this
    {
      && length <= buf.Length
      && (call.Some? ==>
            && call.value.at + call.value.n <= call.value.dst.Length
            && (buf == call.value.dst ==> length <= call.value.at)
            && (buf != call.value.dst ==> length == buf.Length == 0 && call.value.at > 0))
    }

    ghost function Value(): State
      requires Valid()
      reads this, Arrays()
    {
      State(buf[..length], buf.Length, eof, releaseBuffers,
            if call.None? then None
            else
              var c := call.value;
              Some(Window(c.at, c.dst.Length - c.at, c.dst[c.at..c.at + c.n])))
    }

    method Read(hasData: bool, size: int) returns (rc: int, out: Bytes)
      requires Valid()
      modifies this, buf
      ensures Valid() && call == old(call) && (buf == old(buf) || fresh(buf))
      ensures Step(old(Value()), Op.Read(hasData, size)) == Stepped(Value(), Reply(rc, out, false))
    {
      if size < 0 {
        return -1, [];
      }
      if length == 0 {
        return if eof then 0 else -1, [];
      }
      if size == 0 || !hasData {
        return length, [];
      }
      rc := Min(size, length);
      out := buf[..rc];
      TakeFront(rc);
    }

    method TakeFront(n: nat)
      requires Valid() && 0 < n <= length
      modifies this, buf
      ensures Valid() && call == old(call) && (buf == old(buf) || fresh(buf))
      ensures Value() == Taken(old(Value()), n)
    {
      var kept := length - n;
      SlideBack(buf, n, 0, kept);
      length := kept;
      assert buf[..kept] == old(buf[..length])[n..] by {
        assert buf[..kept] == buf[0..0 + kept] && old(buf[n..n + (length - n)]) == old(buf[..length])[n..];
      }
      if call.Some? {
        var c := call.value;
        assert forall j :: c.at <= j < c.at + c.n ==> c.dst[j] == old(c.dst[j]);
        assert c.dst[c.at..c.at + c.n] == old(c.dst[c.at..c.at + c.n]);
      }
      if releaseBuffers && length == 0 {
        buf := new Byte[0];
      }
    }

    /** The first critical section: make room for at least one record. */
    method BeginReadFromOnce()
      requires Valid() && call.None?
      modifies this
      ensures Valid() && call.Some? && (buf == old(buf) || fresh(buf))
      ensures Step(old(Value()), Begin) == Stepped(Value(), DONE)
    {
      if buf.Length < length + SSL_RECORD_SIZE {
        var newBuf := new Byte[length + SSL_RECORD_SIZE](_ => 0);
        var n := CopyAt(newBuf, 0, buf[..length]);
        assert newBuf[..length] == buf[..length] by {
          assert forall j :: 0 <= j < length ==> newBuf[0 + j] == buf[..length][j];
        }
        buf := newBuf;
      }
      call := Some(Call(buf, length, 0));
      assert buf[length..length + 0] == [];
      assert Value().bytes == old(Value()).bytes;
      assert Value().window.value.arrived == [];
    }

    /** The connection writes into the destination slice while no lock is held. */
    method Fill(data: Bytes)
      requires Valid() && Possible(Value(), Op.Fill(data))
      modifies this`call, call.value.dst
      ensures Valid() && buf == old(buf) && call.Some? && call.value.dst == old(call.value.dst)
      ensures Step(old(Value()), Op.Fill(data)) == Stepped(Value(), DONE)
    {
      var dst, at := call.value.dst, call.value.at;
      var n := CopyAt(dst, at, data);
      call := Some(Call(dst, at, |data|));
      assert dst[at..at + |data|] == data;
      assert Value().bytes == old(Value()).bytes by {
        if buf == dst {
          assert buf[..length] == dst[..at][..length];
          assert old(buf[..length]) == old(dst[..at])[..length];
        }
      }
    }

    /** The second critical section: append what arrived, sliding it back when the queue has
        shrunk in the meantime. A slice past the capacity is reported; the source panics. */
    method FinishReadFromOnce() returns (n: nat, panicked: bool)
      requires Valid() && call.Some?
      modifies this, buf
      ensures Valid() && call.None? && buf == old(buf)
      ensures Step(old(Value()), Finish) == Stepped(Value(), Reply(n, [], panicked))
    {
      var c := call.value;
      call := None;
      if c.n > 0 {
        if length + c.n > buf.Length {
          return 0, true;
        }
        AppendArrived(c.at, c.n);
      } else {
        assert old(Value()).bytes + [] == old(Value()).bytes;
      }
      return c.n, false;
    }

    /** What arrived from `at` on becomes the end of the queue. */
    method AppendArrived(at: nat, n: nat)
      requires length <= at && at + n <= buf.Length
      modifies this`length, buf
      ensures length == old(length) + n && buf[..length] == old(buf[..length] + buf[at..at + n])
    {
      if at != length {
        SlideBack(buf, at, length, n);
      }
      assert buf[..length + n] == buf[..length] + buf[length..length + n];
      length := length + n;
    }

    method SetRelease(flag: bool)
      requires Valid()
      modifies this`releaseBuffers
      ensures Valid() && Step(old(Value()), Op.SetRelease(flag)) == Stepped(Value(), DONE)
    {
      releaseBuffers := flag;
    }

    method MarkEOF()
      requires Valid()
      modifies this`eof
      ensures Valid() && Step(old(Value()), Op.MarkEOF) == Stepped(Value(), DONE)
    {
      eof := true;
    }
  }

  /** One operation, whichever it is. */
  method Perform(b: ReadBio, op: Op) returns (reply: Reply)
    requires b.Valid() && Possible(b.Value(), op)
    modifies b, b.Arrays()
    ensures b.Valid() && (forall a :: a in b.Arrays() ==> a in old(b.Arrays()) || fresh(a))
    ensures Stepped(b.Value(), reply) == Step(old(b.Value()), op)
  {
    reply := DONE;
    match op {
      case Read(hasData, size) =>
        var rc, out := b.Read(hasData, size);
        reply := Reply(rc, out, false);
      case Begin => b.BeginReadFromOnce();
      case Fill(data) => b.Fill(data);
      case Finish =>
        var n, panicked := b.FinishReadFromOnce();
        reply := Reply(n, [], panicked);
      case SetRelease(flag) => b.SetRelease(flag);
      case MarkEOF => b.MarkEOF();
    }
  }

  /** Over every interleaving the buffer in place answers as the queue does, so what it
      hands out is the front of what the connection delivered. */
  method Replay(ops: seq<Op>) returns (replies: seq<Reply>)
    requires Interleaving(ops)
    ensures replies == Replies(ops)
    ensures NoPanic(replies) ==> Consumed(replies) <= Received(ops)
  {
    hide Step, Possible, ReadBio.Value, ReadBio.Valid, Received, Consumed, NoPanic;
    var b := new ReadBio();
    replies := [];
    for i := 0 to |ops|
      invariant Interleaving(ops[..i])
      invariant b.Valid() && fresh(b) && (forall a :: a in b.Arrays() ==> fresh(a))
      invariant b.Value() == After(ops[..i]) && replies == Replies(ops[..i])
    {
      PrefixIsInterleaving(ops, i + 1);
      assert Front(ops[..i + 1]) == ops[..i] && Last(ops[..i + 1]) == ops[i];
      var reply := Perform(b, ops[i]);
      replies := replies + [reply];
    }
    assert ops[..|ops|] == ops;
    if NoPanic(replies) {
      ReadsAreFifo(ops);
      assert Received(ops) == Consumed(replies) + (After(ops).bytes + InFlight(After(ops)));
    }
  }

  lemma {:induction false} PrefixIsInterleaving(ops: seq<Op>, n: nat)
    requires Interleaving(ops) && n <= |ops|
    ensures Interleaving(ops[..n])
  {
    if n == |ops| {
      assert ops[..n] == ops;
    } else {
      PrefixIsInterleaving(Front(ops), n);
      assert Front(ops)[..n] == ops[..n];
    }
  }
}
