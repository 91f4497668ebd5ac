/** The write side of the byte bridge from the C library (crypto/bio.go). `WriteTo` hands a
    snapshot of the buffer to the connection without holding the data lock, so the C side
    may append, and the buffer may move to a larger array, while the snapshot is being
    written out. */
module WriteBio {
  import opened Common

  /** An open `WriteTo`: the length of its snapshot and how much of it has been written. */
  datatype Window = Window(at: nat, sent: nat)

  datatype State = State(bytes: Bytes, release: bool, window: Option<Window>)

  const EMPTY: State := State([], false, None)

  /** `Append(None)` is a call with a null pointer or a negative size. */
  datatype Op =
    | Append(data: Option<Bytes>)
    | Begin
    | Transmit(n: nat)
    | Finish
    | SetRelease(flag: bool)

  datatype Reply = Reply(rc: int, written: Bytes)

  /** A second `WriteTo` waits for the first; the connection takes a front part of what it
      was given, once. That the snapshot lies within the buffer always holds (`Sound`). */
  predicate Possible(s: State, op: Op) {
    match op
    case Begin => s.window.None?
    case Transmit(n) => s.window.Some? && s.window.value.sent == 0 && n <= s.window.value.at <= |s.bytes|
    case Finish => s.window.Some? && s.window.value.sent <= |s.bytes|
    case _ => true
  }

  datatype Stepped = Stepped(state: State, reply: Reply)

  function Step(s: State, op: Op): Stepped
    requires Possible(s, op)
  {
    match op
    case Append(None) => Stepped(s, Reply(-1, []))
    case Append(Some(data)) => Stepped(s.(bytes := s.bytes + data), Reply(|data|, []))
    case Begin =>
      Stepped(if s.bytes == [] then s else s.(window := Some(Window(|s.bytes|, 0))), Reply(0, []))
    case Transmit(n) => Stepped(s.(window := Some(s.window.value.(sent := n))), Reply(0, s.bytes[..n]))
    case Finish => Stepped(s.(bytes := s.bytes[s.window.value.sent..], window := None),
                           Reply(s.window.value.sent, []))
    case SetRelease(flag) => Stepped(s.(release := flag), Reply(0, []))
  }

  // --- Runs -----------------------------------------------------------------------------

  predicate Interleaving(ops: seq<Op>)
    decreases |ops|, 0
  {
    ops == [] || (Interleaving(Front(ops)) && Possible(After(Front(ops)), Last(ops)))
  }

  function After(ops: seq<Op>): State
    requires Interleaving(ops)
    decreases |ops|, 1
  {
    if ops == [] then EMPTY else Step(After(Front(ops)), Last(ops)).state
  }

  function Replies(ops: seq<Op>): (replies: seq<Reply>)
    requires Interleaving(ops)
    ensures |replies| == |ops|
  {
    if ops == [] then [] else Replies(Front(ops)) + [Step(After(Front(ops)), Last(ops)).reply]
  }

  /** Everything the connection has taken. */
  function Written(replies: seq<Reply>): Bytes {
    if replies == [] then [] else Written(Front(replies)) + Last(replies).written
  }

  /** Everything the C side has appended. */
  function Appended(ops: seq<Op>): Bytes {
    if ops == [] then [] else Appended(Front(ops)) + Gained(Last(ops))
  }

  function Gained(op: Op): Bytes {
    if op.Append? && op.data.Some? then op.data.value else []
  }

  predicate Sound(s: State) {
    s.window.Some? ==> s.window.value.sent <= s.window.value.at <= |s.bytes|
  }

  /** What the connection has not taken yet. */
  function Unsent(s: State): Bytes
    requires Sound(s)
  {
    if s.window.None? then s.bytes else s.bytes[s.window.value.sent..]
  }

  lemma StepConserves(s: State, op: Op)
    requires Possible(s, op) && Sound(s)
    ensures var t := Step(s, op);
            Sound(t.state) && t.reply.written + Unsent(t.state) == Unsent(s) + Gained(op)
  {
    var t := Step(s, op);
    match op
    case Append(data) =>
      if s.window.Some? && data.Some? {
        var sent := s.window.value.sent;
        assert (s.bytes + data.value)[sent..] == s.bytes[sent..] + data.value;
      }
    case Transmit(n) => assert s.bytes[..n] + s.bytes[n..] == s.bytes;
    case _ =>
  }

  /** Bytes go out in the order they were appended: over every interleaving, what was
      written out and what is still unsent make up exactly what was appended. */
  lemma {:induction false} WritesAreFifo(ops: seq<Op>)
    requires Interleaving(ops)
    ensures Sound(After(ops))
    ensures Written(Replies(ops)) + Unsent(After(ops)) == Appended(ops)
  {
    hide Step, Possible, Unsent, Gained, Sound;
    if ops == [] {
      NothingUnsent();
    } else {
      var before, op := After(Front(ops)), Last(ops);
      var replies := Replies(ops);
      assert Front(replies) == Replies(Front(ops));
      WritesAreFifo(Front(ops));
      StepConserves(before, op);
      var out := Written(Front(replies));
      assert out + Last(replies).written + Unsent(After(ops)) == out + (Last(replies).written + Unsent(After(ops)));
      assert out + Unsent(before) + Gained(op) == out + (Unsent(before) + Gained(op));
    }
  }

  // --- What the operations answer ----------------------------------------------------------

  /** An append answers how much it added, or -1 having added nothing. */
  lemma AppendAnswers(ops: seq<Op>, data: Option<Bytes>)
    requires Interleaving(ops)
    ensures var all := ops + [Append(data)];
            && Interleaving(all)
            && (data.Some? ==> Last(Replies(all)).rc == |Appended(all)| - |Appended(ops)|
                               && Appended(all) == Appended(ops) + data.value)
            && (data.None? ==> Last(Replies(all)).rc == -1 && Appended(all) == Appended(ops))
            && Written(Replies(all)) == Written(Replies(ops))
  {
    var all := ops + [Append(data)];
    assert Front(all) == ops && Last(all) == Append(data);
    assert Front(Replies(all)) == Replies(ops);
    assert Appended(ops) + [] == Appended(ops);
    assert Written(Replies(ops)) + [] == Written(Replies(ops));
  }

  /** What the connection has taken since `WriteTo` last began. */
  function WrittenSinceBegin(ops: seq<Op>): Bytes
    requires Interleaving(ops)
  {
    if ops == [] || Last(ops).Begin? then []
    else WrittenSinceBegin(Front(ops)) + Last(Replies(ops)).written
  }

  lemma {:induction false} SentIsWritten(ops: seq<Op>)
    requires Interleaving(ops) && After(ops).window.Some?
    ensures After(ops).window.value.sent == |WrittenSinceBegin(ops)|
  {
    if ops != [] && !Last(ops).Begin? {
      SentIsWritten(Front(ops));
    }
  }

  /** A finished `WriteTo` answers how much the connection took in it; it had begun because
      something was unsent, and offered all of that. */
  lemma WriteToAnswers(ops: seq<Op>)
    requires Interleaving(ops)
    ensures After(ops).window.Some? ==>
              Interleaving(ops + [Finish]) && Last(Replies(ops + [Finish])).rc == |WrittenSinceBegin(ops)|
    ensures After(ops).window.None? ==>
              var begun := After(ops + [Begin]);
              (begun.window.Some? <==> Written(Replies(ops)) != Appended(ops))
              && (begun.window.Some? ==> begun.window.value.at == |Appended(ops)| - |Written(Replies(ops))|)
  {
    WritesAreFifo(ops);
    var s := After(ops);
    if s.window.Some? {
      SentIsWritten(ops);
      assert Front(ops + [Finish]) == ops && Last(ops + [Finish]) == Finish;
    } else {
      assert Front(ops + [Begin]) == ops && Last(ops + [Begin]) == Begin;
      assert |Appended(ops)| == |Written(Replies(ops))| + |s.bytes|;
      assert s.bytes == [] ==> Written(Replies(ops)) + [] == Written(Replies(ops));
    }
  }

  lemma NothingUnsent()
    ensures Sound(EMPTY) && Unsent(EMPTY) == []
  {
  }

  // --- The buffer in place --------------------------------------------------------------

  /** The locals of an open `WriteTo`: the array its snapshot lies in, the snapshot's length
      and how much of it the connection has taken. */
  datatype Call = Call(data: array<Byte>, at: nat, n: nat)

  class WriteBio {
    var buf: array<Byte>
    var length: nat
    var releaseBuffers: bool
    var call: Option<Call>

    constructor ()
      ensures Valid() && Value() == EMPTY && Arrays() == {buf} && fresh(buf)
    {
      buf, length, releaseBuffers, call := new Byte[0], 0, false, None;
    }

    ghost function Arrays(): set<object>
      reads this
    {
      {buf} + if call.Some? then {call.value.data} else {}
    }

    /** The snapshot of an open call, wherever it lies, is still the front of the buffer. */
    ghost predicate Valid()
      reads this, Arrays()
    {
      && length <= buf.Length
      && (call.Some? ==>
            var c := call.value;
            && c.n <= c.at <= length && c.at <= c.data.Length
            && forall j :: 0 <= j < c.at ==> c.data[j] == buf[j])
    }

    ghost function Value(): State
      requires Valid()
      reads this, Arrays()
    {
      State(buf[..length], releaseBuffers,
            if call.None? then None else Some(Window(call.value.at, call.value.n)))
    }

    /** Appends in place while the capacity lasts, else in a new array with `spare` bytes of
        room to grow. */
    method Append(data: Option<Bytes>, spare: nat) returns (rc: int)
      requires Valid()
      modifies this`buf, this`length, buf
      ensures Valid() && call == old(call) && (buf == old(buf) || fresh(buf))
      ensures Step(old(Value()), Op.Append(data)) == Stepped(Value(), Reply(rc, []))
    {
      if data.None? {
        return -1;
      }
      var d := data.value;
      if length + |d| > buf.Length {
        var grown := new Byte[length + |d| + spare](_ => 0);
        var _ := CopyAt(grown, 0, buf[..length]);
        assert forall j :: 0 <= j < length ==> grown[0 + j] == buf[..length][j];
        assert forall j :: 0 <= j < length ==> grown[j] == buf[j];
        buf := grown;
      }
      AppendInPlace(d);
      return |d|;
    }

    method AppendInPlace(d: Bytes)
      requires Valid() && length + |d| <= buf.Length
      modifies this`length, buf
      ensures Valid() && buf[..length] == old(buf[..length]) + d
    {
      var _ := CopyAt(buf, length, d);
      assert buf[..length + |d|] == old(buf[..length]) + d by {
        assert buf[..length + |d|] == buf[..length] + buf[length..length + |d|];
      }
      length := length + |d|;
    }

    /** The first critical section: nothing to do when the buffer is empty. */
    method BeginWriteTo()
      requires Valid() && call.None?
      modifies this`call
      ensures Valid() && (call.Some? ==> call.value.data == buf)
      ensures Step(old(Value()), Begin) == Stepped(Value(), Reply(0, []))
    {
      if length != 0 {
        call := Some(Call(buf, length, 0));
      }
    }

    /** The connection takes `n` bytes of the snapshot while no data lock is held. */
    method Transmit(n: nat) returns (written: Bytes)
      requires Valid() && Possible(Value(), Op.Transmit(n))
      modifies this`call
      ensures Valid() && call.Some? && call.value.data == old(call.value.data)
      ensures Step(old(Value()), Op.Transmit(n)) == Stepped(Value(), Reply(0, written))
    {
      written := call.value.data[..n];
      assert written == buf[..length][..n];
      call := Some(call.value.(n := n));
    }

    /** The second critical section: drop what was written from the front. */
    method FinishWriteTo() returns (n: nat)
      requires Valid() && call.Some?
      modifies this, buf
      ensures Valid() && call.None? && (buf == old(buf) || fresh(buf))
      ensures Step(old(Value()), Finish) == Stepped(Value(), Reply(n, []))
    {
      n := call.value.n;
      call := None;
      var kept := length - n;
      SlideBack(buf, n, 0, kept);
      assert buf[..kept] == old(buf[..length])[n..] by {
        assert buf[..kept] == buf[0..0 + kept] && old(buf[n..n + (length - n)]) == old(buf[..length])[n..];
      }
      length := kept;
      if releaseBuffers && length == 0 {
        buf := new Byte[0];
      }
    }

    method SetRelease(flag: bool)
      requires Valid()
      modifies this`releaseBuffers
      ensures Valid() && Step(old(Value()), Op.SetRelease(flag)) == Stepped(Value(), Reply(0, []))
    {
      releaseBuffers := flag;
    }
  }

  /** One operation, whichever it is. */
  method Perform(b: WriteBio, op: Op, spare: nat) returns (reply: Reply)
    requires b.Valid() && Possible(b.Value(), op)
    modifies b, b.buf
    ensures b.Valid() && (b.buf == old(b.buf) || fresh(b.buf))
    ensures Stepped(b.Value(), reply) == Step(old(b.Value()), op)
  {
    reply := Reply(0, []);
    match op {
      case Append(data) =>
        var rc := b.Append(data, spare);
        reply := Reply(rc, []);
      case Begin => b.BeginWriteTo();
      case Transmit(n) =>
        var written := b.Transmit(n);
        reply := Reply(0, written);
      case Finish =>
        var n := b.FinishWriteTo();
        reply := Reply(n, []);
      case SetRelease(flag) => b.SetRelease(flag);
    }
  }

  /** Over every interleaving, and however the array grows, the buffer in place answers as
      the queue does, so what it writes out is the front of what was appended. */
  method Replay(ops: seq<Op>, spare: nat -> nat) returns (replies: seq<Reply>)
    requires Interleaving(ops)
    ensures replies == Replies(ops)
    ensures Written(replies) <= Appended(ops)
  {
    hide Step, Possible, WriteBio.Value, WriteBio.Valid, Appended, Written;
    var b := new WriteBio();
    replies := [];
    for i := 0 to |ops|
      invariant Interleaving(ops[..i])
      invariant b.Valid() && fresh(b) && fresh(b.buf)
      invariant b.Value() == After(ops[..i]) && replies == Replies(ops[..i])
    {
      PrefixIsInterleaving(ops, i + 1);
      assert Front(ops[..i + 1]) == ops[..i] && Last(ops[..i + 1]) == ops[i];
      var reply := Perform(b, ops[i], spare(i));
      replies := replies + [reply];
    }
    assert ops[..|ops|] == ops;
    WritesAreFifo(ops);
    assert Written(replies) <= Written(replies) + Unsent(After(ops));
  }

  lemma {:induction false} PrefixIsInterleaving(ops: seq<Op>, n: nat)
    requires Interleaving(ops) && n <= |ops|
    ensures Interleaving(ops[..n])
  {
    if n == |ops| {
      assert ops[..n] == ops;
    } else {
      PrefixIsInterleaving(Front(ops), n);
      assert Front(ops)[..n] == ops[..n];
    }
  }
}
