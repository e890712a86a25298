/** A connection: the loop that reads and frames, in its two versions, and the sending side with
    its output buffer and busy flag. */
module ImConn {
  import opened CBytes
  import opened SimpleBuffer
  import opened Framing

  const READ_BUF_SIZE: nat := 2048
  const MAX_SOCKET_BUF_SIZE: nat := 128 * 1024

  // ---- the sending side as values ----

  /** What the socket took in all, what waits, and the flag. */
  datatype Output = Output(sent: seq<byte>, pending: seq<byte>, busy: bool)

  const FRESH_OUTPUT := Output([], [], false)

  /** What the socket takes of `n` bytes, offered in pieces, when it answers so: not more than it
      was offered, and the first answer that is not positive ends it, as does the last. */
  function Taken(n: nat, answers: seq<int>): (t: nat)
    ensures t <= n
  {
    if n == 0 || answers == [] || answers[0] <= 0 then 0
    else
      var r := Min(answers[0], Min(n, MAX_SOCKET_BUF_SIZE));
      r + Taken(n - r, answers[1..])
  }

  datatype Action = Sending(data: seq<byte>, answers: seq<int>) | Writable(answers: seq<int>)

  function Act(o: Output, a: Action): Output {
    match a
    case Sending(data, answers) =>
      if o.busy then o.(pending := o.pending + data)
      else
        var t := Taken(|data|, answers);
        Output(o.sent + data[..t], o.pending + data[t..], t < |data|)
    case Writable(answers) =>
      if !o.busy then o
      else
        var t := Taken(|o.pending|, answers);
        Output(o.sent + o.pending[..t], o.pending[t..], t < |o.pending|)
  }

  function ActAll(o: Output, run: seq<Action>): Output {
    if run == [] then o else Act(ActAll(o, run[..|run| - 1]), run[|run| - 1])
  }

  function Given(run: seq<Action>): seq<byte> {
    if run == [] then []
    else
      var a := run[|run| - 1];
      Given(run[..|run| - 1]) + if a.Sending? then a.data else []
  }

  /** After any sends and writable events, however much the socket takes or fails: what it took
      and what waits is all that was given, in order; and the flag says whether something waits. */
  lemma {:induction false} NothingLostOrReordered(run: seq<Action>)
    ensures var o := ActAll(FRESH_OUTPUT, run);
      o.sent + o.pending == Given(run) && (o.busy <==> o.pending != [])
  {
    if run == [] {
    } else {
      NothingLostOrReordered(run[..|run| - 1]);
      var o := ActAll(FRESH_OUTPUT, run[..|run| - 1]);
      var a := run[|run| - 1];
      OneAction(o, a);
      assert o.sent + o.pending + (if a.Sending? then a.data else []) == Given(run);
    }
  }

  lemma OneAction(o: Output, a: Action)
    requires o.busy <==> o.pending != []
    ensures var p := Act(o, a);
      && p.sent + p.pending == o.sent + o.pending + (if a.Sending? then a.data else [])
      && (p.busy <==> p.pending != []) && o.sent <= p.sent
  {
    hide Taken;
    match a
    case Sending(data, answers) =>
      var t := if o.busy then 0 else Taken(|data|, answers);
      Cut(o.sent, o.pending, data, t);
    case Writable(answers) =>
      var t := if o.busy then Taken(|o.pending|, answers) else 0;
      Cut(o.sent, [], o.pending, t);
      assert o.sent + [] + o.pending == o.sent + o.pending + [];
  }

  /** Bytes moved from what waits to what was taken. */
  lemma Cut(sent: seq<byte>, waits: seq<byte>, data: seq<byte>, t: nat)
    requires t <= |data| && (t > 0 ==> waits == [])
    ensures (sent + data[..t]) + (waits + data[t..]) == sent + waits + data
    ensures waits == [] ==> (sent + data[..t]) + data[t..] == sent + data
    ensures sent <= sent + data[..t]
  {
    assert data[..t] + data[t..] == data;
    if waits == [] {
      assert waits + data[t..] == data[t..] && sent + waits == sent;
      Regrouped(sent, data[..t], data[t..]);
    } else {
      assert data[..t] == [] && data[t..] == data && sent + [] == sent;
      Regrouped(sent, waits, data);
    }
  }

  /** A socket that takes all it is offered drains the buffer in one event. */
  lemma {:induction false} WillingSocketTakesAll(n: nat, answers: seq<int>)
    requires forall k :: 0 <= k < |answers| ==> answers[k] >= MAX_SOCKET_BUF_SIZE
    requires n <= |answers| * MAX_SOCKET_BUF_SIZE
    ensures Taken(n, answers) == n
  {
    if n > 0 {
      var r := Min(n, MAX_SOCKET_BUF_SIZE);
      WillingSocketTakesAll(n - r, answers[1..]);
    }
  }

  /** What was taken and what waits are the parts of all. */
  lemma Parts(was: seq<byte>, all: seq<byte>, sent: seq<byte>, rest: seq<byte>, t: nat)
    requires sent + rest == was + all && |sent| == |was| + t && |rest| == |all| - t
    ensures sent == was + all[..t] && rest == all[t..]
  {
    assert sent == (sent + rest)[..|sent|] && rest == (sent + rest)[|sent|..];
    assert (was + all)[..|was| + t] == was + all[..t];
  }

  lemma TakenNext(n: nat, answers: seq<int>, k: nat)
    requires n > 0 && k < |answers| && answers[k] > 0
    ensures var r := Min(answers[k], if n > MAX_SOCKET_BUF_SIZE then MAX_SOCKET_BUF_SIZE else n);
      Taken(n, answers[k..]) == r + Taken(n - r, answers[k + 1..])
  {
    assert answers[k..][1..] == answers[k + 1..];
  }

  lemma TakenEnd(n: nat, answers: seq<int>)
    requires n == 0 || answers == [] || answers[0] <= 0
    ensures Taken(n, answers) == 0
  {
  }

  // ---- what the socket takes, call by call ----

  /** The positions in `n` bytes that calls of send reach, from 0 on: each call offers what is left,
      but not more than the socket buffer, and the socket takes of it as much as it answers. */
  predicate Calls(n: nat, answers: seq<int>, at: seq<nat>) {
    && 0 < |at| <= |answers| + 1 && at[0] == 0
    && forall k :: 0 <= k < |at| - 1 ==> OneCall(n, answers[k], at[k], at[k + 1])
  }

  predicate OneCall(n: nat, answer: int, from: nat, to: nat) {
    answer > 0 && from < n && to == Min(from + answer, Min(n, from + MAX_SOCKET_BUF_SIZE))
  }

  /** The calls end: nothing is left, there is no further answer, or it is not positive. */
  predicate CallsEnd(n: nat, answers: seq<int>, at: seq<nat>) {
    && Calls(n, answers, at)
    && (at[|at| - 1] == n || |at| == |answers| + 1 || answers[|at| - 1] <= 0)
  }

  lemma {:induction false} TakenSoFar(n: nat, answers: seq<int>, at: seq<nat>, k: nat)
    requires Calls(n, answers, at) && k < |at|
    ensures at[k] <= n && Taken(n, answers) == at[k] + Taken(n - at[k], answers[k..])
  {
    hide Taken;
    if k == 0 {
      assert answers[0..] == answers;
    } else {
      TakenSoFar(n, answers, at, k - 1);
      assert OneCall(n, answers[k - 1], at[k - 1], at[k - 1 + 1]);
      TakenNext(n - at[k - 1], answers, k - 1);
    }
  }

  lemma {:induction false} CallsGoOn(n: nat, answers: seq<int>, at: seq<nat>) returns (all: seq<nat>)
    requires Calls(n, answers, at) && at[|at| - 1] <= n
    ensures CallsEnd(n, answers, all)
    decreases |answers| - |at|
  {
    all := at;
    var last := at[|at| - 1];
    if last < n && |at| <= |answers| && answers[|at| - 1] > 0 {
      var next := Min(last + answers[|at| - 1], Min(n, last + MAX_SOCKET_BUF_SIZE));
      assert OneCall(n, answers[|at| - 1], last, next);
      all := CallsGoOn(n, answers, at + [next]);
    }
  }

  /** The number of bytes taken is where the calls end, and they end somewhere. */
  lemma TakenIsCalls(n: nat, answers: seq<int>)
    ensures exists at :: CallsEnd(n, answers, at)
    ensures forall at :: CallsEnd(n, answers, at) ==> at[|at| - 1] == Taken(n, answers)
  {
    var at := CallsGoOn(n, answers, [0]);
    forall at | CallsEnd(n, answers, at) ensures at[|at| - 1] == Taken(n, answers) {
      TakenSoFar(n, answers, at, |at| - 1);
      TakenEnd(n - at[|at| - 1], answers[|at| - 1..]);
    }
  }

  // ---- what a send and a writable event leave ----

  /** Of `waits`, as much went to the socket as its answers take, and the rest waits. */
  ghost predicate WentOut(o: Output, waits: seq<byte>, answers: seq<int>, p: Output) {
    forall at :: CallsEnd(|waits|, answers, at) ==>
      var t := at[|at| - 1];
      t <= |waits| && p == Output(o.sent + waits[..t], waits[t..], t < |waits|)
  }

  /** Data given to an idle connection goes to the socket at once, and a writable event offers what
      waits: what is then left is what the calls did not take, so it waits only because an answer
      was not positive or there was none. */
  lemma GoesOut(o: Output, a: Action)
    requires o.busy <==> o.pending != []
    ensures var p := Act(o, a);
      match a
      case Sending(data, answers) =>
        if o.busy then p == Output(o.sent, o.pending + data, true) else WentOut(o, data, answers, p)
      case Writable(answers) => WentOut(o, o.pending, answers, p)
  {
    hide Taken, Calls, CallsEnd;
    match a
    case Sending(data, answers) =>
      TakenIsCalls(|data|, answers);
      assert !o.busy ==> forall t :: 0 <= t <= |data| ==> o.pending + data[t..] == data[t..];
    case Writable(answers) =>
      TakenIsCalls(|o.pending|, answers);
      if !o.busy {
        NothingToTake(o, answers);
      }
  }

  lemma NothingToTake(o: Output, answers: seq<int>)
    requires o.pending == [] && !o.busy
    ensures WentOut(o, [], answers, o)
  {
    hide Taken;
    forall at | CallsEnd(0, answers, at) ensures at == [0] {
      assert |at| > 1 ==> OneCall(0, answers[0], at[0], at[0 + 1]);
    }
    assert o.sent + [] == o.sent;
  }

  /** The socket takes all of `n` bytes, when every answer is for all that a call may offer. */
  predicate Willing(n: nat, answers: seq<int>) {
    (forall k :: 0 <= k < |answers| ==> answers[k] >= MAX_SOCKET_BUF_SIZE) && n <= |answers| * MAX_SOCKET_BUF_SIZE
  }

  /** After any run: a send on an idle connection, or a writable event, with a willing socket leaves
      nothing waiting; the socket has then all that was ever given, in order. */
  lemma WillingDrains(run: seq<Action>, a: Action)
    requires var o := ActAll(FRESH_OUTPUT, run);
      if a.Sending? then !o.busy && Willing(|a.data|, a.answers) else Willing(|o.pending|, a.answers)
    ensures ActAll(FRESH_OUTPUT, run + [a]) == Output(Given(run + [a]), [], false)
  {
    hide Taken;
    var o := ActAll(FRESH_OUTPUT, run);
    NothingLostOrReordered(run);
    NothingLostOrReordered(run + [a]);
    assert (run + [a])[..|run|] == run;
    WillingSocketTakesAll(if a.Sending? then |a.data| else |o.pending|, a.answers);
    var p := Act(o, a);
    assert p.pending == [];
    assert p.sent + [] == p.sent;
  }

  // ---- the connection ----

  class CImConn {
    const accepts: Handler
    const inBuf: CSimpleBuffer
    const outBuf: CSimpleBuffer
    var busy: bool
    /** The bytes that the socket took. */
    var sent: seq<byte>
    var handled: seq<seq<byte>>
    var closed: bool

    ghost predicate Valid()
      reads this, inBuf, outBuf, inBuf.buffer, outBuf.buffer
    {
      && inBuf != outBuf && inBuf.buffer != outBuf.buffer
      && inBuf.Valid() && outBuf.Valid()
    }

    ghost function In(): Input
      requires inBuf.Valid()
      reads this, inBuf, inBuf.buffer
    {
      Input(inBuf.Contents(), handled, closed)
    }

    ghost function Out(): Output
      requires outBuf.Valid()
      reads this, outBuf, outBuf.buffer
    {
      Output(sent, outBuf.Contents(), busy)
    }

    constructor (accepts: Handler)
      ensures this.accepts == accepts
      ensures Valid() && fresh(inBuf) && fresh(outBuf) && fresh(inBuf.buffer) && fresh(outBuf.buffer)
      ensures In() == FRESH_INPUT && Out() == FRESH_OUTPUT
    {
      this.accepts := accepts;
      inBuf := new CSimpleBuffer();
      outBuf := new CSimpleBuffer();
      busy, sent, handled, closed := false, [], [], false;
    }

    /** One piece from the socket, for which there is room or is made. */
    method ReceiveOne(piece: seq<byte>)
      requires Valid() && |inBuf.Contents()| + READ_BUF_SIZE <= MAX_CONTENTS && |piece| <= READ_BUF_SIZE
      modifies inBuf, inBuf.buffer
      ensures Valid() && (inBuf.buffer == old(inBuf.buffer) || fresh(inBuf.buffer))
      ensures inBuf.Contents() == old(inBuf.Contents()) + piece
    {
      hide AllocSize;
      ghost var was, at := inBuf.Contents(), inBuf.writeOffset;
      if inBuf.buffer.Length - inBuf.writeOffset < READ_BUF_SIZE {
        inBuf.Extend(READ_BUF_SIZE);
      }
      Copy(inBuf.buffer, inBuf.writeOffset, piece);
      inBuf.writeOffset := inBuf.writeOffset + |piece|;
      assert inBuf.buffer[..at + |piece|] == inBuf.buffer[..at] + inBuf.buffer[at..at + |piece|];
    }

    /** Reads what the socket has, piece by piece, into the input buffer. */
    method Receive(arrivals: seq<seq<byte>>)
      requires Valid() && |inBuf.Contents()| + |Joined(arrivals)| + READ_BUF_SIZE <= MAX_CONTENTS
      requires forall k :: 0 <= k < |arrivals| ==> 0 < |arrivals[k]| <= READ_BUF_SIZE
      modifies inBuf, inBuf.buffer
      ensures Valid() && (inBuf.buffer == old(inBuf.buffer) || fresh(inBuf.buffer))
      ensures inBuf.Contents() == old(inBuf.Contents()) + Joined(arrivals)
    {
      var k := 0;
      ghost var came: seq<byte> := [];
      while k < |arrivals|
        invariant 0 <= k <= |arrivals| && Valid()
        invariant inBuf.buffer == old(inBuf.buffer) || fresh(inBuf.buffer)
        invariant inBuf.Contents() == old(inBuf.Contents()) + came && came + Joined(arrivals[k..]) == Joined(arrivals)
      {
        assert arrivals[k..][1..] == arrivals[k + 1..];
        Regrouped(came, arrivals[k], Joined(arrivals[k + 1..]));
        Regrouped(old(inBuf.Contents()), came, arrivals[k]);
        ReceiveOne(arrivals[k]);
        came := came + arrivals[k];
        k := k + 1;
      }
      assert came + [] == came;
    }

    /** IsPduAvailable on the input buffer. */
    method Available() returns (f: Front)
      requires Valid()
      ensures f == Look(inBuf.Contents())
    {
      f := NotYet;
      if inBuf.writeOffset < HEADER_LEN {
        return;
      }
      var n := ReadUint32(inBuf.buffer[..4]);
      assert inBuf.buffer[..4][2..] == inBuf.Contents()[2..4];
      if n > inBuf.writeOffset {
        return;
      }
      f := if n == 0 then ZeroLength else Unit(n);
    }

    /** Drops a handled unit from the buffer. */
    method Drop(n: nat)
      requires Valid() && n <= |inBuf.Contents()|
      modifies inBuf`writeOffset, inBuf.buffer
      ensures Valid() && inBuf.buffer == old(inBuf.buffer)
      ensures inBuf.Contents() == old(inBuf.Contents())[n..]
      ensures outBuf.Contents() == old(outBuf.Contents())
    {
      var data := inBuf.Read(n);
    }

    /** A copy of the unit in front. */
    method ReadPdu(n: nat) returns (unit: seq<byte>)
      requires Valid() && n <= |inBuf.Contents()|
      ensures unit == inBuf.Contents()[..n]
    {
      unit := inBuf.buffer[..n];
      assert unit == inBuf.Contents()[..n];
    }

    /** HandlePdu; it may throw, and then the unit does not count as handled. */
    method Handle(unit: seq<byte>) returns (thrown: bool)
      modifies this`handled
      ensures thrown == !accepts(old(handled), unit)
      ensures handled == if thrown then old(handled) else old(handled) + [unit]
    {
      thrown := !accepts(handled, unit);
      if !thrown {
        handled := handled + [unit];
      }
    }

    /** The reading loop of most servers: it takes a copy of each unit, handles it, and drops it.
        A length of zero raises an exception, as a handler may; it closes the connection. */
    method OnRead(arrivals: seq<seq<byte>>)
      requires Valid() && !closed && |inBuf.Contents()| + |Joined(arrivals)| + READ_BUF_SIZE <= MAX_CONTENTS
      requires forall k :: 0 <= k < |arrivals| ==> 0 < |arrivals[k]| <= READ_BUF_SIZE
      modifies this`handled, this`closed, inBuf, inBuf.buffer
      ensures Valid() && In() == ReadTurn(old(In()), Joined(arrivals), accepts)
    {
      hide Look, Frame, Joined, CSimpleBuffer.Valid;
      ghost var was, all := handled, inBuf.Contents() + Joined(arrivals);
      Receive(arrivals);
      var f := Available();
      var thrown := false;
      while f.Unit? && !thrown
        invariant Valid() && !closed && f == Look(inBuf.Contents())
        invariant inBuf.buffer == old(inBuf.buffer) || fresh(inBuf.buffer)
        invariant Frame(was, all, accepts) ==
          if thrown then Framed(handled, inBuf.Contents(), true) else Frame(handled, inBuf.Contents(), accepts)
        decreases |inBuf.Contents()|, !thrown
      {
        FrameTurn(handled, inBuf.Contents(), accepts);
        var unit := ReadPdu(f.length);
        thrown := Handle(unit);
        if !thrown {
          Drop(|unit|);
          f := Available();
        }
      }
      FrameTurn(handled, inBuf.Contents(), accepts);
      if thrown || f == ZeroLength {
        closed := true;
      }
    }

    /** The reading loop of the proxy, which hands the unit on in the buffer itself. */
    method OnReadInPlace(arrivals: seq<seq<byte>>)
      requires Valid() && !closed && |inBuf.Contents()| + |Joined(arrivals)| + READ_BUF_SIZE <= MAX_CONTENTS
      requires forall k :: 0 <= k < |arrivals| ==> 0 < |arrivals[k]| <= READ_BUF_SIZE
      modifies this`handled, this`closed, inBuf, inBuf.buffer
      ensures Valid() && In() == ReadTurn(old(In()), Joined(arrivals), accepts)
    {
      hide Look, Frame;
      ghost var was, all := handled, inBuf.Contents() + Joined(arrivals);
      Receive(arrivals);
      while true
        invariant Valid() && !closed
        invariant inBuf.buffer == old(inBuf.buffer) || fresh(inBuf.buffer)
        invariant Frame(was, all, accepts) == Frame(handled, inBuf.Contents(), accepts)
        decreases |inBuf.Contents()|
      {
        var f := Available();
        ghost var s := inBuf.Contents();
        FrameTurn(handled, s, accepts);
        match f
        case NotYet => break;
        case ZeroLength =>
          closed := true;
          break;
        case Unit(n) =>
          var thrown := HandlePduBuf(n);
          if thrown {
            closed := true;
            break;
          }
          Drop(n);
      }
    }

    method HandlePduBuf(n: nat) returns (thrown: bool)
      requires Valid() && n <= |inBuf.Contents()|
      modifies this`handled
      ensures var unit := inBuf.Contents()[..n];
        thrown == !accepts(old(handled), unit) && handled == if thrown then old(handled) else old(handled) + [unit]
    {
      assert inBuf.buffer[..n] == inBuf.Contents()[..n];
      thrown := Handle(inBuf.buffer[..n]);
    }

    /** Offers `data[offset..]` to the socket, in pieces, until it stops. */
    method Offer(data: seq<byte>, answers: seq<int>) returns (offset: nat)
      modifies this`sent
      ensures offset == Taken(|data|, answers)
      ensures sent == old(sent) + data[..offset]
    {
      offset := 0;
      var k: nat, remain: nat := 0, |data|;
      while remain > 0
        invariant 0 <= k <= |answers| && offset + remain == |data|
        invariant offset + Taken(remain, answers[k..]) == Taken(|data|, answers)
        invariant sent == old(sent) + data[..offset]
        decreases remain
      {
        var size := if remain > MAX_SOCKET_BUF_SIZE then MAX_SOCKET_BUF_SIZE else remain;
        if k == |answers| || answers[k] <= 0 {
          break;
        }
        var r := Min(answers[k], size);
        assert answers[k..][1..] == answers[k + 1..];
        sent := sent + data[offset..offset + r];
        offset, remain, k := offset + r, remain - r, k + 1;
      }
    }

    method Send(data: seq<byte>, answers: seq<int>)
      requires Valid() && |outBuf.Contents()| + |data| <= MAX_CONTENTS
      modifies this`sent, this`busy, outBuf, outBuf.buffer
      ensures Valid() && Out() == Act(old(Out()), Sending(data, answers))
    {
      hide Taken;
      if busy {
        outBuf.Write(data);
        return;
      }
      var offset := Offer(data, answers);
      if offset < |data| {
        outBuf.Write(data[offset..]);
        busy := true;
      }
    }

    /** The socket takes `r` bytes of the output buffer. */
    method SendSome(r: nat)
      requires Valid() && r <= |outBuf.Contents()|
      modifies this`sent, outBuf`writeOffset, outBuf.buffer
      ensures Valid() && outBuf.buffer == old(outBuf.buffer)
      ensures sent == old(sent) + old(outBuf.Contents())[..r] && outBuf.Contents() == old(outBuf.Contents())[r..]
    {
      var data := outBuf.Read(r);
      sent := sent + data;
    }

    method OnWrite(answers: seq<int>)
      requires Valid()
      modifies this`sent, this`busy, outBuf, outBuf.buffer
      ensures Valid() && Out() == Act(old(Out()), Writable(answers))
    {
      hide Taken;
      if !busy {
        return;
      }
      var k := 0;
      ghost var was, all, t := sent, outBuf.Contents(), 0;
      while outBuf.writeOffset > 0
        invariant Valid() && 0 <= k <= |answers| && busy && outBuf.buffer == old(outBuf.buffer)
        invariant sent + outBuf.Contents() == was + all && |sent| == |was| + t && |outBuf.Contents()| == |all| - t
        invariant t + Taken(|all| - t, answers[k..]) == Taken(|all|, answers)
        decreases outBuf.writeOffset
      {
        if k == |answers| || answers[k] <= 0 {
          break;
        }
        var size := if outBuf.writeOffset > MAX_SOCKET_BUF_SIZE then MAX_SOCKET_BUF_SIZE else outBuf.writeOffset;
        var r := Min(answers[k], size);
        TakenNext(|all| - t, answers, k);
        Cut(sent, [], outBuf.Contents(), r);
        SendSome(r);
        k, t := k + 1, t + r;
      }
      Parts(was, all, sent, outBuf.Contents(), t);
      TakenEnd(|all| - t, answers[k..]);
      if outBuf.writeOffset == 0 {
        busy := false;
      }
    }
  }
}
