/** Protocol data units in a stream of bytes: each begins with its own length. */
module Framing {
  import opened CBytes
  import opened SimpleBuffer

  const HEADER_LEN: nat := 16

  /** What the front of the buffer is: not yet a whole unit, a unit of a length, or an error. */
  datatype Front = NotYet | Unit(length: nat) | ZeroLength

  /** IsPduAvailable. A unit may be shorter than a header. */
  function Look(s: seq<byte>): (f: Front)
    ensures f.Unit? ==> 0 < f.length <= |s|
  {
    if |s| < HEADER_LEN then NotYet
    else
      var n := ReadUint32(s);
      if n > |s| then NotYet else if n == 0 then ZeroLength else Unit(n)
  }

  /** Whether handling a unit, after those that were handled before, ends without an exception. */
  type Handler = (seq<seq<byte>>, seq<byte>) -> bool

  /** The units that were handled, what stays in the buffer, and whether the connection ends here:
      by a length of zero, or by a unit whose handling failed and which stays. */
  datatype Framed = Framed(units: seq<seq<byte>>, rest: seq<byte>, broken: bool)

  /** The loop that handles whole units, behind those in `done`. */
  function Frame(done: seq<seq<byte>>, s: seq<byte>, ok: Handler): (f: Framed)
    ensures done <= f.units
    decreases |s|
  {
    match Look(s)
    case NotYet => Framed(done, s, false)
    case ZeroLength => Framed(done, s, true)
    case Unit(n) =>
      if ok(done, s[..n]) then Frame(done + [s[..n]], s[n..], ok) else Framed(done, s, true)
  }

  /** One turn of the loop. */
  lemma FrameTurn(done: seq<seq<byte>>, s: seq<byte>, ok: Handler)
    ensures !Look(s).Unit? ==> Frame(done, s, ok) == Framed(done, s, Look(s).ZeroLength?)
    ensures Look(s).Unit? ==>
      var n := Look(s).length;
      Frame(done, s, ok) ==
        if ok(done, s[..n]) then Frame(done + [s[..n]], s[n..], ok) else Framed(done, s, true)
  {
    hide Look;
  }

  /** Handled units and the buffer are all the bytes, in order. */
  lemma {:induction false} NothingLost(done: seq<seq<byte>>, s: seq<byte>, ok: Handler)
    ensures var f := Frame(done, s, ok); Joined(f.units) + f.rest == Joined(done) + s
    decreases |s|
  {
    var front := Look(s);
    if front.Unit? && ok(done, s[..front.length]) {
      var n := front.length;
      NothingLost(done + [s[..n]], s[n..], ok);
      JoinedAppend(done, [s[..n]]);
      JoinedOne(s[..n]);
      assert s[..n] + s[n..] == s;
      assert Joined(done) + s[..n] + s[n..] == Joined(done) + (s[..n] + s[n..]);
    }
  }

  /** A division of the bytes behind `done` that obeys the length fields and the handler: each
      unit is as long as its field says and was handled, and what is left has no whole unit in
      front, or ends the connection. */
  ghost predicate Obeys(f: Framed, done: seq<seq<byte>>, s: seq<byte>, ok: Handler)
    decreases |f.units| - |done|
  {
    if |f.units| <= |done| then
      && f.units == done && f.rest == s
      && match Look(s)
         case NotYet => !f.broken
         case ZeroLength => f.broken
         case Unit(n) => f.broken && !ok(done, s[..n])
    else
      var u := f.units[|done|];
      u <= s && Look(s) == Unit(|u|) && ok(done, u) && Obeys(f, done + [u], s[|u|..], ok)
  }

  /** There is one such division, and it is the one of the loop. */
  lemma {:induction false} OneFraming(done: seq<seq<byte>>, s: seq<byte>, ok: Handler, f: Framed)
    ensures Obeys(f, done, s, ok) <==> f == Frame(done, s, ok)
    decreases |s|
  {
    hide Look;
    var front := Look(s);
    if |f.units| > |done| {
      var u := f.units[|done|];
      if front.Unit? {
        var v := s[..front.length];
        OneFraming(done + [v], s[front.length..], ok, f);
        assert u <= s && |u| == front.length ==> u == v;
        if f == Frame(done + [v], s[front.length..], ok) {
          assert (done + [v])[|done|] == v;
        }
      }
    } else if front.Unit? && ok(done, s[..front.length]) {
      assert done + [s[..front.length]] <= Frame(done, s, ok).units;
    }
  }

  /** More bytes do not change what is in front. */
  lemma LookLonger(a: seq<byte>, b: seq<byte>)
    ensures Look(a) != NotYet ==> Look(a + b) == Look(a)
  {
    if |a| >= 4 {
      assert (a + b)[2..] == a[2..] + b;
    }
  }

  /** Framing what came first, and then its rest with what came later, is framing it all. */
  lemma {:induction false} FrameMore(done: seq<seq<byte>>, a: seq<byte>, b: seq<byte>, ok: Handler)
    ensures var f := Frame(done, a, ok);
      Frame(done, a + b, ok) == if f.broken then f.(rest := f.rest + b) else Frame(f.units, f.rest + b, ok)
    decreases |a|
  {
    hide Look;
    LookLonger(a, b);
    var front := Look(a);
    if front.Unit? {
      var n := front.length;
      assert (a + b)[n..] == a[n..] + b && (a + b)[..n] == a[..n];
      if ok(done, a[..n]) {
        FrameMore(done + [a[..n]], a[n..], b, ok);
      }
    }
  }

  // ---- a connection that reads in turns ----

  /** The input side of a connection: when it has ended nothing more is read. */
  datatype Input = Input(buffer: seq<byte>, handled: seq<seq<byte>>, closed: bool)

  const FRESH_INPUT := Input([], [], false)

  /** One OnRead: what came is appended to the buffer, then the whole units are handled. */
  function ReadTurn(i: Input, came: seq<byte>, ok: Handler): Input {
    if i.closed then i
    else
      var f := Frame(i.handled, i.buffer + came, ok);
      Input(f.rest, f.units, f.broken)
  }

  function ReadTurns(i: Input, turns: seq<seq<byte>>, ok: Handler): Input {
    if turns == [] then i else ReadTurn(ReadTurns(i, turns[..|turns| - 1], ok), turns[|turns| - 1], ok)
  }

  lemma NothingYet(all: seq<byte>, ok: Handler)
    ensures Joined<byte>([]) + all == all && Frame([], [], ok) == Framed([], [], false)
    ensures Joined<byte>([]) == []
  {
  }

  /** However the bytes arrive: the handled units, and the end by a zero length or by a unit whose
      handling fails, are those of all the bytes framed at once; and until then the handled bytes
      and the buffer are all the bytes. */
  lemma {:induction false} SplitsDoNotMatter(turns: seq<seq<byte>>, ok: Handler)
    ensures var i, f := ReadTurns(FRESH_INPUT, turns, ok), Frame([], Joined(turns), ok);
      && i.handled == f.units && i.closed == f.broken
      && (!i.closed ==> i.buffer == f.rest && Joined(i.handled) + i.buffer == Joined(turns))
  {
    hide Frame;
    var all := Joined(turns);
    NothingLost([], all, ok);
    NothingYet(all, ok);
    if turns == [] {
    } else {
      var front, last := turns[..|turns| - 1], turns[|turns| - 1];
      SplitsDoNotMatter(front, ok);
      assert turns == front + [last];
      JoinedAppend(front, [last]);
      JoinedOne(last);
      FrameMore([], Joined(front), last, ok);
    }
  }

  // ---- what a sender puts into the stream ----

  /** The first four bytes as a number, the highest first. */
  function LengthField(u: seq<byte>): nat
    requires |u| >= 4
  {
    u[0] as nat * 0x100_0000 + u[1] as nat * 0x1_0000 + u[2] as nat * 0x100 + u[3] as nat
  }

  /** A unit with a whole header, which begins with the length of the unit. */
  predicate Pdu(u: seq<byte>) { |u| >= HEADER_LEN && LengthField(u) == |u| }

  /** The beginning of a unit: its header, or what the length in it promises, has not all come. */
  predicate Unfinished(t: seq<byte>) { |t| < HEADER_LEN || LengthField(t) > |t| }

  /** Each of the units is handled without an exception, one after the other. */
  ghost predicate AllAccepted(done: seq<seq<byte>>, units: seq<seq<byte>>, ok: Handler)
    decreases |units|
  {
    units == [] || (ok(done, units[0]) && AllAccepted(done + [units[0]], units[1..], ok))
  }

  lemma FieldIsFirst(s: seq<byte>)
    requires |s| >= 4
    ensures ReadUint32(s) == LengthField(s)
  {
  }

  lemma PduInFront(u: seq<byte>, rest: seq<byte>)
    requires Pdu(u)
    ensures Look(u + rest) == Unit(|u|)
  {
    hide ReadUint32;
    FieldIsFirst(u + rest);
  }

  lemma UnfinishedWaits(t: seq<byte>)
    requires Unfinished(t)
    ensures Look(t) == NotYet
  {
    hide ReadUint32;
    if |t| >= 4 {
      FieldIsFirst(t);
    }
  }

  /** Units one after the other, and then the beginning of another one, are framed as these units. */
  lemma {:induction false} UnitsAreFound(done: seq<seq<byte>>, units: seq<seq<byte>>, tail: seq<byte>, ok: Handler)
    requires (forall k :: 0 <= k < |units| ==> Pdu(units[k])) && Unfinished(tail) && AllAccepted(done, units, ok)
    ensures Frame(done, Joined(units) + tail, ok) == Framed(done + units, tail, false)
    decreases |units|
  {
    hide Look, LengthField, Frame;
    if units == [] {
      assert Joined(units) + tail == tail && done + units == done;
      UnfinishedWaits(tail);
      FrameTurn(done, tail, ok);
    } else {
      var u, later := units[0], Joined(units[1..]) + tail;
      PduInFront(u, later);
      Regrouped(u, Joined(units[1..]), tail);
      var s := Joined(units) + tail;
      assert s == u + later;
      assert s[..|u|] == u && s[|u|..] == later;
      FrameTurn(done, s, ok);
      UnitsAreFound(done + [u], units[1..], tail, ok);
      assert done + [u] + units[1..] == done + units;
    }
  }

  /** However the bytes of some units and of the beginning of another one arrive: exactly these
      units are handled, in order, and the beginning waits in the buffer. */
  lemma UnitsAreDelivered(units: seq<seq<byte>>, tail: seq<byte>, turns: seq<seq<byte>>, ok: Handler)
    requires (forall k :: 0 <= k < |units| ==> Pdu(units[k])) && Unfinished(tail) && AllAccepted([], units, ok)
    requires Joined(turns) == Joined(units) + tail
    ensures ReadTurns(FRESH_INPUT, turns, ok) == Input(tail, units, false)
  {
    hide Frame, ReadTurns;
    SplitsDoNotMatter(turns, ok);
    UnitsAreFound([], units, tail, ok);
    assert [] + units == units;
  }

  /** A length of zero behind some units ends the connection. */
  lemma ZeroEnds(done: seq<seq<byte>>, units: seq<seq<byte>>, tail: seq<byte>, ok: Handler)
    requires forall k :: 0 <= k < |units| ==> Pdu(units[k])
    requires AllAccepted(done, units, ok) && |tail| >= HEADER_LEN && LengthField(tail) == 0
    ensures Frame(done, Joined(units) + tail, ok) == Framed(done + units, tail, true)
  {
    hide Look, Frame, LengthField;
    UnitsAreFound(done, units, [], ok);
    assert Joined(units) + [] == Joined(units);
    FrameMore(done, Joined(units), tail, ok);
    assert [] + tail == tail;
    ZeroInFront(tail);
    FrameTurn(done + units, tail, ok);
  }

  lemma ZeroInFront(tail: seq<byte>)
    requires |tail| >= HEADER_LEN && LengthField(tail) == 0
    ensures Look(tail) == ZeroLength
  {
    hide ReadUint32;
    FieldIsFirst(tail);
  }
}
