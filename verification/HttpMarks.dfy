/** The local variables of a call: the pointer into the data, the marks, the callbacks run so
    far; and what one turn of the byte loop does to them. */
module HttpMarks {
  import opened CBytes
  import opened HttpTypes
  import opened HttpSwitch
  import opened HttpRun
  import opened HttpLog

  // ---- the local variables of a call ----

  /** The read pointer, the marks that are set, and the callbacks run so far. */
  datatype Locals = Locals(at: nat, marks: map<DataKind, nat>, log: seq<Event>)

  predicate InBounds(l: Locals) {
    forall k :: k in l.marks ==> l.marks[k] <= l.at
  }

  /** CALLBACK_DATA for the bytes from the mark of `k` to `end`. */
  function FlushMark(l: Locals, k: DataKind, data: seq<byte>, end: nat): (r: Locals)
    requires end <= |data| && forall m :: m in l.marks ==> l.marks[m] <= end
    ensures r.at == l.at && r.marks == l.marks - {k}
  {
    if k in l.marks then
      l.(log := l.log + [Data(k, data[l.marks[k]..end])], marks := l.marks - {k})
    else l.(marks := l.marks - {k})
  }

  /** The marks after MARK of a pass. */
  function Marked(r: Pass, l: Locals): Locals {
    if r.mark.Some? && r.mark.value !in l.marks then l.(marks := l.marks[r.mark.value := l.at]) else l
  }

  /** MARK, the skip and the callback of a pass. */
  function Effect(r: Pass, data: seq<byte>, l: Locals): (l': Locals)
    requires l.at + r.skip < |data| && InBounds(l)
    ensures InBounds(l') && l'.at == l.at + r.skip
  {
    var m := Marked(r, l).(at := l.at + r.skip);
    match r.call
    case NoCall => m
    case Flush(k) => FlushMark(m, k, data, m.at)
    case FlushThrough(k) => FlushMark(m, k, data, m.at + 1)
    case Announce(n) => m.(log := m.log + [Notify(n)])
  }

  // ---- what is pending ----

  /** The only mark set is the one for the kind being read; a body may be unmarked. */
  ghost predicate Tracks(kind: Option<DataKind>, l: Locals) {
    && InBounds(l)
    && (forall k :: k in l.marks ==> kind == Some(k))
    && (kind.Some? && kind.value != Body ==> kind.value in l.marks)
  }

  ghost function Pending(kind: Option<DataKind>, l: Locals, data: seq<byte>, end: nat): seq<Atom>
    requires end <= |data| && forall k :: k in l.marks ==> l.marks[k] <= end
  {
    if kind.Some? && kind.value in l.marks then Bytes(kind.value, data[l.marks[kind.value]..end]) else []
  }

  /** What the callbacks delivered and what they are still to deliver, up to `end`. */
  ghost function Delivered(kind: Option<DataKind>, l: Locals, data: seq<byte>, end: nat): seq<Atom>
    requires end <= |data| && forall k :: k in l.marks ==> l.marks[k] <= end
  {
    Flatten(l.log) + Pending(kind, l, data, end)
  }

  lemma FlushDelivers(l: Locals, k: DataKind, data: seq<byte>, end: nat)
    requires end <= |data| && forall m :: m in l.marks ==> l.marks[m] <= end
    ensures Flatten(FlushMark(l, k, data, end).log) ==
            Flatten(l.log) + if k in l.marks then Bytes(k, data[l.marks[k]..end]) else []
  {
    if k in l.marks {
      FlattenAppend(l.log, Data(k, data[l.marks[k]..end]));
    }
  }

  /** Outside body states a pass does not look at the rest of the input. */
  lemma SameAnywhere(p: Parser, ch: byte, avail: nat, hc: HeadersAnswer)
    requires avail > 0 && !BodyState(p.state)
    ensures Switch(p, ch, avail, hc) == Switch(p, ch, 1, hc)
  {
    hide Preamble, StatusLine, RequestLine, UrlLine, HeaderLines;
  }

  lemma MarkKeeps(kind: Option<DataKind>, r: Pass, data: seq<byte>, l: Locals)
    requires l.at < |data| && Tracks(kind, l)
    requires r.mark.Some? ==> (kind.None? || kind == r.mark) && r.mark != Some(Body)
    ensures var marked := if r.mark.Some? then r.mark else kind;
      && Tracks(marked, Marked(r, l))
      && Delivered(marked, Marked(r, l), data, l.at) == Delivered(kind, l, data, l.at)
  {
    if r.mark.Some? && r.mark.value !in l.marks {
      assert data[l.at..l.at] == [];
    }
  }

  lemma FlushKeeps(k: DataKind, l: Locals, data: seq<byte>)
    requires l.at < |data| && Tracks(Some(k), l)
    ensures var l' := FlushMark(l, k, data, l.at);
      Tracks(None, l') && Delivered(None, l', data, l.at) == Delivered(Some(k), l, data, l.at)
  {
    FlushDelivers(l, k, data, l.at);
  }

  /** Outside bodies a pass keeps the marks in step and delivers nothing out of order. */
  lemma TidyEffect(p: Parser, r: Pass, data: seq<byte>, l: Locals)
    requires l.at < |data| && Tracks(KindOf(p.state), l) && !BodyState(p.state) && Tidy(p, r, |data| - l.at)
    requires r.next != Fail && r.next != AssertFailed
    ensures var l' := Effect(r, data, l);
      && Tracks(KindOf(r.parser.state), l')
      && Delivered(KindOf(r.parser.state), l', data, l.at) ==
         Delivered(KindOf(p.state), l, data, l.at) + NotesOf(r.call)
  {
    hide KindOf, Bytes, Flatten;
    var l' := Effect(r, data, l);
    MarkKeeps(KindOf(p.state), r, data, l);
    match r.call
    case NoCall =>
    case Flush(k) => FlushKeeps(k, Marked(r, l), data);
    case FlushThrough(k) =>
    case Announce(n) => FlattenAppend(l.log, Notify(n));
  }

  lemma NoBodyMark(p: Parser, r: Pass, data: seq<byte>, l: Locals)
    requires l.at < |data| && Tracks(KindOf(p.state), l) && !BodyState(p.state) && Tidy(p, r, |data| - l.at)
    requires r.next != Fail && r.next != AssertFailed
    ensures Body !in Effect(r, data, l).marks
  {
    if Body in l.marks {
      assert p.state == CHUNK_DATA_ALMOST_DONE;
    }
  }

  /** On an error the bytes still pending, all of one kind, stay undelivered. */
  lemma FailEffect(kind: Option<DataKind>, r: Pass, data: seq<byte>, l: Locals)
    requires l.at + r.skip < |data| && Tracks(kind, l) && r.call == NoCall
    ensures exists k, bs ::
      Delivered(kind, l, data, l.at) == Flatten(Effect(r, data, l).log) + Bytes(k, bs)
  {
    hide Flatten, Bytes, Delivered;
    PendingIsOneKind(kind, l, data, l.at);
  }

  lemma PendingIsOneKind(kind: Option<DataKind>, l: Locals, data: seq<byte>, end: nat)
    requires l.at <= end <= |data| && Tracks(kind, l)
    ensures exists k, bs :: Delivered(kind, l, data, end) == Flatten(l.log) + Bytes(k, bs)
  {
    if kind.Some? && kind.value in l.marks {
      assert Delivered(kind, l, data, end) ==
             Flatten(l.log) + Bytes(kind.value, data[l.marks[kind.value]..end]);
    } else {
      assert Delivered(kind, l, data, end) == Flatten(l.log) + Bytes(Body, []);
    }
  }

  lemma LinePass(p: Parser, ch: byte, data: seq<byte>, l: Locals, hc: HeadersAnswer)
    requires l.at < |data| && Tracks(KindOf(p.state), l) && !BodyState(p.state)
    ensures var r := Switch(p, ch, |data| - l.at, hc);
      && r.skip == 0
      && r == Switch(p, ch, 1, hc)
      && (r.next != Fail && r.next != AssertFailed ==>
            var l' := Effect(r, data, l);
            && Tracks(KindOf(r.parser.state), l')
            && Body !in l'.marks
            && Delivered(KindOf(r.parser.state), l', data, l.at) ==
               Delivered(KindOf(p.state), l, data, l.at) + NotesOf(r.call))
      && (r.next == Fail ==> exists k, bs ::
            Delivered(KindOf(p.state), l, data, l.at) == Flatten(Effect(r, data, l).log) + Bytes(k, bs))
  {
    hide Switch, Effect, Delivered;
    var r := Switch(p, ch, |data| - l.at, hc);
    TidySwitch(p, ch, |data| - l.at, hc);
    SameAnywhere(p, ch, |data| - l.at, hc);
    if r.next != Fail && r.next != AssertFailed {
      TidyEffect(p, r, data, l);
      NoBodyMark(p, r, data, l);
    } else if r.next == Fail {
      FailEffect(KindOf(p.state), r, data, l);
    }
  }

  // ---- one byte of the loop ----

  datatype Turn = Turn(parser: Parser, locals: Locals, next: Next)

  /** The passes over one byte, up to the point where the loop goes on or the call returns. */
  function Finish(p: Parser, ch: byte, data: seq<byte>, l: Locals, hc: HeadersAnswer): Turn
    requires l.at < |data| && InBounds(l)
    decreases Rank(p.state)
  {
    var r := Switch(p, ch, |data| - l.at, hc);
    TidySwitch(p, ch, |data| - l.at, hc);
    var l' := Effect(r, data, l);
    if r.next == Again then Finish(r.parser, ch, data, l', hc) else Turn(r.parser, l', r.next)
  }

  lemma {:induction false} FinishLine(p: Parser, ch: byte, data: seq<byte>, l: Locals, hc: HeadersAnswer)
    requires l.at < |data| && Tracks(KindOf(p.state), l) && !BodyState(p.state)
    ensures var t := Finish(p, ch, data, l, hc);
      var o := Passes(p, ch, hc);
      && t.next != Again && t.parser == o.parser && StatusOf(t.next) == o.status
      && t.locals.at == l.at
      && (t.next == Stop ==> KindOf(t.parser.state).None?)
      && (t.next != Fail && t.next != AssertFailed ==>
            && Tracks(KindOf(t.parser.state), t.locals)
            && Body !in t.locals.marks
            && Delivered(KindOf(t.parser.state), t.locals, data, l.at) ==
               Delivered(KindOf(p.state), l, data, l.at) + o.atoms)
      && (t.next == Fail ==> exists k, bs ::
            Delivered(KindOf(p.state), l, data, l.at) + o.atoms == Flatten(t.locals.log) + Bytes(k, bs))
    decreases Rank(p.state)
  {
    hide Switch, Effect, Delivered;
    LinePass(p, ch, data, l, hc);
    TidySwitch(p, ch, |data| - l.at, hc);
    var r := Switch(p, ch, |data| - l.at, hc);
    if r.next == Again {
      FinishLine(r.parser, ch, data, Effect(r, data, l), hc);
    }
  }

  /** The body bytes up to `end` are pending once the mark is set at or before `l.at`. */
  lemma BodyPending(r: Pass, data: seq<byte>, l: Locals, end: nat)
    requires l.at <= end <= |data| && Tracks(Some(Body), l) && r.mark == Some(Body)
    ensures var m := Marked(r, l);
      && Body in m.marks && m.marks[Body] <= l.at
      && Tracks(Some(Body), m)
      && Flatten(m.log) + Bytes(Body, data[m.marks[Body]..end]) ==
         Delivered(Some(Body), l, data, l.at) + Bytes(Body, data[l.at..end])
  {
    hide Flatten, Bytes;
    var m := Marked(r, l);
    var from := m.marks[Body];
    assert data[from..end] == data[from..l.at] + data[l.at..end];
    BytesJoin(Body, data[from..l.at], data[l.at..end]);
    if Body !in l.marks {
      assert data[from..l.at] == [];
      NoBytes(Body);
    }
  }

  lemma NoBytes(k: DataKind)
    ensures Bytes(k, []) == []
  {
  }

  /** A pass that takes `r.skip + 1` body bytes and flushes none of them. */
  lemma BodyEffect(r: Pass, data: seq<byte>, l: Locals)
    requires l.at + r.skip < |data| && Tracks(Some(Body), l) && r.mark == Some(Body) && r.call == NoCall
    ensures var l' := Effect(r, data, l);
      && Tracks(Some(Body), l')
      && Delivered(Some(Body), l', data, l'.at + 1) ==
         Delivered(Some(Body), l, data, l.at) + Bytes(Body, data[l.at..l'.at + 1])
  {
    hide Flatten, Bytes;
    BodyPending(r, data, l, l.at + r.skip + 1);
  }

  /** A pass that takes the last body bytes and flushes all of them. */
  lemma BodyFlush(r: Pass, data: seq<byte>, l: Locals)
    requires l.at + r.skip < |data| && Tracks(Some(Body), l)
    requires r.mark == Some(Body) && r.call == FlushThrough(Body)
    ensures var l' := Effect(r, data, l);
      && Tracks(None, l')
      && Flatten(l'.log) == Delivered(Some(Body), l, data, l.at) + Bytes(Body, data[l.at..l'.at + 1])
  {
    hide Flatten, Bytes;
    BodyPending(r, data, l, l.at + r.skip + 1);
    FlushDelivers(Marked(r, l).(at := l.at + r.skip), Body, data, l.at + r.skip + 1);
  }

  /** A turn after which the loop or the caller goes on: it delivers what the machine of
      HttpRun delivers for the bytes it took. */
  ghost predicate TurnDelivers(p: Parser, data: seq<byte>, l: Locals, hc: HeadersAnswer, t: Turn)
    requires l.at < |data| && Tracks(KindOf(p.state), l)
  {
    && l.at <= t.locals.at < |data|
    && (t.next == Continue || (t.next == Stop && KindOf(t.parser.state).None?))
    && Tracks(KindOf(t.parser.state), t.locals)
    && var r := Run(p, data[l.at..t.locals.at + 1], hc);
    && r == Outcome(t.parser, r.atoms, t.locals.at + 1 - l.at, StatusOf(t.next))
    && Delivered(KindOf(t.parser.state), t.locals, data, t.locals.at + 1) ==
       Delivered(KindOf(p.state), l, data, l.at) + r.atoms
  }

  /** A turn that ends the call with an error, or in a broken assert: it takes no byte, and on
      an error what is missing from the log is pending data of a single kind. */
  ghost predicate TurnFails(p: Parser, data: seq<byte>, l: Locals, hc: HeadersAnswer, t: Turn)
    requires l.at < |data| && Tracks(KindOf(p.state), l)
  {
    && t.locals.at == l.at
    && (t.next == Fail || t.next == AssertFailed)
    && var r := Run(p, [data[l.at]], hc);
    && r == Outcome(t.parser, r.atoms, 0, StatusOf(t.next))
    && (t.next == Fail ==> exists k, bs ::
          Delivered(KindOf(p.state), l, data, l.at) + r.atoms == Flatten(t.locals.log) + Bytes(k, bs))
  }

  lemma IdentityLast(p: Parser, ch: byte, data: seq<byte>, l: Locals, hc: HeadersAnswer) returns (t: Turn)
    requires l.at < |data| && Tracks(None, l) && p.state == MESSAGE_DONE
    ensures t == Turn(p.(state := NewMessage(p)), l.(log := l.log + [Notify(MessageComplete)]), Continue)
    ensures t == Finish(p, ch, data, l, hc)
    ensures Tracks(KindOf(t.parser.state), t.locals)
    ensures Delivered(KindOf(t.parser.state), t.locals, data, t.locals.at + 1) ==
            Flatten(l.log) + [Note(MessageComplete)]
  {
    hide Preamble, StatusLine, RequestLine, UrlLine, HeaderLines, Bytes, Flatten, ShouldKeepAlive;
    t := Turn(p.(state := NewMessage(p)), l.(log := l.log + [Notify(MessageComplete)]), Continue);
    FlattenAppend(l.log, Notify(MessageComplete));
  }

  lemma SwitchIdentity(p: Parser, ch: byte, avail: nat, hc: HeadersAnswer)
    requires avail > 0 && p.state == BODY_IDENTITY && 0 < p.contentLength < ULLONG_MAX
    ensures Switch(p, ch, avail, hc) ==
            if avail < p.contentLength then
              Pass(p.(contentLength := p.contentLength - avail), Some(Body), avail - 1, NoCall, Continue)
            else
              Pass(p.(contentLength := 0, state := MESSAGE_DONE), Some(Body), p.contentLength - 1,
                   FlushThrough(Body), Again)
  {
    hide Preamble, StatusLine, RequestLine, UrlLine, HeaderLines;
  }

  /** A byte that takes one pass only. */
  lemma OnePass(p: Parser, ch: byte, data: seq<byte>, l: Locals, hc: HeadersAnswer, r: Pass)
    requires l.at < |data| && InBounds(l)
    requires r == Switch(p, ch, |data| - l.at, hc) && r.next != Again && r.skip < |data| - l.at
    ensures Finish(p, ch, data, l, hc) == Turn(r.parser, Effect(r, data, l), r.next)
  {
    hide Switch, Effect, Tidy;
  }

  lemma AnotherPass(p: Parser, ch: byte, data: seq<byte>, l: Locals, hc: HeadersAnswer, r: Pass)
    requires l.at < |data| && InBounds(l)
    requires r == Switch(p, ch, |data| - l.at, hc) && r.next == Again && r.skip < |data| - l.at
    ensures Finish(p, ch, data, l, hc) == Finish(r.parser, ch, data, Effect(r, data, l), hc)
  {
    hide Switch, Effect, Tidy;
  }

  /** A pass that takes body bytes and leaves them pending. */
  lemma BodyTaken(p: Parser, data: seq<byte>, l: Locals, hc: HeadersAnswer, r: Pass)
    requires l.at + r.skip < |data| && KindOf(p.state) == Some(Body) && Tracks(Some(Body), l)
    requires r == Switch(p, data[l.at], |data| - l.at, hc) && r.next == Continue
    requires r.call == NoCall && r.mark == Some(Body) && KindOf(r.parser.state) == Some(Body)
    requires var piece := data[l.at..l.at + r.skip + 1];
      Run(p, piece, hc) == Outcome(r.parser, Bytes(Body, piece), |piece|, Going)
    ensures TurnDelivers(p, data, l, hc, Finish(p, data[l.at], data, l, hc))
  {
    hide Bytes, Flatten, Run, Delivered, Switch, Effect, Finish, KindOf;
    OnePass(p, data[l.at], data, l, hc, r);
    BodyEffect(r, data, l);
  }

  /** The body goes on past the data: all of it is taken, nothing is flushed. */
  lemma IdentityMore(p: Parser, data: seq<byte>, l: Locals, hc: HeadersAnswer)
    requires l.at < |data| && Tracks(Some(Body), l)
    requires p.state == BODY_IDENTITY && |data| - l.at < p.contentLength < ULLONG_MAX
    ensures TurnDelivers(p, data, l, hc, Finish(p, data[l.at], data, l, hc))
  {
    hide Bytes, Run, Switch, Finish, TurnDelivers;
    SwitchIdentity(p, data[l.at], |data| - l.at, hc);
    IdentityRun(p, data[l.at..|data|], hc);
    BodyTaken(p, data, l, hc, Switch(p, data[l.at], |data| - l.at, hc));
  }

  /** The body ends within the data: it is flushed and the message is complete. */
  lemma IdentityEnd(p: Parser, data: seq<byte>, l: Locals, hc: HeadersAnswer)
    requires l.at < |data| && Tracks(Some(Body), l)
    requires p.state == BODY_IDENTITY && 0 < p.contentLength < ULLONG_MAX && p.contentLength <= |data| - l.at
    ensures TurnDelivers(p, data, l, hc, Finish(p, data[l.at], data, l, hc))
  {
    hide Bytes, Flatten, Run, Delivered, Switch, Effect, Finish, TurnDelivers;
    var r := Switch(p, data[l.at], |data| - l.at, hc);
    SwitchIdentity(p, data[l.at], |data| - l.at, hc);
    var piece := data[l.at..l.at + p.contentLength];
    IdentityRun(p, piece, hc);
    BodyFlush(r, data, l);
    LastByte(p, data, l, hc, r, piece);
  }

  lemma AfterBodyParser(p: Parser, q: Parser)
    requires q == p.(contentLength := 0, state := MESSAGE_DONE)
    ensures AfterBody(p) == q.(state := NewMessage(q))
  {
  }

  lemma BodyKind()
    ensures KindOf(BODY_IDENTITY) == Some(Body)
  {
  }

  lemma IsDelivery(p: Parser, data: seq<byte>, l: Locals, hc: HeadersAnswer, t: Turn, piece: seq<byte>,
                   atoms: seq<Atom>)
    requires l.at <= t.locals.at < |data| && Tracks(KindOf(p.state), l)
    requires t.next == Continue || (t.next == Stop && KindOf(t.parser.state).None?)
    requires Tracks(KindOf(t.parser.state), t.locals)
    requires piece == data[l.at..t.locals.at + 1]
    requires Run(p, piece, hc) == Outcome(t.parser, atoms, |piece|, StatusOf(t.next))
    requires Delivered(KindOf(t.parser.state), t.locals, data, t.locals.at + 1) ==
             Delivered(KindOf(p.state), l, data, l.at) + atoms
    ensures TurnDelivers(p, data, l, hc, t)
  {
    hide Run, Delivered, Tracks, KindOf;
  }

  lemma LastByte(p: Parser, data: seq<byte>, l: Locals, hc: HeadersAnswer, r: Pass, piece: seq<byte>)
    requires l.at + r.skip < |data| && p.state == BODY_IDENTITY && Tracks(Some(Body), l)
    requires piece == data[l.at..l.at + r.skip + 1]
    requires r == Switch(p, data[l.at], |data| - l.at, hc) && r.next == Again
    requires r.parser == p.(contentLength := 0, state := MESSAGE_DONE)
    requires var l' := Effect(r, data, l);
      && Tracks(None, l')
      && Flatten(l'.log) == Delivered(Some(Body), l, data, l.at) + Bytes(Body, piece)
    requires Run(p, piece, hc) ==
      Outcome(AfterBody(p), Bytes(Body, piece) + [Note(MessageComplete)], |piece|, Going)
    ensures TurnDelivers(p, data, l, hc, Finish(p, data[l.at], data, l, hc))
  {
    hide Bytes, Flatten, Run, Delivered, Switch, Effect, Finish, TurnDelivers, KindOf, AfterBody, NewMessage;
    var m := Effect(r, data, l);
    AnotherPass(p, data[l.at], data, l, hc, r);
    var t := IdentityLast(r.parser, data[l.at], data, m, hc);
    AfterBodyParser(p, r.parser);
    Regrouped(Delivered(Some(Body), l, data, l.at), Bytes(Body, piece), [Note(MessageComplete)]);
    BodyKind();
    IsDelivery(p, data, l, hc, t, piece, Bytes(Body, piece) + [Note(MessageComplete)]);
  }

  lemma SwitchChunk(p: Parser, ch: byte, avail: nat, hc: HeadersAnswer)
    requires avail > 0 && p.state == CHUNK_DATA && p.flags.chunked && 0 < p.contentLength < ULLONG_MAX
    ensures var n := Min(p.contentLength, avail);
      var q := p.(contentLength := p.contentLength - n);
      Switch(p, ch, avail, hc) ==
      Pass(if n == p.contentLength then q.(state := CHUNK_DATA_ALMOST_DONE) else q,
           Some(Body), n - 1, NoCall, Continue)
  {
    hide Preamble, StatusLine, RequestLine, UrlLine, HeaderLines;
  }

  lemma ChunkTurn(p: Parser, data: seq<byte>, l: Locals, hc: HeadersAnswer)
    requires l.at < |data| && Tracks(Some(Body), l)
    requires p.state == CHUNK_DATA && p.flags.chunked && 0 < p.contentLength < ULLONG_MAX
    ensures TurnDelivers(p, data, l, hc, Finish(p, data[l.at], data, l, hc))
  {
    hide Bytes, Run, Switch, Finish, TurnDelivers;
    var r := Switch(p, data[l.at], |data| - l.at, hc);
    SwitchChunk(p, data[l.at], |data| - l.at, hc);
    ChunkRun(p, data[l.at..l.at + r.skip + 1], hc);
    BodyTaken(p, data, l, hc, r);
  }

  lemma EofTurn(p: Parser, data: seq<byte>, l: Locals, hc: HeadersAnswer)
    requires l.at < |data| && Tracks(Some(Body), l)
    requires p.state == BODY_IDENTITY_EOF
    ensures TurnDelivers(p, data, l, hc, Finish(p, data[l.at], data, l, hc))
  {
    hide Bytes, Run, Finish, TurnDelivers, Preamble, StatusLine, RequestLine, UrlLine, HeaderLines;
    EofRun(p, data[l.at..|data|], hc);
    BodyTaken(p, data, l, hc, Pass(p, Some(Body), |data| - l.at - 1, NoCall, Continue));
  }

  lemma SwitchBroken(p: Parser, ch: byte, avail: nat, hc: HeadersAnswer)
    requires avail > 0 && (p.state == BODY_IDENTITY || p.state == CHUNK_DATA)
    requires p.contentLength == 0 || p.contentLength == ULLONG_MAX || (p.state == CHUNK_DATA && !p.flags.chunked)
    ensures Switch(p, ch, avail, hc) == Broken(p)
  {
    hide Preamble, StatusLine, RequestLine, UrlLine, HeaderLines;
  }

  /** A body state whose length is out of range: the assert of the source fails at once. */
  lemma BrokenTurn(p: Parser, data: seq<byte>, l: Locals, hc: HeadersAnswer)
    requires l.at < |data| && Tracks(Some(Body), l)
    requires p.state == BODY_IDENTITY || p.state == CHUNK_DATA
    requires p.contentLength == 0 || p.contentLength == ULLONG_MAX || (p.state == CHUNK_DATA && !p.flags.chunked)
    ensures TurnFails(p, data, l, hc, Finish(p, data[l.at], data, l, hc))
  {
    hide Switch, Bytes, Flatten, Delivered, Finish, Run;
    SwitchBroken(p, data[l.at], 1, hc);
    SwitchBroken(p, data[l.at], |data| - l.at, hc);
    OnePass(p, data[l.at], data, l, hc, Broken(p));
    RunOne(p, data[l.at], hc);
  }

  /** A byte read in a line belongs to what is pending after it. */
  lemma LinePending(before: State, after: State, data: seq<byte>, l: Locals)
    requires l.at < |data| && !BodyState(before) && Tracks(KindOf(after), l) && Body !in l.marks
    ensures Delivered(KindOf(after), l, data, l.at + 1) ==
            Delivered(KindOf(after), l, data, l.at) + LineByte(before, after, data[l.at])
  {
    hide Bytes, Flatten;
    var kind := KindOf(after);
    if kind.Some? && kind.value in l.marks {
      var from := l.marks[kind.value];
      var b := data[from..l.at];
      assert data[from..l.at + 1] == b + [data[l.at]];
      BytesJoin(kind.value, b, [data[l.at]]);
      SingleByte(kind.value, data[l.at]);
      Regrouped(Flatten(l.log), Bytes(kind.value, b), [Byte(kind.value, data[l.at])]);
    }
  }

  /** What a byte of a line adds to what is delivered, when the line does not fail. */
  lemma LineAdds(p: Parser, ch: byte, data: seq<byte>, l: Locals, hc: HeadersAnswer, t: Turn, s: State)
    requires l.at < |data| && Tracks(KindOf(p.state), l) && !BodyState(p.state) && ch == data[l.at] && !BodyState(s)
    requires t == Finish(p, ch, data, l, hc) && t.next != Fail && t.next != AssertFailed
    ensures t.next != Again && t.locals.at == l.at && Tracks(KindOf(t.parser.state), t.locals)
    ensures t.next == Stop ==> KindOf(t.parser.state).None?
    ensures var o := Passes(p, ch, hc);
      && t.parser == o.parser && StatusOf(t.next) == o.status
      && Delivered(KindOf(t.parser.state), t.locals, data, l.at + 1) ==
         Delivered(KindOf(p.state), l, data, l.at) + (o.atoms + LineByte(s, t.parser.state, ch))
  {
    hide Bytes, Flatten, Delivered, Finish, Passes, KindOf, LineByte;
    FinishLine(p, ch, data, l, hc);
    var o := Passes(p, ch, hc);
    LinePending(s, o.parser.state, data, t.locals);
    Regrouped(Delivered(KindOf(p.state), l, data, l.at), o.atoms, LineByte(s, o.parser.state, ch));
  }

  lemma LineDelivers(p: Parser, data: seq<byte>, l: Locals, hc: HeadersAnswer, t: Turn)
    requires l.at < |data| && Tracks(KindOf(p.state), l) && !BodyState(p.state)
    requires ParsingHeader(p.state) ==> p.nread < MAX_HEADER_SIZE
    requires t == Finish(CountHeaderByte(p), data[l.at], data, l, hc)
    requires t.next != Fail && t.next != AssertFailed
    ensures TurnDelivers(p, data, l, hc, t)
  {
    var q := CountHeaderByte(p);
    var ch := data[l.at];
    hide Bytes, Flatten, Delivered, Finish, Passes, KindOf, LineByte, TurnDelivers, Run, Step, Tracks;
    LineAdds(q, ch, data, l, hc, t, p.state);
    var o := Passes(q, ch, hc);
    RunInLine(p, ch, hc);
    assert data[l.at..l.at + 1] == [ch];
    IsDelivery(p, data, l, hc, t, [ch], o.atoms + LineByte(p.state, o.parser.state, ch));
  }

  lemma RunInLine(p: Parser, ch: byte, hc: HeadersAnswer)
    requires !BodyState(p.state) && (ParsingHeader(p.state) ==> p.nread < MAX_HEADER_SIZE)
    ensures var o := Passes(CountHeaderByte(p), ch, hc);
      o.status == Going || o.status == Stopped ==>
        Run(p, [ch], hc) == Outcome(o.parser, o.atoms + LineByte(p.state, o.parser.state, ch), 1, o.status)
  {
    hide Passes, LineByte, Run, Step, CountHeaderByte;
    StepInLine(p, ch, hc);
    RunOne(p, ch, hc);
  }

  lemma LineFails(p: Parser, data: seq<byte>, l: Locals, hc: HeadersAnswer, t: Turn)
    requires l.at < |data| && Tracks(KindOf(p.state), l) && !BodyState(p.state)
    requires ParsingHeader(p.state) ==> p.nread < MAX_HEADER_SIZE
    requires t == Finish(CountHeaderByte(p), data[l.at], data, l, hc)
    requires t.next == Fail || t.next == AssertFailed
    ensures TurnFails(p, data, l, hc, t)
  {
    var q := CountHeaderByte(p);
    hide Bytes, Flatten, Delivered, Finish, Passes, KindOf, LineByte, Run, Step;
    StepInLine(p, data[l.at], hc);
    FinishLine(q, data[l.at], data, l, hc);
    RunOne(p, data[l.at], hc);
  }

  /** Every turn of the loop: it delivers, or it fails. */
  lemma AnyTurn(p: Parser, data: seq<byte>, l: Locals, hc: HeadersAnswer, t: Turn)
    requires l.at < |data| && Tracks(KindOf(p.state), l)
    requires ParsingHeader(p.state) ==> p.nread < MAX_HEADER_SIZE
    requires t == Finish(CountHeaderByte(p), data[l.at], data, l, hc)
    ensures if t.next == Fail || t.next == AssertFailed then TurnFails(p, data, l, hc, t)
            else TurnDelivers(p, data, l, hc, t)
  {
    hide Finish, KindOf, Run, Delivered;
    if !BodyState(p.state) {
      if t.next == Fail || t.next == AssertFailed {
        LineFails(p, data, l, hc, t);
      } else {
        LineDelivers(p, data, l, hc, t);
      }
    } else {
      BodyKinds(p.state);
      BodyTurn(p, data, l, hc, t);
    }
  }

  lemma BodyKinds(s: State)
    requires BodyState(s)
    ensures KindOf(s) == Some(Body)
  {
  }

  lemma BodyTurn(p: Parser, data: seq<byte>, l: Locals, hc: HeadersAnswer, t: Turn)
    requires l.at < |data| && KindOf(p.state) == Some(Body) && Tracks(Some(Body), l) && BodyState(p.state)
    requires t == Finish(p, data[l.at], data, l, hc)
    ensures TurnDelivers(p, data, l, hc, t) || TurnFails(p, data, l, hc, t)
  {
    hide Finish, TurnDelivers, TurnFails, KindOf, Run;
    if p.state == BODY_IDENTITY_EOF {
      EofTurn(p, data, l, hc);
    } else if p.contentLength == 0 || p.contentLength == ULLONG_MAX || (p.state == CHUNK_DATA && !p.flags.chunked) {
      BrokenTurn(p, data, l, hc);
    } else if p.state == CHUNK_DATA {
      ChunkTurn(p, data, l, hc);
    } else if |data| - l.at < p.contentLength {
      IdentityMore(p, data, l, hc);
    } else {
      IdentityEnd(p, data, l, hc);
    }
  }
}
