/** The byte loop of the parser as it is written: a pointer into the data of this call, marks
    that do not outlive it, data callbacks on slices, bulk skips over bodies. It is proved to
    do what the byte-at-a-time machine of HttpRun does, however the input is cut into calls. */
module HttpExecute {
  import opened CBytes
  import opened HttpTypes
  import opened HttpSwitch
  import opened HttpRun
  import opened HttpLog
  import opened HttpMarks

  /** What an empty call, which stands for the end of the stream, does. */
  function AtEof(p: Parser): (r: (Parser, nat, seq<Event>)) {
    if p.state == BODY_IDENTITY_EOF then (p, 0, [Notify(MessageComplete)])
    else if p.state == DEAD || p.state == START_REQ_OR_RES || p.state == START_RES || p.state == START_REQ then
      (p, 0, [])
    else (p.(errno := INVALID_EOF_STATE), 1, [])
  }

  /** What a call of the parser does: nothing after an error; otherwise the struct, the errno
      and the number of bytes used are those of the byte-at-a-time machine, and the callbacks
      deliver what it delivers. After an error the data last marked, of one kind, is missing. */
  ghost predicate Executed(before: Parser, data: seq<byte>, hc: HeadersAnswer,
                           after: Parser, consumed: nat, log: seq<Event>)
  {
    if before.errno != OK then after == before && consumed == 0 && log == []
    else if data == [] then (after, consumed, log) == AtEof(before)
    else Fed(Run(before, data, hc), after, consumed, log)
  }

  ghost predicate Fed(r: Outcome, after: Parser, consumed: nat, log: seq<Event>) {
    && after == r.parser && consumed == r.consumed
    && (r.status == Going || r.status == Stopped ==> Flatten(log) == r.atoms)
    && (r.status == Failed ==> exists k, bs :: r.atoms == Flatten(log) + Bytes(k, bs))
  }

  /** The marks a call starts with: a name, a value or a URL begun in an earlier call goes on
      at the first byte. */
  function InitialMarks(s: State): map<DataKind, nat> {
    if s == HEADER_FIELD then map[Field := 0]
    else if s == HEADER_VALUE then map[Value := 0]
    else if UrlState(s) then map[Url := 0]
    else map[]
  }

  lemma StartsTracked(p: Parser, data: seq<byte>, hc: HeadersAnswer)
    ensures var l := Locals(0, InitialMarks(p.state), []);
      && Tracks(KindOf(p.state), l)
      && Run(p, data[..0], hc) == Outcome(p, Delivered(KindOf(p.state), l, data, 0), 0, Going)
  {
    hide Step;
    assert data[..0] == [] && data[0..0] == [];
  }

  lemma AtMostOneMark(kind: Option<DataKind>, l: Locals)
    requires Tracks(kind, l)
    ensures |l.marks| <= 1
  {
    if k :| k in l.marks {
      assert l.marks.Keys == {k};
      assert |l.marks.Keys| == 1;
    } else {
      assert l.marks == map[];
    }
  }

  lemma Tracked(kind: Option<DataKind>, l: Locals)
    requires Tracks(kind, l)
    ensures InBounds(l)
  {
  }

  lemma OncePass(p: Parser, ch: byte, data: seq<byte>, l: Locals, hc: HeadersAnswer, r: Pass)
    requires l.at < |data| && InBounds(l) && r == Switch(p, ch, |data| - l.at, hc) && r.skip < |data| - l.at
    ensures Finish(p, ch, data, l, hc) ==
            if r.next == Again then Finish(r.parser, ch, data, Effect(r, data, l), hc)
            else Turn(r.parser, Effect(r, data, l), r.next)
  {
    hide Switch, Effect, Finish;
    if r.next == Again {
      AnotherPass(p, ch, data, l, hc, r);
    } else {
      OnePass(p, ch, data, l, hc, r);
    }
  }

  /** The loop invariant after a turn that delivers. */
  lemma Advance(start: Parser, data: seq<byte>, l: Locals, p: Parser, hc: HeadersAnswer, t: Turn)
    requires l.at < |data| && Tracks(KindOf(p.state), l) && TurnDelivers(p, data, l, hc, t)
    requires Run(start, data[..l.at], hc) == Outcome(p, Delivered(KindOf(p.state), l, data, l.at), l.at, Going)
    ensures t.next == Continue || t.next == Stop
    ensures var end := t.locals.at + 1;
      var m := t.locals.(at := end);
      && l.at < end <= |data|
      && Tracks(KindOf(t.parser.state), m)
      && (t.next == Stop ==> Delivered(KindOf(t.parser.state), m, data, end) == Flatten(m.log))
      && Run(start, data[..end], hc) ==
         Outcome(t.parser, Delivered(KindOf(t.parser.state), m, data, end), end, StatusOf(t.next))
  {
    hide Run, KindOf, Step, Flatten;
    var end := t.locals.at + 1;
    assert data[..end] == data[..l.at] + data[l.at..end];
    RunSplit(start, data[..l.at], data[l.at..end], hc);
  }

  /** The end of a call that does not use all its data. */
  lemma Cut(start: Parser, data: seq<byte>, end: nat, hc: HeadersAnswer)
    requires end <= |data| && Run(start, data[..end], hc).status != Going
    ensures Run(start, data, hc) == Run(start, data[..end], hc)
  {
    hide Run, Step;
    assert data == data[..end] + data[end..];
    RunSplit(start, data[..end], data[end..], hc);
  }

  lemma Abort(start: Parser, data: seq<byte>, l: Locals, p: Parser, hc: HeadersAnswer, t: Turn)
    requires l.at < |data| && Tracks(KindOf(p.state), l) && TurnFails(p, data, l, hc, t)
    requires Run(start, data[..l.at], hc) == Outcome(p, Delivered(KindOf(p.state), l, data, l.at), l.at, Going)
    ensures var r := Run(start, data, hc);
      && t.locals.at == l.at
      && r == Outcome(t.parser, r.atoms, l.at, StatusOf(t.next))
      && (t.next == Fail ==> exists k, bs :: r.atoms == Flatten(t.locals.log) + Bytes(k, bs))
  {
    hide Run, Delivered, KindOf, Step, Bytes, Flatten;
    assert data[..l.at + 1] == data[..l.at] + [data[l.at]];
    RunSplit(start, data[..l.at], [data[l.at]], hc);
    Cut(start, data, l.at + 1, hc);
  }

  lemma TooLong(start: Parser, data: seq<byte>, l: Locals, p: Parser, hc: HeadersAnswer)
    requires l.at < |data| && Tracks(KindOf(p.state), l)
    requires ParsingHeader(p.state) && p.nread + 1 > MAX_HEADER_SIZE
    requires Run(start, data[..l.at], hc) == Outcome(p, Delivered(KindOf(p.state), l, data, l.at), l.at, Going)
    ensures var r := Run(start, data, hc);
      && r == Outcome(p.(nread := p.nread + 1, errno := HEADER_OVERFLOW), r.atoms, l.at, Failed)
      && exists k, bs :: r.atoms == Flatten(l.log) + Bytes(k, bs)
  {
    hide Run, Delivered, KindOf, Bytes, Flatten, Passes;
    RunOne(p, data[l.at], hc);
    PendingIsOneKind(KindOf(p.state), l, data, l.at);
    assert data[..l.at + 1] == data[..l.at] + [data[l.at]];
    RunSplit(start, data[..l.at], [data[l.at]], hc);
    Cut(start, data, l.at + 1, hc);
  }

  class HttpParser {
    var fields: Parser

    constructor (t: ParserType)
      ensures fields == InitialParser(t)
    {
      fields := InitialParser(t);
    }

    /** The passes over one byte: the switch, again as long as it says `goto reexecute_byte`. */
    method ExecuteByte(ch: byte, data: seq<byte>, start: Locals, hc: HeadersAnswer) returns (l: Locals, next: Next)
      requires start.at < |data| && InBounds(start)
      modifies this
      ensures Turn(fields, l, next) == Finish(old(fields), ch, data, start, hc)
    {
      hide Switch, Finish;
      var at, marks, log := start.at, start.marks, start.log;
      l := start;
      next := Again;
      while next == Again
        invariant l.at == at && l.marks == marks && l.log == log
        invariant next == Again ==> at < |data| && InBounds(l)
        invariant Finish(old(fields), ch, data, start, hc) ==
                  if next == Again then Finish(fields, ch, data, l, hc) else Turn(fields, l, next)
        decreases if next == Again then 1 + Rank(fields.state) else 0
      {
        ghost var p, l0 := fields, l;
        var r := Switch(fields, ch, |data| - at, hc);
        TidySwitch(p, ch, |data| - at, hc);
        fields := r.parser;
        if r.mark.Some? && r.mark.value !in marks {
          marks := marks[r.mark.value := at];
        }
        at := at + r.skip;
        match r.call {
          case NoCall =>
          case Announce(n) => log := log + [Notify(n)];
          case Flush(k) =>
            if k in marks {
              log := log + [Data(k, data[marks[k]..at])];
            }
            marks := marks - {k};
          case FlushThrough(k) =>
            if k in marks {
              log := log + [Data(k, data[marks[k]..at + 1])];
            }
            marks := marks - {k};
        }
        l, next := Locals(at, marks, log), r.next;
        assert l == Effect(r, data, l0);
        OncePass(p, ch, data, l0, hc, r);
      }
    }

    /** The callbacks for marks left over at the end of the data: at most one is set. */
    static method FlushLeftOver(start: Locals, data: seq<byte>, ghost kind: Option<DataKind>)
        returns (log: seq<Event>)
      requires start.at == |data| && Tracks(kind, start)
      ensures Flatten(log) == Delivered(kind, start, data, |data|)
    {
      hide Flatten, Bytes;
      AtMostOneMark(kind, start);
      assert |start.marks| <= 1;
      log := start.log;
      var marks := start.marks;
      if Field in marks {
        log := log + [Data(Field, data[marks[Field]..|data|])];
        FlattenAppend(start.log, Data(Field, data[marks[Field]..|data|]));
      }
      if Value in marks {
        log := log + [Data(Value, data[marks[Value]..|data|])];
        FlattenAppend(start.log, Data(Value, data[marks[Value]..|data|]));
      }
      if Url in marks {
        log := log + [Data(Url, data[marks[Url]..|data|])];
        FlattenAppend(start.log, Data(Url, data[marks[Url]..|data|]));
      }
      if Body in marks {
        log := log + [Data(Body, data[marks[Body]..|data|])];
        FlattenAppend(start.log, Data(Body, data[marks[Body]..|data|]));
      }
    }

    method Execute(data: seq<byte>, hc: HeadersAnswer) returns (consumed: nat, log: seq<Event>)
      modifies this
      ensures Executed(old(fields), data, hc, fields, consumed, log)
    {
      if fields.errno != OK {
        return 0, [];
      }
      if data == [] {
        var (p, n, e) := AtEof(fields);
        fields := p;
        return n, e;
      }
      hide Run, Fed;
      consumed, log := ByteLoop(data, hc);
    }

    /** The loop over the bytes, and the callbacks after it. */
    method ByteLoop(data: seq<byte>, hc: HeadersAnswer) returns (consumed: nat, log: seq<Event>)
      modifies this
      ensures Fed(Run(old(fields), data, hc), fields, consumed, log)
    {
      hide Run, Delivered, KindOf, Finish, Bytes, Flatten, TurnDelivers, TurnFails, Tracks, Step;
      var l := Locals(0, InitialMarks(fields.state), []);
      ghost var start := fields;
      StartsTracked(fields, data, hc);
      while l.at < |data|
        invariant l.at <= |data| && Tracks(KindOf(fields.state), l) && InBounds(l)
        invariant Run(start, data[..l.at], hc) ==
                  Outcome(fields, Delivered(KindOf(fields.state), l, data, l.at), l.at, Going)
      {
        ghost var p := fields;
        Tracked(KindOf(p.state), l);
        if ParsingHeader(fields.state) {
          fields := fields.(nread := fields.nread + 1);
          if fields.nread > MAX_HEADER_SIZE {
            fields := fields.(errno := HEADER_OVERFLOW);
            TooLong(start, data, l, p, hc);
            return l.at, l.log;
          }
        }
        var after, next := ExecuteByte(data[l.at], data, l, hc);
        ghost var t := Turn(fields, after, next);
        AnyTurn(p, data, l, hc, t);
        if next == Fail || next == AssertFailed {
          Abort(start, data, l, p, hc, t);
          return after.at, after.log;
        }
        Advance(start, data, l, p, hc, t);
        if next == Stop {
          Cut(start, data, after.at + 1, hc);
          return after.at + 1, after.log;
        }
        l := after.(at := after.at + 1);
        Tracked(KindOf(fields.state), l);
      }
      assert data[..|data|] == data;
      consumed := |data|;
      log := FlushLeftOver(l, data, KindOf(fields.state));
    }
  }
}
