/** The empty call that tells the parser of the end of the stream. */
module HttpEof {
  import opened CBytes
  import opened HttpTypes
  import opened HttpSwitch
  import opened HttpRun
  import opened HttpLog
  import opened HttpExecute
  import opened HttpInvariant
  import opened HttpSplit
  import opened HttpMessages
  import opened HttpPipeline

  // ---- behind a stream of messages ----

  /** Behind whole messages the empty call is no error. It completes a body that goes up to the
      end of the stream, and does nothing else. */
  lemma EofBehindStream(ms: seq<Message>, requests: bool, answer: bool, hc: HeadersAnswer,
                        pieces: seq<seq<byte>>, before: Parser, consumed: nat, log: seq<Event>,
                        after: Parser, more: nat, last: seq<Event>)
    requires ms != [] && ValidStream(ms, requests, 0, answer) && Always(hc, answer)
    requires Joined(pieces) == StreamText(ms) && forall i :: 0 <= i < |pieces| ==> pieces[i] != []
    requires CalledOn(InitialParser(if requests then Request else Response), pieces, hc, before, consumed, log)
    requires Executed(before, [], hc, after, more, last)
    ensures after == before && after.errno == OK && more == 0
    ensures last == if ms[|ms| - 1].payload.Unbounded? then [Notify(MessageComplete)] else []
  {
    hide CalledOn, ValidStream, Always, StreamText, StreamAtoms, Flatten, Persists, ValidStart;
    StreamDelivered(ms, requests, answer, hc, pieces, before, consumed, log);
  }

  // ---- anywhere in a stream of requests ----

  /** Between messages. */
  predicate Between(s: State) { s == DEAD || s == START_REQ }

  /** The states of a parser of requests. */
  predicate OfRequests(p: Parser) {
    p.ptype == Request && (p.state == DEAD || (START_REQ <= p.state && p.state != BODY_IDENTITY_EOF))
  }

  /** Messages announced and not completed. */
  function Pending(atoms: seq<Atom>): int {
    if atoms == [] then 0 else Pending(atoms[..|atoms| - 1]) + Change(atoms[|atoms| - 1])
  }

  function Change(a: Atom): int {
    if a == Note(MessageBegin) then 1 else if a == Note(MessageComplete) then -1 else 0
  }

  lemma {:induction false} PendingJoin(a: seq<Atom>, b: seq<Atom>)
    ensures Pending(a + b) == Pending(a) + Pending(b)
    decreases |b|
  {
    if b == [] {
      assert a + b == a;
    } else {
      var c := a + b;
      assert c[..|c| - 1] == a + b[..|b| - 1] && c[|c| - 1] == b[|b| - 1];
      PendingJoin(a, b[..|b| - 1]);
    }
  }

  lemma PendingOne(a: Atom)
    ensures Pending([a]) == Change(a) && Pending([]) == 0
  {
    assert [a][..0] == [];
  }

  function InMessage(s: State): int { if Between(s) then 0 else 1 }

  /** A pass announces a message when it leaves what is between messages, and completes one when
      it comes back there, which no jump does. */
  predicate Balanced(p: Parser, r: Pass) {
    r.next == Continue || r.next == Again ==>
      && OfRequests(r.parser)
      && InMessage(r.parser.state) == InMessage(p.state) + Pending(NotesOf(r.call))
  }

  lemma NoteBalance(n: Notice)
    ensures NotesOf(NoCall) == [] && NotesOf(Announce(n)) == [Note(n)]
    ensures forall k :: NotesOf(Flush(k)) == [] && NotesOf(FlushThrough(k)) == []
    ensures Pending([]) == 0 && Pending([Note(n)]) == Change(Note(n))
  {
    PendingOne(Note(n));
  }

  lemma Notices()
    ensures Pending(NotesOf(NoCall)) == 0
    ensures Pending(NotesOf(Announce(MessageBegin))) == 1 && Pending(NotesOf(Announce(MessageComplete))) == -1
    ensures Pending(NotesOf(Announce(HeadersComplete))) == 0
    ensures forall k :: Pending(NotesOf(Flush(k))) == 0 && Pending(NotesOf(FlushThrough(k))) == 0
  {
    hide Pending;
    NoteBalance(MessageBegin);
    NoteBalance(MessageComplete);
    NoteBalance(HeadersComplete);
  }

  lemma DeadBalance(p: Parser, ch: byte)
    requires p.state == DEAD && OfRequests(p)
    ensures Balanced(p, Preamble(p, ch))
  {
    hide Pending, NotesOf;
    Notices();
  }

  lemma RequestLineBalance(p: Parser, ch: byte)
    requires InRequestLine(p.state) && OfRequests(p)
    ensures Balanced(p, RequestLine(p, ch))
  {
    hide Pending, NotesOf, MethodString, NextCandidate, FirstCandidate, IsAlpha;
    Notices();
    if p.state == REQ_SPACES_BEFORE_URL {
      UrlBalance(REQ_SPACES_BEFORE_URL, ch);
      UrlBalance(REQ_SERVER_START, ch);
    }
    hide ParseUrlChar;
  }

  lemma UrlBalance(s: State, ch: byte)
    ensures var t := ParseUrlChar(s, ch); t == DEAD || UrlState(t)
  {
  }

  lemma UrlLineBalance(p: Parser, ch: byte)
    requires UrlState(p.state) && OfRequests(p)
    ensures Balanced(p, UrlLine(p, ch))
  {
    hide Pending, NotesOf, ParseUrlChar;
    Notices();
    UrlBalance(p.state, ch);
  }

  lemma MatcherOnly(p: Parser, ch: byte, c: char)
    ensures NameStep(p, ch, c).Some? ==>
      NameStep(p, ch, c).value.state == p.state && NameStep(p, ch, c).value.ptype == p.ptype
    ensures var r := ValueStep(p, ch);
      r.parser.state == p.state && r.parser.ptype == p.ptype && r.call == NoCall && r.next != Again
    ensures var r := ValueFirst(p, ch);
      r.parser.state == p.state && r.parser.ptype == p.ptype && r.call == NoCall && r.next != Again
  {
    hide Lower, Token, Accumulate;
  }

  lemma NewState(p: Parser)
    requires p.ptype == Request
    ensures Between(NewMessage(p)) && !MessageNeedsEof(p)
  {
  }

  lemma HeadersEndBalance(p: Parser, ch: byte, hc: HeadersAnswer)
    requires HEADERS_ALMOST_DONE <= p.state <= HEADERS_DONE && OfRequests(p)
    ensures Balanced(p, HeaderLines(p, ch, hc))
  {
    hide Pending, NotesOf, NewMessage, MessageNeedsEof, AtHeaderField, AtHeaderFieldStart, AtHeaderValueStart,
      AtHeaderValue;
    Notices();
    NewState(p);
    NewState(p.(nread := 0));
  }

  lemma HeaderLinesBalance(p: Parser, ch: byte, hc: HeadersAnswer)
    requires HEADER_FIELD_START <= p.state <= HEADER_ALMOST_DONE && OfRequests(p)
    ensures Balanced(p, HeaderLines(p, ch, hc))
  {
    hide Pending, NotesOf, NameStep, ValueStep, ValueFirst, Token, FirstNameMatch, AtHeadersAlmostDone, AtHeadersDone;
    Notices();
    MatcherOnly(p, ch, Token(ch));
    MatcherOnly(p.(state := HEADER_VALUE, index := 0), ch, Token(ch));
  }

  lemma BodyLinesBalance(p: Parser, ch: byte)
    requires InBody(p.state) && OfRequests(p)
    ensures Balanced(p, BodyLines(p, ch, 1))
  {
    hide Pending, NotesOf, NewMessage, Unhex, Accumulate;
    Notices();
    NewState(p);
  }

  lemma SwitchBalance(p: Parser, ch: byte, hc: HeadersAnswer)
    requires OfRequests(p)
    ensures Balanced(p, Switch(p, ch, 1, hc))
  {
    hide Balanced, Preamble, RequestLine, UrlLine, HeaderLines, BodyLines;
    if p.state == DEAD {
      DeadBalance(p, ch);
    } else if InRequestLine(p.state) {
      RequestLineBalance(p, ch);
    } else if UrlState(p.state) {
      UrlLineBalance(p, ch);
    } else if HEADER_FIELD_START <= p.state <= HEADER_ALMOST_DONE {
      HeaderLinesBalance(p, ch, hc);
    } else if HEADERS_ALMOST_DONE <= p.state <= HEADERS_DONE {
      HeadersEndBalance(p, ch, hc);
    } else {
      BodyLinesBalance(p, ch);
    }
  }

  lemma {:induction false} PassesBalance(p: Parser, ch: byte, hc: HeadersAnswer)
    requires OfRequests(p)
    ensures var o := Passes(p, ch, hc);
      o.status == Going ==> OfRequests(o.parser) && InMessage(o.parser.state) == InMessage(p.state) + Pending(o.atoms)
    decreases Rank(p.state)
  {
    hide Switch, Pending, NotesOf, OfRequests, InMessage;
    SwitchBalance(p, ch, hc);
    var r := Switch(p, ch, 1, hc);
    if r.next == Again {
      TidySwitch(p, ch, 1, hc);
      PassesBalance(r.parser, ch, hc);
      PendingJoin(NotesOf(r.call), Passes(r.parser, ch, hc).atoms);
    }
  }

  lemma StepBalance(p: Parser, ch: byte, hc: HeadersAnswer)
    requires OfRequests(p)
    ensures var o := Step(p, ch, hc);
      o.status == Going ==> OfRequests(o.parser) && InMessage(o.parser.state) == InMessage(p.state) + Pending(o.atoms)
  {
    hide Passes, Pending, InMessage;
    var q := CountHeaderByte(p);
    PassesBalance(q, ch, hc);
    var r := Passes(q, ch, hc);
    var a, b := BodyByte(p.state, ch), LineByte(p.state, r.parser.state, ch);
    PendingJoin(a, r.atoms);
    PendingJoin(a + r.atoms, b);
    DataIsNoNotice(p.state, r.parser.state, ch);
  }

  lemma DataIsNoNotice(s: State, t: State, ch: byte)
    ensures Pending(BodyByte(s, ch)) == 0 && Pending(LineByte(s, t, ch)) == 0
  {
    hide Pending;
    PendingOne(Byte(Body, ch));
    PendingOne(Byte(Url, ch));
    PendingOne(Byte(Field, ch));
    PendingOne(Byte(Value, ch));
  }

  lemma {:induction false} RunBalance(p: Parser, data: seq<byte>, hc: HeadersAnswer)
    requires OfRequests(p)
    ensures var o := Run(p, data, hc);
      o.status == Going ==> OfRequests(o.parser) && InMessage(o.parser.state) == InMessage(p.state) + Pending(o.atoms)
    decreases |data|
  {
    hide Step, Pending, InMessage, OfRequests;
    if data == [] {
      PendingOne(Note(MessageBegin));
    } else {
      StepBalance(p, data[0], hc);
      var first := Step(p, data[0], hc);
      if first.status == Going {
        RunBalance(first.parser, data[1..], hc);
        PendingJoin(first.atoms, Run(first.parser, data[1..], hc).atoms);
      }
    }
  }

  lemma EofOfRequests(p: Parser)
    requires OfRequests(p) && p.errno == OK
    ensures var (q, n, log) := AtEof(p);
      && log == [] && (q.errno == OK <==> Between(p.state)) && (q.errno != OK ==> q.errno == INVALID_EOF_STATE)
  {
  }

  /** After any bytes that a parser of requests took without incident, in one call, the empty call
      reports INVALID_EOF_STATE if and only if a message was announced that was not completed; it
      announces nothing. */
  lemma EofInRequests(data: seq<byte>, hc: HeadersAnswer, before: Parser, consumed: nat, log: seq<Event>,
                      after: Parser, more: nat, last: seq<Event>)
    requires data != [] && Executed(InitialParser(Request), data, hc, before, consumed, log)
    requires GoesOn(data, before, consumed) && Executed(before, [], hc, after, more, last)
    ensures last == [] && 0 <= Pending(Flatten(log)) <= 1
    ensures after.errno == if Pending(Flatten(log)) == 0 then OK else INVALID_EOF_STATE
  {
    hide Run, Flatten, Pending, WellFormed, AtEof;
    var p := InitialParser(Request);
    InitiallyWellFormed(Request);
    OneCall(p, data, hc, before, consumed, log);
    RunBalance(p, data, hc);
    EofOfRequests(before);
  }
}
