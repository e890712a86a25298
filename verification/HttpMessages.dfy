/** Messages behind their first line: any header lines, the empty line, and the body that the
    headers frame. */
module HttpMessages {
  import opened CBytes
  import opened HttpTypes
  import opened HttpSwitch
  import opened HttpRun
  import opened HttpBodies
  import opened HttpHeaderNames
  import opened HttpHeaderValues
  import opened HttpHeaderLines

  // ---- lists of header lines ----

  /** What the lines leave. */
  function ContextOf(ls: seq<Line>): Context {
    if ls == [] then Shut else ContextAfter(ls[|ls| - 1], ContextOf(ls[..|ls| - 1]))
  }

  predicate ValidLines(ls: seq<Line>) {
    ls == [] || (ValidLines(ls[..|ls| - 1]) && ValidLine(ls[|ls| - 1], ContextOf(ls[..|ls| - 1])))
  }

  function LinesText(ls: seq<Line>): seq<byte> {
    if ls == [] then [] else LinesText(ls[..|ls| - 1]) + LineText(ls[|ls| - 1])
  }

  function LinesAtoms(ls: seq<Line>): seq<Atom> {
    if ls == [] then [] else LinesAtoms(ls[..|ls| - 1]) + LineAtoms(ls[|ls| - 1])
  }

  /** The meaning of the last line. */
  function LastMeaning(ls: seq<Line>): HeaderMatch
    requires ls != []
  {
    MeaningOf(ls[|ls| - 1], ContextOf(ls[..|ls| - 1]))
  }

  /** Some line asks for it. */
  predicate AnyAsks(ls: seq<Line>, w: Wish) {
    ls != [] && (AnyAsks(ls[..|ls| - 1], w) || Asks(LastMeaning(ls), ValueOf(ls[|ls| - 1]), w))
  }

  /** What the lines say of the length: the last one that says anything. */
  function LengthSaid(ls: seq<Line>): (r: Option<nat>)
    requires ValidLines(ls)
    ensures r.Some? ==> r.value < ULLONG_MAX
  {
    if ls == [] then None
    else
      var v := ValueOf(ls[|ls| - 1]);
      if SaysLength(LastMeaning(ls), v) then
        LengthInRange(LastMeaning(ls), ls[|ls| - 1], ContextOf(ls[..|ls| - 1]));
        Some(DecValue(DigitsIn(v)))
      else LengthSaid(ls[..|ls| - 1])
  }

  lemma LengthInRange(m: HeaderMatch, l: Line, c: Context)
    requires ValidLine(l, c) && m == MeaningOf(l, c) && SaysLength(m, ValueOf(l))
    ensures DecValue(DigitsIn(ValueOf(l))) < ULLONG_MAX
  {
    hide Meaning, DecValue, DigitsIn;
  }

  function FlagsAfterLines(f: Flags, ls: seq<Line>): Flags {
    f.(chunked := f.chunked || AnyAsks(ls, WantsChunked), keepAlive := f.keepAlive || AnyAsks(ls, WantsKeepAlive),
       close := f.close || AnyAsks(ls, WantsClose), upgrade := f.upgrade || AnyAsks(ls, WantsUpgrade))
  }

  /** The parser behind the lines, but for its matcher: a flag is set exactly when some line asks
      for it, and the last length counts. */
  function AfterLines(p: Parser, ls: seq<Line>): Parser
    requires ValidLines(ls)
  {
    p.(state := if ContextOf(ls).Open? then HEADER_VALUE_LWS else HEADER_FIELD_START,
       nread := p.nread + |LinesText(ls)|, flags := FlagsAfterLines(p.flags, ls),
       contentLength := match LengthSaid(ls) case Some(n) => n case None => p.contentLength)
  }

  /** One more line, in the terms of the last line alone. */
  lemma OneMoreLine(p: Parser, q: Parser, r: Parser, ls: seq<Line>)
    requires ls != [] && ValidLines(ls)
    requires SameBut(q, AfterLines(p, ls[..|ls| - 1]))
    requires SameBut(r, AfterLine(q, ls[|ls| - 1], ContextOf(ls[..|ls| - 1])))
    ensures SameBut(r, AfterLines(p, ls))
  {
    hide Asks, DecValue, DigitsIn, LineText, ValidLine, ContextAfter, MeaningOf, SaysLength, ValueOf, IsValue;
    var front, last := ls[..|ls| - 1], ls[|ls| - 1];
    FlagsMore(p.flags, ls);
    ValueIsValid(last, ContextOf(front));
  }

  lemma ValueIsValid(l: Line, c: Context)
    requires ValidLine(l, c)
    ensures IsValue(ValueOf(l), MeaningOf(l, c))
  {
    hide Meaning, LengthValue;
  }

  lemma FlagsMore(f: Flags, ls: seq<Line>)
    requires ls != []
    ensures FlagsAfterLines(f, ls) ==
      FlagsAfter(FlagsAfterLines(f, ls[..|ls| - 1]), LastMeaning(ls), ValueOf(ls[|ls| - 1]))
  {
    hide Asks, MeaningOf, ContextOf;
  }

  lemma {:induction false} LinesRun(p: Parser, ls: seq<Line>, hc: HeadersAnswer) returns (q: Parser)
    requires p.state == HEADER_FIELD_START && ValidLines(ls) && p.nread + |LinesText(ls)| <= MAX_HEADER_SIZE
    ensures Reaches(p, LinesText(ls), q, LinesAtoms(ls), hc)
    ensures SameBut(q, AfterLines(p, ls)) && At(q, ContextOf(ls))
    decreases |ls|
  {
    hide LineText, LineAtoms, ValidLine, Asks;
    if ls == [] {
      q := p;
    } else {
      hide Reaches, AfterLines, AfterLine, At, ContextAfter;
      var front, last := ls[..|ls| - 1], ls[|ls| - 1];
      var r := LinesRun(p, front, hc);
      CountedLines(p, r, front);
      q := LineRun(r, last, ContextOf(front), hc);
      OneMoreLine(p, r, q, ls);
      ReachesThen(p, LinesText(front), r, LinesAtoms(front), LineText(last), q, LineAtoms(last), hc);
    }
  }

  lemma CountedLines(p: Parser, q: Parser, ls: seq<Line>)
    requires ValidLines(ls) && SameBut(q, AfterLines(p, ls))
    ensures q.nread == p.nread + |LinesText(ls)| && q.flags.trailing == p.flags.trailing
  {
    hide ValidLines, LinesText, AnyAsks, LengthSaid, ContextOf;
  }

  // ---- the empty line ----

  /** The application answers every headers-complete callback in the same way. */
  ghost predicate Always(hc: HeadersAnswer, answer: bool) { forall p :: hc(p) == answer }

  /** The parser when the headers are complete and the application has answered. */
  function Framed(p: Parser, answer: bool): Parser {
    p.(state := HEADERS_DONE, nread := 0, upgrade := p.flags.upgrade || p.verb == CONNECT,
       flags := if answer then p.flags.(skipBody := true) else p.flags)
  }

  /** What follows the headers. */
  datatype Rest = Upgraded | NoBody | Chunks | Counted | ToEof

  function RestOf(p: Parser): Rest {
    if p.upgrade then Upgraded
    else if p.flags.skipBody then NoBody
    else if p.flags.chunked then Chunks
    else if p.contentLength == ULLONG_MAX then (if MessageNeedsEof(p) then ToEof else NoBody)
    else if p.contentLength == 0 then NoBody
    else Counted
  }

  function Entered(p: Parser): Parser {
    match RestOf(p)
    case Upgraded => Done(p)
    case NoBody => Done(p)
    case Chunks => p.(state := CHUNK_SIZE_START)
    case Counted => p.(state := BODY_IDENTITY)
    case ToEof => p.(state := BODY_IDENTITY_EOF)
  }

  /** What the empty line announces. */
  function EndAtoms(q: Parser): seq<Atom> {
    [Note(HeadersComplete)] + (if RestOf(q) == NoBody || RestOf(q) == Upgraded then [Note(MessageComplete)] else [])
  }

  lemma HeadersEnd(p: Parser, answer: bool, hc: HeadersAnswer)
    requires p.state == HEADERS_ALMOST_DONE && p.nread < MAX_HEADER_SIZE && !p.flags.trailing && Always(hc, answer)
    ensures var q := Framed(p, answer);
      Step(p, LF, hc) == Outcome(Entered(q), EndAtoms(q), 1, if RestOf(q) == Upgraded then Stopped else Going)
  {
    hide ShouldKeepAlive, MessageNeedsEof;
    var c := CountHeaderByte(p);
    var q := Framed(p, answer);
    var r := q.(nread := c.nread);
    HeadersSwitch(c, r, answer, hc);
    DonePasses(r, q, hc);
    hide Switch, RestOf, Entered;
    var rest := Passes(r, LF, hc);
    assert Passes(c, LF, hc) == rest.(atoms := [Note(HeadersComplete)] + rest.atoms);
  }

  lemma DonePasses(r: Parser, q: Parser, hc: HeadersAnswer)
    requires r.state == HEADERS_DONE && q == r.(nread := 0) && Switch(r, LF, 1, hc) == AtHeadersDone(r, LF)
    ensures Passes(r, LF, hc) ==
      Outcome(Entered(q), if RestOf(q) == NoBody || RestOf(q) == Upgraded then [Note(MessageComplete)] else [], 0,
              if RestOf(q) == Upgraded then Stopped else Going)
  {
    hide Switch, ShouldKeepAlive, MessageNeedsEof;
    EofOnlyForResponses(q);
  }

  lemma HeadersSwitch(c: Parser, r: Parser, answer: bool, hc: HeadersAnswer)
    requires c.state == HEADERS_ALMOST_DONE && !c.flags.trailing && Always(hc, answer)
    requires r == Framed(c, answer).(nread := c.nread)
    ensures Switch(c, LF, 1, hc) == Pass(r, None, 0, Announce(HeadersComplete), Again)
    ensures Switch(r, LF, 1, hc) == AtHeadersDone(r, LF)
  {
    hide ShouldKeepAlive, MessageNeedsEof, AtHeadersDone;
  }

  lemma EofOnlyForResponses(p: Parser)
    ensures p.ptype.Request? ==> !MessageNeedsEof(p)
  {
  }

  lemma SameFramed(p: Parser, q: Parser, answer: bool)
    requires q == p.(state := q.state, nread := q.nread)
    ensures Framed(p, answer) == Framed(q, answer)
  {
  }

  lemma EmptyLineRun(p: Parser, c: Context, e: End, answer: bool, hc: HeadersAnswer)
    requires At(p, c) && p.nread + 2 <= MAX_HEADER_SIZE && !p.flags.trailing && Always(hc, answer)
    ensures var q := Framed(p, answer);
      Run(p, EndText(e), hc) ==
        Outcome(Entered(q), EndAtoms(q), |EndText(e)|, if RestOf(q) == Upgraded then Stopped else Going)
  {
    hide Run, Entered, RestOf, Always, Framed, EndAtoms, Found;
    NextLine(p, c, EndText(e), hc);
    var p0 := p.(state := HEADER_FIELD_START);
    SameFramed(p, p0, answer);
    if e.Crlf? {
      CrlfRun(p0, answer, hc);
    } else {
      LfRun(p0, answer, hc);
    }
  }

  lemma LfRun(p: Parser, answer: bool, hc: HeadersAnswer)
    requires p.state == HEADER_FIELD_START && p.nread + 2 <= MAX_HEADER_SIZE && !p.flags.trailing && Always(hc, answer)
    ensures var q := Framed(p, answer);
      Run(p, [LF], hc) == Outcome(Entered(q), EndAtoms(q), 1, if RestOf(q) == Upgraded then Stopped else Going)
  {
    hide Step, Run, Entered, RestOf, Always, Framed, EndAtoms;
    var a := p.(state := HEADERS_ALMOST_DONE);
    BareLf(p, hc);
    LastStep(a, answer, hc);
    SameFramed(p, a, answer);
    RunOne(p, LF, hc);
    RunOne(a, LF, hc);
  }

  lemma CrlfRun(p: Parser, answer: bool, hc: HeadersAnswer)
    requires p.state == HEADER_FIELD_START && p.nread + 2 <= MAX_HEADER_SIZE && !p.flags.trailing && Always(hc, answer)
    ensures var q := Framed(p, answer);
      Run(p, CRLF, hc) == Outcome(Entered(q), EndAtoms(q), 2, if RestOf(q) == Upgraded then Stopped else Going)
  {
    hide Run, Entered, RestOf, Always, Framed, EndAtoms;
    var b := p.(state := HEADERS_ALMOST_DONE, nread := p.nread + 1);
    LastCr(p, hc);
    LastStep(b, answer, hc);
    SameFramed(p, b, answer);
    RunSplit(p, [CR], [LF], hc);
    assert [CR] + [LF] == CRLF;
    NothingJoined();
  }

  lemma LastStep(p: Parser, answer: bool, hc: HeadersAnswer)
    requires p.state == HEADERS_ALMOST_DONE && p.nread < MAX_HEADER_SIZE && !p.flags.trailing && Always(hc, answer)
    ensures var q := Framed(p, answer);
      Run(p, [LF], hc) == Outcome(Entered(q), EndAtoms(q), 1, if RestOf(q) == Upgraded then Stopped else Going)
  {
    hide Step, Run, RestOf;
    HeadersEnd(p, answer, hc);
    RunOne(p, LF, hc);
  }

  // ---- bodies ----

  /** What is sent behind the empty line. */
  datatype Payload =
    | Nothing
    | Plain(bytes: seq<byte>)
    | Coded(chunks: seq<Chunk>, trailer: seq<Line>, end: End)
    | Unbounded(bytes: seq<byte>)

  predicate ValidPayload(b: Payload) {
    b.Coded? ==> ValidLines(b.trailer) && |LinesText(b.trailer)| + 2 <= MAX_HEADER_SIZE
  }

  function PayloadText(b: Payload): seq<byte> {
    match b
    case Nothing => []
    case Plain(bs) => bs
    case Coded(cs, t, end) => Encode(cs) + LinesText(t) + EndText(end)
    case Unbounded(bs) => bs
  }

  /** What is delivered of it: the data, the trailing headers, and the end of the message. */
  function PayloadAtoms(b: Payload): seq<Atom> {
    match b
    case Nothing => [Note(MessageComplete)]
    case Plain(bs) => Bytes(Body, bs) + [Note(MessageComplete)]
    case Coded(cs, t, _) => Bytes(Body, Bodies(cs)) + LinesAtoms(t) + [Note(MessageComplete)]
    case Unbounded(bs) => Bytes(Body, bs)
  }

  /** The payload is what the headers announced. */
  ghost predicate Carries(p: Parser, b: Payload) {
    match b
    case Nothing => RestOf(p) == NoBody
    case Plain(bs) => RestOf(p) == Counted && |bs| == p.contentLength
    case Coded(cs, _, _) => RestOf(p) == Chunks && forall i :: 0 <= i < |cs| ==> ValidChunk(cs[i])
    case Unbounded(_) => RestOf(p) == ToEof
  }

  /** The parser behind the payload, but for its matcher. */
  function AfterPayload(p: Parser, b: Payload): Parser
    requires ValidPayload(b)
  {
    match b
    case Nothing => Done(p)
    case Plain(_) => Done(p.(contentLength := 0))
    case Coded(_, t, end) => Done(AfterLines(AtTrailer(p), t).(nread := |LinesText(t)| + |EndText(end)|))
    case Unbounded(_) => p.(state := BODY_IDENTITY_EOF)
  }

  lemma TrailerRun(p: Parser, t: seq<Line>, end: End, hc: HeadersAnswer) returns (r: Parser)
    requires p.state == HEADER_FIELD_START && p.flags.trailing && p.nread == 0
    requires ValidLines(t) && |LinesText(t)| + 2 <= MAX_HEADER_SIZE
    ensures Reaches(p, LinesText(t) + EndText(end), r, LinesAtoms(t) + [Note(MessageComplete)], hc)
    ensures SameBut(r, Done(AfterLines(p, t).(nread := |LinesText(t)| + |EndText(end)|)))
  {
    hide Run, LinesText, LinesAtoms, ValidLines, FlagsAfterLines, AfterLines, ShouldKeepAlive, ContextOf;
    var q := LinesRun(p, t, hc);
    CountedLines(p, q, t);
    NextLine(q, ContextOf(t), EndText(end), hc);
    var q0 := q.(state := HEADER_FIELD_START);
    EmptyLine(q0, end, hc);
    var k := |EndText(end)|;
    r := Done(q0.(nread := q0.nread + k));
    SameRest(q0.(nread := q0.nread + k), AfterLines(p, t).(nread := |LinesText(t)| + k));
    ReachesThen(p, LinesText(t), q, LinesAtoms(t), EndText(end), r, [Note(MessageComplete)], hc);
  }

  /** Where a message ends and where its body starts does not depend on the matcher. */
  lemma SameRest(p: Parser, q: Parser)
    requires SameBut(p.(state := q.state), q)
    ensures RestOf(p) == RestOf(q) && NewMessage(p) == NewMessage(q)
  {
  }

  /** From behind the empty line to the end of the payload. */
  lemma PayloadRun(q: Parser, b: Payload, hc: HeadersAnswer) returns (r: Parser)
    requires ValidPayload(b) && Carries(q, b) && q.nread == 0 && !b.Nothing?
    ensures Reaches(Entered(q), PayloadText(b), r, PayloadAtoms(b), hc)
    ensures SameBut(r, AfterPayload(q, b))
  {
    hide Run, Bytes, LinesText, LinesAtoms, ValidLines, AfterLines, ShouldKeepAlive, MessageNeedsEof, ValidChunk,
      Encode, Bodies;
    var e := Entered(q);
    match b
    case Plain(bs) =>
      IdentityRun(e, bs, hc);
      r := AfterBody(e);
      SameRest(e.(contentLength := 0), q.(contentLength := 0));
    case Coded(cs, t, end) =>
      ChunksRun(e, cs, hc);
      SameTrailer(e, q, t);
      r := TrailerRun(AtTrailer(e), t, end, hc);
      var x := Bytes(Body, Bodies(cs));
      var y := LinesAtoms(t) + [Note(MessageComplete)];
      ReachesThen(e, Encode(cs), AtTrailer(e), x, LinesText(t) + EndText(end), r, y, hc);
      assert Encode(cs) + (LinesText(t) + EndText(end)) == PayloadText(b);
      assert x + y == PayloadAtoms(b);
    case Unbounded(bs) =>
      EofRun(e, bs, hc);
      r := e;
  }

  lemma SameTrailer(p: Parser, q: Parser, t: seq<Line>)
    requires p == q.(state := p.state)
    ensures AtTrailer(p) == AtTrailer(q)
  {
  }

  // ---- from the first header line to the end ----

  lemma BodyRun(p: Parser, c: Context, e: End, b: Payload, answer: bool, hc: HeadersAnswer) returns (r: Parser)
    requires At(p, c) && p.nread + 2 <= MAX_HEADER_SIZE && !p.flags.trailing && Always(hc, answer)
    requires ValidPayload(b) && Carries(Framed(p, answer), b)
    ensures Reaches(p, EndText(e) + PayloadText(b), r, [Note(HeadersComplete)] + PayloadAtoms(b), hc)
    ensures SameBut(r, AfterPayload(Framed(p, answer), b))
  {
    EmptyLineRun(p, c, e, answer, hc);
    hide Run, PayloadText, ShouldKeepAlive, MessageNeedsEof, ValidPayload;
    var q := Framed(p, answer);
    if b.Nothing? {
      r := Entered(q);
      NoText();
      assert EndText(e) + [] == EndText(e);
    } else {
      r := PayloadRun(q, b, hc);
      hide PayloadAtoms, Entered;
      NothingJoined();
      ReachesThen(p, EndText(e), Entered(q), [Note(HeadersComplete)], PayloadText(b), r, PayloadAtoms(b), hc);
    }
  }

  lemma NoText()
    ensures PayloadText(Nothing) == []
  {
  }

  /** Header lines, the empty line and the payload that they announce: every name and value is
      delivered in order, then the end of the headers, the data and the end of the message. */
  lemma MessageRun(p: Parser, ls: seq<Line>, e: End, b: Payload, answer: bool, hc: HeadersAnswer) returns (r: Parser)
    requires p.state == HEADER_FIELD_START && !p.flags.trailing && Always(hc, answer) && ValidLines(ls)
    requires ValidPayload(b)
    requires p.nread + |LinesText(ls)| + 2 <= MAX_HEADER_SIZE
    requires Carries(Framed(AfterLines(p, ls), answer), b)
    ensures Reaches(p, LinesText(ls) + EndText(e) + PayloadText(b), r,
                    LinesAtoms(ls) + [Note(HeadersComplete)] + PayloadAtoms(b), hc)
    ensures SameBut(r, AfterPayload(Framed(AfterLines(p, ls), answer), b))
  {
    hide Reaches, LinesText, LinesAtoms, ValidLines, AfterLines, AfterPayload, PayloadText, PayloadAtoms, Carries,
      ValidPayload, Framed;
    var q := LinesRun(p, ls, hc);
    CountedLines(p, q, ls);
    SameFrame(q, AfterLines(p, ls), answer, b);
    r := BodyRun(q, ContextOf(ls), e, b, answer, hc);
    var x := [Note(HeadersComplete)] + PayloadAtoms(b);
    ReachesThen(p, LinesText(ls), q, LinesAtoms(ls), EndText(e) + PayloadText(b), r, x, hc);
    assert LinesText(ls) + (EndText(e) + PayloadText(b)) == LinesText(ls) + EndText(e) + PayloadText(b);
    assert LinesAtoms(ls) + x == LinesAtoms(ls) + [Note(HeadersComplete)] + PayloadAtoms(b);
  }

  lemma SameFrame(p: Parser, q: Parser, answer: bool, b: Payload)
    requires SameBut(p, q) && ValidPayload(b) && Carries(Framed(q, answer), b)
    ensures Carries(Framed(p, answer), b)
    ensures SameBut(AfterPayload(Framed(p, answer), b), AfterPayload(Framed(q, answer), b))
  {
    hide ShouldKeepAlive, MessageNeedsEof, ValidChunk, LinesText, ValidLines;
    var x, y := Framed(p, answer), Framed(q, answer);
    SameRest(x, y);
    match b
    case Nothing =>
    case Plain(_) => SameRest(x.(contentLength := 0), y.(contentLength := 0));
    case Coded(_, t, end) =>
      var k := |LinesText(t)| + |EndText(end)|;
      SameRest(AfterLines(AtTrailer(x), t).(nread := k), AfterLines(AtTrailer(y), t).(nread := k));
    case Unbounded(_) =>
  }
}
