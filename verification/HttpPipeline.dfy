/** Streams of whole messages, requests or responses: parsing undoes printing, however the
    stream is cut into calls. */
module HttpPipeline {
  import opened CBytes
  import opened HttpTypes
  import opened HttpSwitch
  import opened HttpRun
  import opened HttpLog
  import opened HttpInvariant
  import opened HttpSplit
  import opened HttpBodies
  import opened HttpStartLine
  import opened HttpHeaderNames
  import opened HttpHeaderValues
  import opened HttpHeaderLines
  import opened HttpMessages

  /** The first line, of a request or of a response, with the line breaks before it. */
  datatype Start =
    | Asking(breaks: seq<byte>, verb: Method, spaces: seq<byte>, url: seq<byte>, protocol: Protocol, end: End)
    | Answering(breaks: seq<byte>, version: Version, spaces: seq<byte>, code: seq<byte>, tail: seq<byte>, end: End)

  /** A message: its first line, its header lines, the empty line and what it carries. */
  datatype Message = Message(start: Start, lines: seq<Line>, blank: End, payload: Payload)

  predicate ValidStart(s: Start) {
    Breaks(s.breaks) && Spaces(s.spaces) &&
    match s
    case Asking(_, m, _, url, t, _) => UrlAccepted(m, url) && ValidProtocol(t)
    case Answering(_, v, _, code, tail, _) => ValidVersion(v, false) && SmallNumber(code) && ValidTail(tail)
  }

  function StartLine(s: Start): seq<byte> {
    match s
    case Asking(_, m, spaces, url, t, end) => RequestText(m, spaces, url, t, end)
    case Answering(_, v, spaces, code, tail, end) => StatusText(v, spaces, code, tail, end)
  }

  function StartText(s: Start): seq<byte> { s.breaks + StartLine(s) }

  function StartAtoms(s: Start): seq<Atom> {
    match s
    case Asking(_, _, _, url, _, _) => [Note(MessageBegin)] + Bytes(Url, url)
    case Answering(breaks, _, _, _, _, end) => Begins(|breaks|) + ([Note(MessageBegin)] + StatusNote(end))
  }

  function AfterBreaks(p: Parser, s: Start): Parser {
    if s.Asking? then p.(nread := p.nread + |s.breaks|) else AfterStatusBreaks(p, |s.breaks|)
  }

  function AfterStart(p: Parser, s: Start): Parser
    requires ValidStart(s)
  {
    match s
    case Asking(_, m, spaces, url, t, end) => AfterRequestLine(AfterBreaks(p, s), m, spaces, url, t, end)
    case Answering(_, v, spaces, code, tail, end) => AfterStatusLine(AfterBreaks(p, s), v, spaces, code, tail, end)
  }

  /** The numbers of its version. */
  function StartMajor(s: Start): nat
    requires ValidStart(s)
  {
    if s.Asking? then MajorOf(s.protocol) else DecValue(s.version.major)
  }

  function StartMinor(s: Start): nat
    requires ValidStart(s)
  {
    if s.Asking? then MinorOf(s.protocol) else DecValue(s.version.minor)
  }

  function HeadText(m: Message): seq<byte> { StartText(m.start) + LinesText(m.lines) }

  function HeadAtoms(m: Message): seq<Atom> { StartAtoms(m.start) + LinesAtoms(m.lines) }

  function MessageText(m: Message): seq<byte> { HeadText(m) + EndText(m.blank) + PayloadText(m.payload) }

  /** What a message delivers. */
  function MessageAtoms(m: Message): seq<Atom> { HeadAtoms(m) + [Note(HeadersComplete)] + PayloadAtoms(m.payload) }

  /** A parser waiting for a message of the kind of `s`. */
  predicate Ready(p: Parser, s: Start) {
    if s.Asking? then p.ptype == Request && p.state == START_REQ
    else p.ptype == Response && p.state == START_RES && p.verb != CONNECT
  }

  lemma StartRun(p: Parser, s: Start, hc: HeadersAnswer)
    requires Ready(p, s) && ValidStart(s) && p.nread + |StartText(s)| <= MAX_HEADER_SIZE
    ensures Reaches(p, StartText(s), AfterStart(p, s), StartAtoms(s), hc)
  {
    hide Reaches, AfterRequestLine, AfterStatusLine, RequestText, StatusText, Bytes, StatusNote, Begins,
      UrlAccepted, ValidProtocol, ValidVersion, SmallNumber, ValidTail;
    NothingJoined();
    var q := AfterBreaks(p, s);
    match s
    case Asking(breaks, m, spaces, url, t, end) =>
      BreaksRun(p, breaks, hc);
      RequestLineRun(q, m, spaces, url, t, end, hc);
      ReachesThen(p, breaks, q, [], StartLine(s), AfterStart(p, s), StartAtoms(s), hc);
    case Answering(breaks, v, spaces, code, tail, end) =>
      StatusBreaksRun(p, breaks, hc);
      StatusLineRun(q, v, spaces, code, tail, end, hc);
      ReachesThen(p, breaks, q, Begins(|breaks|), StartLine(s), AfterStart(p, s),
        [Note(MessageBegin)] + StatusNote(end), hc);
  }

  // ---- the framing of a message ----

  /** The connection is handed over behind the headers. */
  predicate HandsOver(m: Message) {
    AnyAsks(m.lines, WantsUpgrade) || (m.start.Asking? && m.start.verb == CONNECT)
  }

  /** Without a length or chunks this message ends with its headers: every request, and the
      responses whose status rules a body out. */
  predicate EndsWithHeaders(s: Start)
    requires ValidStart(s)
  {
    s.Asking? || (var n := DecValue(s.code); n / 100 == 1 || n == 204 || n == 304)
  }

  /** The payload is framed as the header lines say; `answer` is the application's word that
      there is none. */
  ghost predicate WellFramed(m: Message, answer: bool)
    requires ValidStart(m.start) && ValidLines(m.lines)
  {
    var chunked, said := AnyAsks(m.lines, WantsChunked), LengthSaid(m.lines);
    match m.payload
    case Nothing => answer || (!chunked && (said == Some(0) || (said == None && EndsWithHeaders(m.start))))
    case Plain(bs) => !answer && !chunked && bs != [] && said == Some(|bs|)
    case Coded(cs, _, _) => !answer && chunked && forall i :: 0 <= i < |cs| ==> ValidChunk(cs[i])
    case Unbounded(_) => !answer && !chunked && said == None && !EndsWithHeaders(m.start)
  }

  ghost predicate ValidMessage(m: Message, answer: bool) {
    && ValidStart(m.start) && ValidLines(m.lines) && ValidPayload(m.payload)
    && !HandsOver(m) && WellFramed(m, answer)
  }

  /** Some line of the headers or of the trailer asks for it. */
  predicate Says(m: Message, w: Wish) {
    AnyAsks(m.lines, w) || (m.payload.Coded? && AnyAsks(m.payload.trailer, w))
  }

  /** The connection is kept alive: by default from version 1.1 on, unless a line says close;
      before it only if a line asks for it. */
  predicate Persists(m: Message)
    requires ValidStart(m.start)
  {
    !m.payload.Unbounded? &&
    if StartMajor(m.start) > 0 && StartMinor(m.start) > 0 then !Says(m, WantsClose) else Says(m, WantsKeepAlive)
  }

  /** The state behind a message. */
  function StateAfter(m: Message): State
    requires ValidStart(m.start)
  {
    if m.payload.Unbounded? then BODY_IDENTITY_EOF
    else if !Persists(m) then DEAD
    else if m.start.Asking? then START_REQ
    else START_RES
  }

  /** Header bytes still counted behind a message: those of the trailer. */
  function Left(b: Payload): nat { if b.Coded? then |LinesText(b.trailer)| + |EndText(b.end)| else 0 }

  /** The parser when the headers of a message are complete, but for its matcher. */
  function AtBody(p: Parser, m: Message, answer: bool): Parser
    requires ValidStart(m.start) && ValidLines(m.lines)
  {
    Framed(AfterLines(AfterStart(p, m.start), m.lines), answer)
  }

  lemma StartFacts(p: Parser, s: Start)
    requires Ready(p, s) && ValidStart(s)
    ensures var q := AfterStart(p, s);
      && q == p.(state := HEADER_FIELD_START, flags := NO_FLAGS, contentLength := ULLONG_MAX,
                 verb := q.verb, index := q.index, httpMajor := StartMajor(s), httpMinor := StartMinor(s),
                 statusCode := q.statusCode, nread := p.nread + |StartText(s)|)
      && (s.Asking? ==> q.verb == s.verb)
      && (s.Answering? ==> q.statusCode == DecValue(s.code) && q.verb == p.verb)
  {
    hide DecValue, RequestText, StatusText, MethodString, UrlAccepted, Breaks, Spaces;
  }

  /** The struct says of the body what the header lines say. */
  lemma BodyFacts(p: Parser, m: Message, answer: bool)
    requires Ready(p, m.start) && ValidStart(m.start) && ValidLines(m.lines)
    ensures var q := AtBody(p, m, answer);
      && q.upgrade == HandsOver(m)
      && q.flags == Flags(AnyAsks(m.lines, WantsChunked), AnyAsks(m.lines, WantsKeepAlive),
                          AnyAsks(m.lines, WantsClose),
                          false, AnyAsks(m.lines, WantsUpgrade), answer)
      && (LengthSaid(m.lines).Some? ==> q.contentLength == LengthSaid(m.lines).value)
      && (LengthSaid(m.lines).None? ==> q.contentLength == ULLONG_MAX)
      && (MessageNeedsEof(q) <==>
            !answer && !q.flags.chunked && q.contentLength == ULLONG_MAX && !EndsWithHeaders(m.start))
      && q.ptype == p.ptype && q.nread == 0 && q.verb == AfterStart(p, m.start).verb
      && q.httpMajor == StartMajor(m.start) && q.httpMinor == StartMinor(m.start)
  {
    hide DecValue, AfterStart, AnyAsks, LengthSaid, LinesText, ValidLines, UrlAccepted, SmallNumber, StartMajor,
      StartMinor,
      Breaks, Spaces, ContextOf;
    StartFacts(p, m.start);
  }

  lemma FramedCarries(p: Parser, m: Message, answer: bool)
    requires Ready(p, m.start) && ValidMessage(m, answer)
    ensures Carries(AtBody(p, m, answer), m.payload)
  {
    hide AtBody, AnyAsks, LengthSaid, ValidChunk, EndsWithHeaders, HandsOver, MessageNeedsEof;
    BodyFacts(p, m, answer);
  }

  /** Behind a message the parser waits for the next one exactly when the connection persists. */
  lemma StateBehind(p: Parser, m: Message, answer: bool)
    requires Ready(p, m.start) && ValidMessage(m, answer)
    ensures var r := AfterPayload(AtBody(p, m, answer), m.payload);
      && r.state == StateAfter(m)
      && r.ptype == p.ptype && r.nread == Left(m.payload) && r.verb == AtBody(p, m, answer).verb
  {
    hide AtBody, AnyAsks, LengthSaid, ValidChunk, EndsWithHeaders, HandsOver, StartMajor, StartMinor, LinesText,
      ValidLines, ContextOf;
    BodyFacts(p, m, answer);
  }

  // ---- one message ----

  predicate Fits(n: nat, m: Message) { n + |HeadText(m)| + 2 <= MAX_HEADER_SIZE }

  /** A message of any form that its headers describe is delivered piece for piece: the URL, the
      names and values, the data, the trailing headers, and each notice in its place. */
  lemma MessageDelivered(p: Parser, m: Message, answer: bool, hc: HeadersAnswer) returns (q: Parser)
    requires Ready(p, m.start) && ValidMessage(m, answer) && Fits(p.nread, m) && Always(hc, answer)
    ensures Reaches(p, MessageText(m), q, MessageAtoms(m), hc)
    ensures q.state == StateAfter(m) && q.nread == Left(m.payload)
    ensures Persists(m) ==> Ready(q, m.start)
  {
    hide Reaches, LinesText, LinesAtoms, StartText, StartAtoms, AfterStart, PayloadText, PayloadAtoms, AtBody,
      AfterPayload,
      WellFramed, ValidStart, ValidLines, ValidPayload, HandsOver, AfterLines, Framed, Persists, Always, Carries, Left;
    var s := m.start;
    var a := AfterStart(p, s);
    StartRun(p, s, hc);
    StartLeaves(p, s);
    FramedCarries(p, m, answer);
    UnfoldAtBody(p, m, answer);
    q := MessageRun(a, m.lines, m.blank, m.payload, answer, hc);
    StateBehind(p, m, answer);
    VerbBehind(p, m, answer);
    var x, y := LinesText(m.lines), PayloadText(m.payload);
    ReachesThen(p, StartText(s), a, StartAtoms(s), x + EndText(m.blank) + y, q,
                LinesAtoms(m.lines) + [Note(HeadersComplete)] + PayloadAtoms(m.payload), hc);
    assert StartText(s) + (x + EndText(m.blank) + y) == MessageText(m);
    assert StartAtoms(s) + (LinesAtoms(m.lines) + [Note(HeadersComplete)] + PayloadAtoms(m.payload)) == MessageAtoms(m);
    ReadyAgain(q, m);
  }

  lemma StartLeaves(p: Parser, s: Start)
    requires Ready(p, s) && ValidStart(s)
    ensures var a := AfterStart(p, s);
      a.state == HEADER_FIELD_START && !a.flags.trailing && a.nread == p.nread + |StartText(s)|
  {
    hide AfterStart, StartText;
    StartFacts(p, s);
  }

  lemma UnfoldAtBody(p: Parser, m: Message, answer: bool)
    requires ValidStart(m.start) && ValidLines(m.lines)
    ensures AtBody(p, m, answer) == Framed(AfterLines(AfterStart(p, m.start), m.lines), answer)
  {
  }

  lemma VerbBehind(p: Parser, m: Message, answer: bool)
    requires Ready(p, m.start) && ValidStart(m.start) && ValidLines(m.lines)
    ensures m.start.Answering? ==> AtBody(p, m, answer).verb == p.verb
  {
    hide AtBody, AfterStart;
    BodyFacts(p, m, answer);
    StartFacts(p, m.start);
  }

  lemma ReadyAgain(q: Parser, m: Message)
    requires ValidStart(m.start) && q.state == StateAfter(m)
    requires q.ptype == (if m.start.Asking? then Request else Response) && (m.start.Answering? ==> q.verb != CONNECT)
    ensures Persists(m) ==> Ready(q, m.start)
  {
    hide Says, StartMajor, StartMinor;
  }

  // ---- streams ----

  function StreamText(ms: seq<Message>): seq<byte> {
    if ms == [] then [] else MessageText(ms[0]) + StreamText(ms[1..])
  }

  function StreamAtoms(ms: seq<Message>): seq<Atom> {
    if ms == [] then [] else MessageAtoms(ms[0]) + StreamAtoms(ms[1..])
  }

  /** Messages of one kind on one connection, which lasts until the last of them; `n` header
      bytes were counted before. */
  ghost predicate ValidStream(ms: seq<Message>, requests: bool, n: nat, answer: bool)
    decreases |ms|
  {
    ms != [] ==>
      && ms[0].start.Asking? == requests
      && ValidMessage(ms[0], answer) && Fits(n, ms[0])
      && (|ms| > 1 ==> Persists(ms[0]))
      && ValidStream(ms[1..], requests, Left(ms[0].payload), answer)
  }

  /** A stream of messages on one connection delivers the deliveries of its messages, one after
      the other. */
  lemma {:induction false} StreamRun(p: Parser, ms: seq<Message>, requests: bool, answer: bool,
                                     hc: HeadersAnswer) returns (q: Parser)
    requires ms != [] && ValidStream(ms, requests, p.nread, answer) && Ready(p, ms[0].start) && Always(hc, answer)
    ensures Reaches(p, StreamText(ms), q, StreamAtoms(ms), hc)
    ensures ValidStart(ms[|ms| - 1].start) && q.state == StateAfter(ms[|ms| - 1])
    decreases |ms|
  {
    hide Reaches, MessageText, MessageAtoms, StateAfter, Persists, WellFramed, ValidStart, ValidLines, ValidPayload,
      HandsOver, Fits, Always, Left;
    var m, rest := ms[0], ms[1..];
    q := MessageDelivered(p, m, answer, hc);
    if rest == [] {
      assert MessageText(m) + [] == MessageText(m);
      assert MessageAtoms(m) + [] == MessageAtoms(m);
    } else {
      var r := StreamRun(q, rest, requests, answer, hc);
      ReachesThen(p, MessageText(m), q, MessageAtoms(m), StreamText(rest), r, StreamAtoms(rest), hc);
      q := r;
    }
  }

  /** A new parser, called on a stream of messages in any non-empty pieces: every call uses all
      of its piece, there is no error, and the callbacks are, but for where data is cut, those
      of the messages in order. */
  lemma StreamDelivered(ms: seq<Message>, requests: bool, answer: bool, hc: HeadersAnswer,
                        pieces: seq<seq<byte>>, after: Parser, consumed: nat, log: seq<Event>)
    requires ms != [] && ValidStream(ms, requests, 0, answer) && Always(hc, answer)
    requires Joined(pieces) == StreamText(ms) && forall i :: 0 <= i < |pieces| ==> pieces[i] != []
    requires CalledOn(InitialParser(if requests then Request else Response), pieces, hc, after, consumed, log)
    ensures after.errno == OK && consumed == |StreamText(ms)| && Flatten(log) == StreamAtoms(ms)
    ensures ValidStart(ms[|ms| - 1].start) && after.state == StateAfter(ms[|ms| - 1])
  {
    hide Run, MessageText, MessageAtoms, StateAfter, Persists, ValidMessage, ValidStart, Fits, Always, Left, CalledOn,
      Flatten, WellFormed;
    var t := if requests then Request else Response;
    var p := InitialParser(t);
    InitiallyWellFormed(t);
    var q := StreamRun(p, ms, requests, answer, hc);
    PiecesRun(p, pieces, hc, after, consumed, log);
    AnySplit(p, pieces, hc);
    ErrnoOfRun(p, StreamText(ms), hc);
  }

  /** A request that asks for an upgrade, or CONNECT, ends the call exactly behind its empty
      line: the bytes from there on are left to the caller. */
  lemma HandedOver(p: Parser, m: Message, answer: bool, hc: HeadersAnswer, more: seq<byte>)
    requires Ready(p, m.start) && ValidStart(m.start) && ValidLines(m.lines) && HandsOver(m)
    requires Fits(p.nread, m) && Always(hc, answer)
    ensures var r := Run(p, HeadText(m) + EndText(m.blank) + more, hc);
      && r.status == Stopped && r.consumed == |HeadText(m)| + |EndText(m.blank)|
      && r.atoms == HeadAtoms(m) + [Note(HeadersComplete), Note(MessageComplete)]
      && r.parser.upgrade
  {
    hide Run, LinesText, LinesAtoms, StartText, StartAtoms, AfterStart, AtBody, ValidStart, ValidLines, HandsOver,
      AfterLines,
      Framed, Always, Done;
    var s := m.start;
    var a := AfterStart(p, s);
    StartRun(p, s, hc);
    StartLeaves(p, s);
    UnfoldAtBody(p, m, answer);
    BodyFacts(p, m, answer);
    var q := LinesRun(a, m.lines, hc);
    CountedLines(a, q, m.lines);
    SameUpgrade(q, AfterLines(a, m.lines), answer);
    EmptyLineRun(q, ContextOf(m.lines), m.blank, answer, hc);
    ReachesThen(p, StartText(s), a, StartAtoms(s), LinesText(m.lines), q, LinesAtoms(m.lines), hc);
    RunSplit(p, HeadText(m), EndText(m.blank), hc);
    RunSplit(p, HeadText(m) + EndText(m.blank), more, hc);
    assert [Note(HeadersComplete)] + [Note(MessageComplete)] == [Note(HeadersComplete), Note(MessageComplete)];
  }

  lemma SameUpgrade(p: Parser, q: Parser, answer: bool)
    requires SameBut(p, q)
    ensures Framed(p, answer).upgrade == Framed(q, answer).upgrade
    ensures Entered(Framed(p, answer)).upgrade == Framed(p, answer).upgrade
  {
    hide NewMessage, RestOf;
  }
}
