/** One pass through the switch of the parser's byte loop, case by case. */
module HttpSwitch {
  import opened CBytes
  import opened HttpTypes

  /** Where control goes after a pass. */
  datatype Next =
    | Continue      // break: on to the next byte
    | Again         // goto reexecute_byte
    | Fail          // goto error, errno set
    | Stop          // return p - data + 1: the connection is upgraded
    | AssertFailed  // an assert of the source does not hold, or a matcher is read out of bounds

  datatype Call =
    | NoCall
    | Flush(kind: DataKind)         // CALLBACK_DATA: the marked bytes before the current one
    | FlushThrough(kind: DataKind)  // the marked bytes up to and including the current one
    | Announce(notice: Notice)      // CALLBACK_NOTIFY

  /** The effect of a pass, in order: set `mark` at the current byte unless it is set,
      advance by `skip` bytes, run the callback, go to `next`. */
  datatype Pass = Pass(parser: Parser, mark: Option<DataKind>, skip: nat, call: Call, next: Next)

  function Go(p: Parser): Pass { Pass(p, None, 0, NoCall, Continue) }

  function Goto(p: Parser, s: State): Pass { Go(p.(state := s)) }

  function Reexecute(p: Parser, s: State): Pass { Pass(p.(state := s), None, 0, NoCall, Again) }

  function Error(p: Parser, e: Errno): Pass { Pass(p.(errno := e), None, 0, NoCall, Fail) }

  function Notifying(p: Parser, n: Notice): Pass { Pass(p, None, 0, Announce(n), Continue) }

  function Broken(p: Parser): Pass { Pass(p, None, 0, NoCall, AssertFailed) }

  /** STRICT_CHECK(ch != want) followed by a move to `s`. */
  function Expect(p: Parser, ch: byte, want: char, s: State): Pass {
    if ch != want then Error(p, STRICT) else Goto(p, s)
  }

  // ---- version and status numbers ----

  function AppendDigit(n: nat, ch: byte): nat
    requires IsNum(ch)
  {
    n * 10 + Digit(ch)
  }

  function MajorDigit(p: Parser, ch: byte, afterDot: State): Pass {
    if ch == '.' then Goto(p, afterDot)
    else if !IsNum(ch) then Error(p, INVALID_VERSION)
    else
      var q := p.(httpMajor := AppendDigit(p.httpMajor, ch));
      if q.httpMajor > 999 then Error(q, INVALID_VERSION) else Go(q)
  }

  function MinorDigit(p: Parser, ch: byte): Pass {
    if !IsNum(ch) then Error(p, INVALID_VERSION)
    else
      var q := p.(httpMinor := AppendDigit(p.httpMinor, ch));
      if q.httpMinor > 999 then Error(q, INVALID_VERSION) else Go(q)
  }

  function FirstMinorDigit(p: Parser, ch: byte, s: State): Pass {
    if !IsNum(ch) then Error(p, INVALID_VERSION)
    else Goto(p.(httpMinor := Digit(ch)), s)
  }

  // ---- start of a message ----

  function Fresh(p: Parser): Parser { p.(flags := NO_FLAGS, contentLength := ULLONG_MAX) }

  function AtStartReqOrRes(p: Parser, ch: byte): Pass {
    if ch == CR || ch == LF then Go(p)
    else if ch == 'H' then Notifying(Fresh(p).(state := RES_OR_RESP_H), MessageBegin)
    else Reexecute(Fresh(p).(ptype := Request), START_REQ)
  }

  function AtResOrRespH(p: Parser, ch: byte): Pass {
    if ch == 'T' then Goto(p.(ptype := Response), RES_HT)
    else if ch != 'E' then Error(p, INVALID_CONSTANT)
    else Goto(p.(ptype := Request, verb := HEAD, index := 2), REQ_METHOD)
  }

  /** A line break before the status line also announces a message. */
  function AtStartRes(p: Parser, ch: byte): Pass {
    if ch == 'H' then Notifying(Fresh(p).(state := RES_H), MessageBegin)
    else if ch == CR || ch == LF then Notifying(Fresh(p), MessageBegin)
    else Error(Fresh(p), INVALID_CONSTANT)
  }

  function FirstCandidate(ch: byte): Option<Method> {
    if ch == 'C' then Some(CONNECT)
    else if ch == 'D' then Some(DELETE)
    else if ch == 'G' then Some(GET)
    else if ch == 'H' then Some(HEAD)
    else if ch == 'L' then Some(LOCK)
    else if ch == 'M' then Some(MKCOL)
    else if ch == 'N' then Some(NOTIFY)
    else if ch == 'O' then Some(OPTIONS)
    else if ch == 'P' then Some(POST)
    else if ch == 'R' then Some(REPORT)
    else if ch == 'S' then Some(SUBSCRIBE)
    else if ch == 'T' then Some(TRACE)
    else if ch == 'U' then Some(UNLOCK)
    else None
  }

  function AtStartReq(p: Parser, ch: byte): Pass {
    if ch == CR || ch == LF then Go(p)
    else if !IsAlpha(ch) then Error(Fresh(p), INVALID_METHOD)
    else
      var q := Fresh(p).(verb := DELETE, index := 1);
      match FirstCandidate(ch)
      case None => Error(q, INVALID_METHOD)
      case Some(m) => Notifying(q.(verb := m, state := REQ_METHOD), MessageBegin)
  }

  /** The candidate to continue with when `ch` is not the character expected at `index`. */
  function NextCandidate(m: Method, index: nat, ch: byte): Option<Method> {
    if m == CONNECT then
      if index == 1 && ch == 'H' then Some(CHECKOUT)
      else if index == 2 && ch == 'P' then Some(COPY)
      else None
    else if m == MKCOL then
      if index == 1 && ch == 'O' then Some(MOVE)
      else if index == 1 && ch == 'E' then Some(MERGE)
      else if index == 1 && ch == '-' then Some(MSEARCH)
      else if index == 2 && ch == 'A' then Some(MKACTIVITY)
      else None
    else if m == SUBSCRIBE then
      if index == 1 && ch == 'E' then Some(SEARCH) else None
    else if index == 1 && m == POST then
      if ch == 'R' then Some(PROPFIND)
      else if ch == 'U' then Some(PUT)
      else if ch == 'A' then Some(PATCH)
      else None
    else if index == 2 then
      if m == PUT then (if ch == 'R' then Some(PURGE) else None)
      else if m == UNLOCK then (if ch == 'S' then Some(UNSUBSCRIBE) else None)
      else None
    else if index == 4 && m == PROPFIND && ch == 'P' then Some(PROPPATCH)
    else None
  }

  function AtReqMethod(p: Parser, ch: byte): Pass {
    var matcher := MethodString(p.verb);
    if ch == '\0' then Error(p, INVALID_METHOD)
    else if p.index > |matcher| then Broken(p)
    else if ch == ' ' && p.index == |matcher| then Goto(p.(index := p.index + 1), REQ_SPACES_BEFORE_URL)
    else if p.index < |matcher| && ch == matcher[p.index] then Go(p.(index := p.index + 1))
    else
      match NextCandidate(p.verb, p.index, ch)
      case None => Error(p, INVALID_METHOD)
      case Some(m) => Go(p.(verb := m, index := p.index + 1))
  }

  // ---- URL ----

  function UrlStep(p: Parser, ch: byte): Pass {
    var s := ParseUrlChar(p.state, ch);
    if s == DEAD then Error(p.(state := s), INVALID_URL) else Goto(p, s)
  }

  function AtSpacesBeforeUrl(p: Parser, ch: byte): Pass {
    if ch == ' ' then Go(p)
    else UrlStep(if p.verb == CONNECT then p.(state := REQ_SERVER_START) else p, ch).(mark := Some(Url))
  }

  function AtUrlPrefix(p: Parser, ch: byte): Pass {
    if ch == ' ' || ch == CR || ch == LF then Error(p, INVALID_URL) else UrlStep(p, ch)
  }

  function AtUrl(p: Parser, ch: byte): Pass {
    if ch == ' ' then Goto(p, REQ_HTTP_START).(call := Flush(Url))
    else if ch == CR || ch == LF then
      Goto(p.(httpMajor := 0, httpMinor := 9), if ch == CR then REQ_LINE_ALMOST_DONE else HEADER_FIELD_START)
      .(call := Flush(Url))
    else UrlStep(p, ch)
  }

  // ---- header names ----

  const CONNECTION := "connection"
  const PROXY_CONNECTION := "proxy-connection"
  const CONTENT_LENGTH := "content-length"
  const TRANSFER_ENCODING := "transfer-encoding"
  const UPGRADE := "upgrade"
  const CHUNKED := "chunked"
  const KEEP_ALIVE := "keep-alive"
  const CLOSE := "close"

  /** Advance the matcher of `word` by the character `c`; on its last character enter `found`. */
  function MatchWord(p: Parser, word: string, c: char, found: HeaderMatch): Parser {
    var i := p.index + 1;
    if i > |word| || c != (if i < |word| then word[i] else '\0') then
      p.(index := i, headerState := General)
    else if i == |word| - 1 then p.(index := i, headerState := found)
    else p.(index := i)
  }

  function FirstNameMatch(c: char): HeaderMatch {
    if c == 'c' then HeaderMatch.C
    else if c == 'p' then MatchingProxyConnection
    else if c == 't' then MatchingTransferEncoding
    else if c == 'u' then MatchingUpgrade
    else General
  }

  function AtHeaderFieldStart(p: Parser, ch: byte): Pass {
    if ch == CR then Goto(p, HEADERS_ALMOST_DONE)
    else if ch == LF then Reexecute(p, HEADERS_ALMOST_DONE)
    else
      var c := Token(ch);
      if c == '\0' then Error(p, INVALID_HEADER_TOKEN)
      else Goto(p.(index := 0, headerState := FirstNameMatch(c)), HEADER_FIELD).(mark := Some(Field))
  }

  /** The name matcher after one more token character; None where the source asserts false. */
  function NameStep(p: Parser, ch: byte, c: char): Option<Parser> {
    match p.headerState
    case General => Some(p)
    case C => Some(p.(index := p.index + 1, headerState := if c == 'o' then CO else General))
    case CO => Some(p.(index := p.index + 1, headerState := if c == 'n' then CON else General))
    case CON =>
      Some(p.(index := p.index + 1,
              headerState := if c == 'n' then MatchingConnection
                             else if c == 't' then MatchingContentLength
                             else General))
    case MatchingConnection => Some(MatchWord(p, CONNECTION, c, Connection))
    case MatchingProxyConnection => Some(MatchWord(p, PROXY_CONNECTION, c, Connection))
    case MatchingContentLength => Some(MatchWord(p, CONTENT_LENGTH, c, ContentLength))
    case MatchingTransferEncoding => Some(MatchWord(p, TRANSFER_ENCODING, c, TransferEncoding))
    case MatchingUpgrade => Some(MatchWord(p, UPGRADE, c, Upgrade))
    case Connection => Some(if ch != ' ' then p.(headerState := General) else p)
    case ContentLength => Some(if ch != ' ' then p.(headerState := General) else p)
    case TransferEncoding => Some(if ch != ' ' then p.(headerState := General) else p)
    case Upgrade => Some(if ch != ' ' then p.(headerState := General) else p)
    case _ => None
  }

  function AtHeaderField(p: Parser, ch: byte): Pass {
    var c := Token(ch);
    if c != '\0' then
      match NameStep(p, ch, c)
      case None => Broken(p)
      case Some(q) => Go(q)
    else if ch == ':' then Goto(p, HEADER_VALUE_START).(call := Flush(Field))
    else if ch == CR then Goto(p, HEADER_ALMOST_DONE).(call := Flush(Field))
    else if ch == LF then Goto(p, HEADER_FIELD_START).(call := Flush(Field))
    else Error(p, INVALID_HEADER_TOKEN)
  }

  /** Inside of one of the known names. */
  predicate InsideWord(h: HeaderMatch) {
    h in {MatchingConnection, MatchingProxyConnection, MatchingContentLength, MatchingTransferEncoding, MatchingUpgrade}
  }

  // ---- header values ----

  /** The first character of a value selects what is matched in the rest of it. */
  function ValueFirst(p: Parser, ch: byte): Pass {
    var c := Lower(ch);
    match p.headerState
    case Upgrade => Go(p.(flags := p.flags.(upgrade := true), headerState := General))
    case TransferEncoding => Go(p.(headerState := if c == 'c' then MatchingChunked else General))
    case ContentLength =>
      if !IsNum(ch) then Error(p, INVALID_CONTENT_LENGTH)
      else Go(p.(contentLength := Digit(ch)))
    case Connection =>
      Go(p.(headerState := if c == 'k' then MatchingKeepAlive
                           else if c == 'c' then MatchingClose
                           else General))
    case _ => Go(p.(headerState := General))
  }

  function AtHeaderValueStart(p: Parser, ch: byte): Pass {
    if ch == ' ' || ch == '\t' then Go(p)
    else
      var q := p.(state := HEADER_VALUE, index := 0);
      if ch == CR then
        Goto(q.(headerState := General), HEADER_ALMOST_DONE).(mark := Some(Value), call := Flush(Value))
      else if ch == LF then
        Goto(q, HEADER_FIELD_START).(mark := Some(Value), call := Flush(Value))
      else ValueFirst(q, ch).(mark := Some(Value))
  }

  /** `t = n * base + d` in 64 bits; None when the source's overflow test fires. */
  function Accumulate(n: uint64, base: nat, d: nat): Option<uint64> {
    var t := (n * base + d) % (ULLONG_MAX + 1);
    if t < n || t == ULLONG_MAX then None else Some(t)
  }

  function ValueStep(p: Parser, ch: byte): Pass {
    var c := Lower(ch);
    match p.headerState
    case General => Go(p)
    case Connection => Broken(p)
    case TransferEncoding => Broken(p)
    case ContentLength =>
      if ch == ' ' then Go(p)
      else if !IsNum(ch) then Error(p, INVALID_CONTENT_LENGTH)
      else (
        match Accumulate(p.contentLength, 10, Digit(ch))
        case None => Error(p, INVALID_CONTENT_LENGTH)
        case Some(t) => Go(p.(contentLength := t)))
    case MatchingChunked => Go(MatchWord(p, CHUNKED, c, Chunked))
    case MatchingKeepAlive => Go(MatchWord(p, KEEP_ALIVE, c, KeepAlive))
    case MatchingClose => Go(MatchWord(p, CLOSE, c, Close))
    case Chunked => Go(if ch != ' ' then p.(headerState := General) else p)
    case KeepAlive => Go(if ch != ' ' then p.(headerState := General) else p)
    case Close => Go(if ch != ' ' then p.(headerState := General) else p)
    case _ => Go(p.(headerState := General))
  }

  function AtHeaderValue(p: Parser, ch: byte): Pass {
    if ch == CR then Goto(p, HEADER_ALMOST_DONE).(call := Flush(Value))
    else if ch == LF then Reexecute(p, HEADER_ALMOST_DONE).(call := Flush(Value))
    else ValueStep(p, ch)
  }

  function AtHeaderAlmostDone(p: Parser, ch: byte): Pass {
    if ch != LF then Error(p, STRICT)
    else
      var f := match p.headerState
        case KeepAlive => p.flags.(keepAlive := true)
        case Close => p.flags.(close := true)
        case Chunked => p.flags.(chunked := true)
        case _ => p.flags;
      Goto(p.(flags := f), HEADER_VALUE_LWS)
  }

  function AtHeaderValueLws(p: Parser, ch: byte): Pass {
    if ch == ' ' || ch == '\t' then Goto(p, HEADER_VALUE_START)
    else Reexecute(p, HEADER_FIELD_START)
  }

  // ---- end of the headers ----

  function AtHeadersAlmostDone(p: Parser, ch: byte, hc: HeadersAnswer): Pass {
    if ch != LF then Error(p, STRICT)
    else if p.flags.trailing then Notifying(p.(state := NewMessage(p)), MessageComplete)
    else
      var q := p.(state := HEADERS_DONE, upgrade := p.flags.upgrade || p.verb == CONNECT);
      var r := if hc(q) then q.(flags := q.flags.(skipBody := true)) else q;
      Pass(r, None, 0, Announce(HeadersComplete), Again)
  }

  function Complete(p: Parser, next: Next): Pass {
    Pass(p.(state := NewMessage(p)), None, 0, Announce(MessageComplete), next)
  }

  function AtHeadersDone(p: Parser, ch: byte): Pass {
    if ch != LF then Error(p, STRICT)
    else
      var q := p.(nread := 0);
      if q.upgrade then Complete(q, Stop)
      else if q.flags.skipBody then Complete(q, Continue)
      else if q.flags.chunked then Goto(q, CHUNK_SIZE_START)
      else if q.contentLength == 0 then Complete(q, Continue)
      else if q.contentLength != ULLONG_MAX then Goto(q, BODY_IDENTITY)
      else if q.ptype.Request? || !MessageNeedsEof(q) then Complete(q, Continue)
      else Goto(q, BODY_IDENTITY_EOF)
  }

  // ---- bodies; `avail` is the number of bytes from the current one to the end ----

  function AtBodyIdentity(p: Parser, avail: nat): Pass
    requires avail > 0
  {
    if p.contentLength == 0 || p.contentLength == ULLONG_MAX then Broken(p)
    else
      var n := Min(p.contentLength, avail);
      var q := p.(contentLength := p.contentLength - n);
      if q.contentLength == 0 then
        Pass(q.(state := MESSAGE_DONE), Some(Body), n - 1, FlushThrough(Body), Again)
      else
        Pass(q, Some(Body), n - 1, NoCall, Continue)
  }

  function AtChunkData(p: Parser, avail: nat): Pass
    requires avail > 0
  {
    if !p.flags.chunked || p.contentLength == 0 || p.contentLength == ULLONG_MAX then Broken(p)
    else
      var n := Min(p.contentLength, avail);
      var q := p.(contentLength := p.contentLength - n);
      Pass(if q.contentLength == 0 then q.(state := CHUNK_DATA_ALMOST_DONE) else q,
           Some(Body), n - 1, NoCall, Continue)
  }

  function AtChunkSizeStart(p: Parser, ch: byte): Pass {
    if p.nread != 1 || !p.flags.chunked then Broken(p)
    else if Unhex(ch) == -1 then Error(p, INVALID_CHUNK_SIZE)
    else Goto(p.(contentLength := Unhex(ch)), CHUNK_SIZE)
  }

  function AtChunkSize(p: Parser, ch: byte): Pass {
    if !p.flags.chunked then Broken(p)
    else if ch == CR then Goto(p, CHUNK_SIZE_ALMOST_DONE)
    else if Unhex(ch) == -1 then
      if ch == ';' || ch == ' ' then Goto(p, CHUNK_PARAMETERS) else Error(p, INVALID_CHUNK_SIZE)
    else
      match Accumulate(p.contentLength, 16, Unhex(ch))
      case None => Error(p, INVALID_CONTENT_LENGTH)
      case Some(t) => Go(p.(contentLength := t))
  }

  function AtChunkSizeAlmostDone(p: Parser, ch: byte): Pass {
    if !p.flags.chunked then Broken(p)
    else if ch != LF then Error(p, STRICT)
    else
      var q := p.(nread := 0);
      if q.contentLength == 0 then Goto(q.(flags := q.flags.(trailing := true)), HEADER_FIELD_START)
      else Goto(q, CHUNK_DATA)
  }

  function AtChunkDataDone(p: Parser, ch: byte): Pass {
    if !p.flags.chunked then Broken(p)
    else if ch != LF then Error(p, STRICT)
    else Goto(p.(nread := 0), CHUNK_SIZE_START)
  }

  // ---- the switch ----

  /** Between messages, and the fixed start of a status line. */
  predicate InPreamble(s: State) { s <= RES_HTTP }

  function Preamble(p: Parser, ch: byte): Pass
    requires InPreamble(p.state)
  {
    match p.state
    case DEAD => if ch == CR || ch == LF then Go(p) else Error(p, CLOSED_CONNECTION)
    case START_REQ_OR_RES => AtStartReqOrRes(p, ch)
    case RES_OR_RESP_H => AtResOrRespH(p, ch)
    case START_RES => AtStartRes(p, ch)
    case RES_H => Expect(p, ch, 'T', RES_HT)
    case RES_HT => Expect(p, ch, 'T', RES_HTT)
    case RES_HTT => Expect(p, ch, 'P', RES_HTTP)
    case RES_HTTP => Expect(p, ch, '/', RES_FIRST_HTTP_MAJOR)
  }

  /** The version and status code of a response. */
  predicate InStatusLine(s: State) { RES_FIRST_HTTP_MAJOR <= s <= RES_LINE_ALMOST_DONE }

  function StatusLine(p: Parser, ch: byte): Pass
    requires InStatusLine(p.state)
  {
    match p.state
    case RES_FIRST_HTTP_MAJOR =>
      if !IsNum(ch) then Error(p, INVALID_VERSION) else Goto(p.(httpMajor := Digit(ch)), RES_HTTP_MAJOR)
    case RES_HTTP_MAJOR => MajorDigit(p, ch, RES_FIRST_HTTP_MINOR)
    case RES_FIRST_HTTP_MINOR => FirstMinorDigit(p, ch, RES_HTTP_MINOR)
    case RES_HTTP_MINOR => if ch == ' ' then Goto(p, RES_FIRST_STATUS_CODE) else MinorDigit(p, ch)
    case RES_FIRST_STATUS_CODE =>
      if IsNum(ch) then Goto(p.(statusCode := Digit(ch)), RES_STATUS_CODE)
      else if ch == ' ' then Go(p)
      else Error(p, INVALID_STATUS)
    case RES_STATUS_CODE =>
      if IsNum(ch) then
        var q := p.(statusCode := AppendDigit(p.statusCode, ch));
        if q.statusCode > 999 then Error(q, INVALID_STATUS) else Go(q)
      else if ch == ' ' then Goto(p, RES_STATUS)
      else if ch == CR then Goto(p, RES_LINE_ALMOST_DONE)
      else if ch == LF then Goto(p, HEADER_FIELD_START)
      else Error(p, INVALID_STATUS)
    case RES_STATUS =>
      if ch == CR then Goto(p, RES_LINE_ALMOST_DONE)
      else if ch == LF then Goto(p, HEADER_FIELD_START)
      else Go(p)
    case RES_LINE_ALMOST_DONE =>
      if ch != LF then Error(p, STRICT) else Notifying(p.(state := HEADER_FIELD_START), StatusComplete)
  }

  /** The request line but for its URL. */
  predicate InRequestLine(s: State) {
    START_REQ <= s <= REQ_SPACES_BEFORE_URL || REQ_HTTP_START <= s <= REQ_LINE_ALMOST_DONE
  }

  function RequestLine(p: Parser, ch: byte): Pass
    requires InRequestLine(p.state)
  {
    match p.state
    case START_REQ => AtStartReq(p, ch)
    case REQ_METHOD => AtReqMethod(p, ch)
    case REQ_SPACES_BEFORE_URL => AtSpacesBeforeUrl(p, ch)
    case REQ_HTTP_START =>
      if ch == 'H' then Goto(p, REQ_HTTP_H)
      else if ch == ' ' then Go(p)
      else Error(p, INVALID_CONSTANT)
    case REQ_HTTP_H => Expect(p, ch, 'T', REQ_HTTP_HT)
    case REQ_HTTP_HT => Expect(p, ch, 'T', REQ_HTTP_HTT)
    case REQ_HTTP_HTT => Expect(p, ch, 'P', REQ_HTTP_HTTP)
    case REQ_HTTP_HTTP => Expect(p, ch, '/', REQ_FIRST_HTTP_MAJOR)
    case REQ_FIRST_HTTP_MAJOR =>
      if ch < '1' || ch > '9' then Error(p, INVALID_VERSION)
      else Goto(p.(httpMajor := Digit(ch)), REQ_HTTP_MAJOR)
    case REQ_HTTP_MAJOR => MajorDigit(p, ch, REQ_FIRST_HTTP_MINOR)
    case REQ_FIRST_HTTP_MINOR => FirstMinorDigit(p, ch, REQ_HTTP_MINOR)
    case REQ_HTTP_MINOR =>
      if ch == CR then Goto(p, REQ_LINE_ALMOST_DONE)
      else if ch == LF then Goto(p, HEADER_FIELD_START)
      else MinorDigit(p, ch)
    case REQ_LINE_ALMOST_DONE => if ch != LF then Error(p, LF_EXPECTED) else Goto(p, HEADER_FIELD_START)
  }

  function UrlLine(p: Parser, ch: byte): Pass
    requires UrlState(p.state)
  {
    if p.state == REQ_SCHEMA || p.state == REQ_SCHEMA_SLASH || p.state == REQ_SCHEMA_SLASH_SLASH ||
       p.state == REQ_SERVER_START then AtUrlPrefix(p, ch)
    else AtUrl(p, ch)
  }

  predicate InHeaderLines(s: State) {
    HEADER_FIELD_START <= s <= HEADER_ALMOST_DONE || HEADERS_ALMOST_DONE <= s <= HEADERS_DONE
  }

  function HeaderLines(p: Parser, ch: byte, hc: HeadersAnswer): Pass
    requires InHeaderLines(p.state)
  {
    match p.state
    case HEADER_FIELD_START => AtHeaderFieldStart(p, ch)
    case HEADER_FIELD => AtHeaderField(p, ch)
    case HEADER_VALUE_START => AtHeaderValueStart(p, ch)
    case HEADER_VALUE => AtHeaderValue(p, ch)
    case HEADER_ALMOST_DONE => AtHeaderAlmostDone(p, ch)
    case HEADER_VALUE_LWS => AtHeaderValueLws(p, ch)
    case HEADERS_ALMOST_DONE => AtHeadersAlmostDone(p, ch, hc)
    case HEADERS_DONE => AtHeadersDone(p, ch)
  }

  /** The bodies and the framing of chunks. */
  predicate InBody(s: State) { CHUNK_SIZE_START <= s <= CHUNK_SIZE_ALMOST_DONE || s > HEADERS_DONE }

  function BodyLines(p: Parser, ch: byte, avail: nat): Pass
    requires InBody(p.state) && avail > 0
  {
    match p.state
    case BODY_IDENTITY => AtBodyIdentity(p, avail)
    case BODY_IDENTITY_EOF => Pass(p, Some(Body), avail - 1, NoCall, Continue)
    case MESSAGE_DONE => Complete(p, Continue)
    case CHUNK_SIZE_START => AtChunkSizeStart(p, ch)
    case CHUNK_SIZE => AtChunkSize(p, ch)
    case CHUNK_PARAMETERS =>
      if !p.flags.chunked then Broken(p)
      else if ch == CR then Goto(p, CHUNK_SIZE_ALMOST_DONE)
      else Go(p)
    case CHUNK_SIZE_ALMOST_DONE => AtChunkSizeAlmostDone(p, ch)
    case CHUNK_DATA => AtChunkData(p, avail)
    case CHUNK_DATA_ALMOST_DONE =>
      if !p.flags.chunked || p.contentLength != 0 then Broken(p)
      else if ch != CR then Error(p, STRICT)
      else Goto(p, CHUNK_DATA_DONE).(call := Flush(Body))
    case CHUNK_DATA_DONE => AtChunkDataDone(p, ch)
  }

  function Switch(p: Parser, ch: byte, avail: nat, hc: HeadersAnswer): Pass
    requires avail > 0
  {
    if InPreamble(p.state) then Preamble(p, ch)
    else if InStatusLine(p.state) then StatusLine(p, ch)
    else if InRequestLine(p.state) then RequestLine(p, ch)
    else if UrlState(p.state) then UrlLine(p, ch)
    else if InHeaderLines(p.state) then HeaderLines(p, ch, hc)
    else BodyLines(p, ch, avail)
  }

  /** How many more passes one byte can take from a state. */
  function Rank(s: State): nat {
    match s
    case HEADER_VALUE_LWS => 4
    case HEADER_FIELD_START => 3
    case HEADERS_ALMOST_DONE => 2
    case HEADERS_DONE => 1
    case START_REQ_OR_RES => 1
    case HEADER_VALUE => 1
    case BODY_IDENTITY => 1
    case _ => 0
  }

  // ---- marks ----

  /** The kind of data of which a piece may be pending in a state. */
  function KindOf(s: State): Option<DataKind> {
    if UrlState(s) then Some(Url)
    else if s == HEADER_FIELD then Some(Field)
    else if s == HEADER_VALUE then Some(Value)
    else if BodyState(s) || s == CHUNK_DATA_ALMOST_DONE then Some(Body)
    else None
  }

  function KindAfter(before: Option<DataKind>, r: Pass): Option<DataKind> {
    if r.call.Flush? || r.call.FlushThrough? then None
    else if r.mark.Some? then r.mark
    else before
  }

  /** What every pass keeps. A goto leads to a state of lower rank; what is pending after the
      pass is what the new state allows; no other kind is marked or flushed; nothing is pending
      when a notice is announced; only body states mark a body or advance by more than a byte;
      errno is set exactly when control goes to `error`. */
  predicate Tidy(p: Parser, r: Pass, avail: nat) {
    && (r.next == Again ==> Rank(r.parser.state) < Rank(p.state) && !BodyState(r.parser.state))
    && (r.next != Fail && r.next != AssertFailed ==>
          (|| KindOf(r.parser.state) == KindAfter(KindOf(p.state), r)
           || (KindAfter(KindOf(p.state), r).None? && KindOf(r.parser.state) == Some(Body))))
    && (r.mark.Some? ==> KindOf(p.state).None? || KindOf(p.state) == r.mark)
    && (r.call.Flush? || r.call.FlushThrough? ==>
          r.mark == Some(r.call.kind) || KindOf(p.state) == Some(r.call.kind))
    && (r.call.Announce? ==> KindOf(p.state).None? && r.mark.None?)
    && (r.mark == Some(Body) || r.skip > 0 || r.call.FlushThrough? ==> BodyState(p.state))
    && (p.state == CHUNK_DATA_ALMOST_DONE && r.next != Fail && r.next != AssertFailed ==>
          r.call == Flush(Body))
    && r.skip < avail
    && (r.next == Fail ==> r.call == NoCall && r.parser.errno != OK)
    && (r.next != Fail ==> r.parser.errno == p.errno)
    && (r.next == Stop ==> p.state == HEADERS_DONE && KindOf(r.parser.state).None?)
    && (r.parser.nread == p.nread || r.parser.nread == 0)
    && (p.state != HEADERS_ALMOST_DONE ==> r.parser.upgrade == p.upgrade)
  }

  lemma TidyPreamble(p: Parser, ch: byte, avail: nat)
    requires InPreamble(p.state) && avail > 0
    ensures Tidy(p, Preamble(p, ch), avail)
  {
    hide Preamble, Tidy;
    if p.state <= START_RES {
      TidyStarts(p, ch, avail);
    } else {
      TidyFixed(p, ch, avail);
    }
  }

  lemma TidyStarts(p: Parser, ch: byte, avail: nat)
    requires p.state <= START_RES && avail > 0
    ensures Tidy(p, Preamble(p, ch), avail)
  {
  }

  lemma TidyFixed(p: Parser, ch: byte, avail: nat)
    requires RES_H <= p.state <= RES_HTTP && avail > 0
    ensures Tidy(p, Preamble(p, ch), avail)
  {
    hide AtStartReqOrRes, AtResOrRespH, AtStartRes;
  }

  lemma TidyVersion(p: Parser, ch: byte, avail: nat)
    requires RES_FIRST_HTTP_MAJOR <= p.state <= RES_HTTP_MINOR && avail > 0
    ensures Tidy(p, StatusLine(p, ch), avail)
  {
  }

  lemma TidyStatus(p: Parser, ch: byte, avail: nat)
    requires RES_FIRST_STATUS_CODE <= p.state <= RES_LINE_ALMOST_DONE && avail > 0
    ensures Tidy(p, StatusLine(p, ch), avail)
  {
  }

  lemma TidyStatusLine(p: Parser, ch: byte, avail: nat)
    requires InStatusLine(p.state) && avail > 0
    ensures Tidy(p, StatusLine(p, ch), avail)
  {
    hide StatusLine, Tidy;
    if p.state <= RES_HTTP_MINOR {
      TidyVersion(p, ch, avail);
    } else {
      TidyStatus(p, ch, avail);
    }
  }

  lemma TidyReqMethod(p: Parser, ch: byte, avail: nat)
    requires p.state == REQ_METHOD && avail > 0
    ensures Tidy(p, AtReqMethod(p, ch), avail)
  {
    hide NextCandidate, MethodString;
  }

  lemma TidyRequestLine(p: Parser, ch: byte, avail: nat)
    requires InRequestLine(p.state) && avail > 0
    ensures Tidy(p, RequestLine(p, ch), avail)
  {
    hide RequestLine, Tidy;
    if p.state == REQ_METHOD {
      MethodLine(p, ch);
      TidyReqMethod(p, ch, avail);
    } else if p.state <= REQ_HTTP_HTTP {
      TidyRequestStart(p, ch, avail);
    } else {
      TidyRequestVersion(p, ch, avail);
    }
  }

  lemma MethodLine(p: Parser, ch: byte)
    requires p.state == REQ_METHOD
    ensures RequestLine(p, ch) == AtReqMethod(p, ch)
  {
    hide AtReqMethod;
  }

  lemma TidyRequestStart(p: Parser, ch: byte, avail: nat)
    requires InRequestLine(p.state) && p.state != REQ_METHOD && p.state <= REQ_HTTP_HTTP && avail > 0
    ensures Tidy(p, RequestLine(p, ch), avail)
  {
    hide AtReqMethod;
  }

  lemma TidyRequestVersion(p: Parser, ch: byte, avail: nat)
    requires REQ_FIRST_HTTP_MAJOR <= p.state <= REQ_LINE_ALMOST_DONE && avail > 0
    ensures Tidy(p, RequestLine(p, ch), avail)
  {
    hide AtReqMethod, AtStartReq, AtSpacesBeforeUrl;
  }

  lemma TidyUrlLine(p: Parser, ch: byte, avail: nat)
    requires UrlState(p.state) && avail > 0
    ensures Tidy(p, UrlLine(p, ch), avail)
  {
  }

  lemma TidyHeaderField(p: Parser, ch: byte, avail: nat)
    requires p.state == HEADER_FIELD && avail > 0
    ensures Tidy(p, AtHeaderField(p, ch), avail)
  {
    hide NameStep, Token;
    OnlyMatcher(p, ch, Token(ch));
  }

  /** The name matcher changes nothing else. */
  lemma OnlyMatcher(p: Parser, ch: byte, c: char)
    ensures var q := NameStep(p, ch, c);
      q.Some? ==> q.value == p.(headerState := q.value.headerState, index := q.value.index)
  {
  }

  lemma TidyHeaderValueStart(p: Parser, ch: byte, avail: nat)
    requires p.state == HEADER_VALUE_START && avail > 0
    ensures Tidy(p, AtHeaderValueStart(p, ch), avail)
  {
  }

  lemma TidyHeaderValue(p: Parser, ch: byte, avail: nat)
    requires p.state == HEADER_VALUE && avail > 0
    ensures Tidy(p, AtHeaderValue(p, ch), avail)
  {
  }

  lemma TidyHeaderLines(p: Parser, ch: byte, avail: nat, hc: HeadersAnswer)
    requires InHeaderLines(p.state) && avail > 0
    ensures Tidy(p, HeaderLines(p, ch, hc), avail)
  {
    hide AtHeaderField, AtHeaderValueStart, AtHeaderValue;
    if p.state == HEADER_FIELD {
      TidyHeaderField(p, ch, avail);
    } else if p.state == HEADER_VALUE_START {
      TidyHeaderValueStart(p, ch, avail);
    } else if p.state == HEADER_VALUE {
      TidyHeaderValue(p, ch, avail);
    }
  }

  lemma TidyChunkLines(p: Parser, ch: byte, avail: nat)
    requires CHUNK_SIZE_START <= p.state <= CHUNK_SIZE_ALMOST_DONE && avail > 0
    ensures Tidy(p, BodyLines(p, ch, avail), avail)
  {
    hide Unhex, Accumulate, AtBodyIdentity, AtChunkData;
  }

  lemma TidyBodies(p: Parser, ch: byte, avail: nat)
    requires p.state > HEADERS_DONE && avail > 0
    ensures Tidy(p, BodyLines(p, ch, avail), avail)
  {
    hide AtChunkSizeStart, AtChunkSize, AtChunkSizeAlmostDone;
  }

  lemma TidyBodyLines(p: Parser, ch: byte, avail: nat)
    requires InBody(p.state) && avail > 0
    ensures Tidy(p, BodyLines(p, ch, avail), avail)
  {
    hide BodyLines, Tidy;
    if p.state > HEADERS_DONE {
      TidyBodies(p, ch, avail);
    } else {
      TidyChunkLines(p, ch, avail);
    }
  }

  lemma TidySwitch(p: Parser, ch: byte, avail: nat, hc: HeadersAnswer)
    requires avail > 0
    ensures Tidy(p, Switch(p, ch, avail, hc), avail)
  {
    hide Tidy, Preamble, StatusLine, RequestLine, UrlLine, HeaderLines, BodyLines;
    if InPreamble(p.state) {
      TidyPreamble(p, ch, avail);
    } else if InStatusLine(p.state) {
      TidyStatusLine(p, ch, avail);
    } else if InRequestLine(p.state) {
      TidyRequestLine(p, ch, avail);
    } else if UrlState(p.state) {
      TidyUrlLine(p, ch, avail);
    } else if InHeaderLines(p.state) {
      TidyHeaderLines(p, ch, avail, hc);
    } else {
      TidyBodyLines(p, ch, avail);
    }
  }
}
