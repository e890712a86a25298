/** Which byte is an error in which state, and which error: a table of what may come next, apart
    from the switch; the method and the URL have their own grammars. */
module HttpErrors {
  import opened CBytes
  import opened HttpTypes
  import opened HttpTables
  import opened HttpSwitch
  import opened HttpRun
  import opened HttpInvariant

  predicate Break(c: byte) { c == '\r' || c == '\n' }

  predicate DecimalDigit(c: byte) { '0' <= c <= '9' }

  /** The first letters of the names of methods. */
  predicate MethodLetter(c: byte) {
    || c == 'C' || c == 'D' || c == 'G' || c == 'H' || c == 'L' || c == 'M' || c == 'N' || c == 'O' || c == 'P'
    || c == 'R' || c == 'S' || c == 'T' || c == 'U'
  }

  predicate TokenByte(c: byte) { LetterOrDigit(c) || c in TOKEN_SIGNS }

  /** A digit of a chunk size: hexadecimal, or a byte behind the end of the short table. */
  predicate ChunkDigit(c: byte) {
    DecimalDigit(c) || 'a' <= c <= 'f' || 'A' <= c <= 'F' || c as int >= 128
  }

  /** The number goes on with the digit and stays below 1000. */
  predicate Below1000(n: nat, c: byte) { DecimalDigit(c) && n * 10 + (c as int - '0' as int) < 1000 }

  /** The 64-bit number goes on with the digit, as far as the test of the code can tell. */
  predicate FitsLength(n: nat, base: nat, d: nat) {
    var t := (n * base + d) % 0x1_0000_0000_0000_0000;
    n <= t && t != 0xFFFF_FFFF_FFFF_FFFF
  }

  predicate Tabled(s: State) { s != REQ_METHOD && s != REQ_SPACES_BEFORE_URL && !UrlState(s) }

  function Unless(ok: bool, e: Errno): Option<Errno> { if ok then None else Some(e) }

  /** Before a message, and in a status line. */
  function FirstLineError(p: Parser, c: byte): Option<Errno> {
    match p.state
    case DEAD => Unless(Break(c), CLOSED_CONNECTION)
    case START_REQ_OR_RES => Unless(Break(c) || MethodLetter(c), INVALID_METHOD)
    case RES_OR_RESP_H => Unless(c == 'T' || c == 'E', INVALID_CONSTANT)
    case START_RES => Unless(c == 'H' || Break(c), INVALID_CONSTANT)
    case RES_H => Unless(c == 'T', STRICT)
    case RES_HT => Unless(c == 'T', STRICT)
    case RES_HTT => Unless(c == 'P', STRICT)
    case RES_HTTP => Unless(c == '/', STRICT)
    case RES_FIRST_HTTP_MAJOR => Unless(DecimalDigit(c), INVALID_VERSION)
    case RES_HTTP_MAJOR => Unless(c == '.' || Below1000(p.httpMajor, c), INVALID_VERSION)
    case RES_FIRST_HTTP_MINOR => Unless(DecimalDigit(c), INVALID_VERSION)
    case RES_HTTP_MINOR => Unless(c == ' ' || Below1000(p.httpMinor, c), INVALID_VERSION)
    case RES_FIRST_STATUS_CODE => Unless(c == ' ' || DecimalDigit(c), INVALID_STATUS)
    case RES_STATUS_CODE => Unless(c == ' ' || Break(c) || Below1000(p.statusCode, c), INVALID_STATUS)
    case RES_LINE_ALMOST_DONE => Unless(c == '\n', STRICT)
    case START_REQ => Unless(Break(c) || MethodLetter(c), INVALID_METHOD)
    case REQ_HTTP_START => Unless(c == 'H' || c == ' ', INVALID_CONSTANT)
    case REQ_HTTP_H => Unless(c == 'T', STRICT)
    case REQ_HTTP_HT => Unless(c == 'T', STRICT)
    case REQ_HTTP_HTT => Unless(c == 'P', STRICT)
    case REQ_HTTP_HTTP => Unless(c == '/', STRICT)
    case REQ_FIRST_HTTP_MAJOR => Unless('1' <= c <= '9', INVALID_VERSION)
    case REQ_HTTP_MAJOR => Unless(c == '.' || Below1000(p.httpMajor, c), INVALID_VERSION)
    case REQ_FIRST_HTTP_MINOR => Unless(DecimalDigit(c), INVALID_VERSION)
    case REQ_HTTP_MINOR => Unless(Break(c) || Below1000(p.httpMinor, c), INVALID_VERSION)
    case REQ_LINE_ALMOST_DONE => Unless(c == '\n', LF_EXPECTED)
    case _ => None
  }

  /** In the header lines and the framing of chunks. */
  function LineError(p: Parser, c: byte): Option<Errno> {
    match p.state
    case HEADER_FIELD_START => Unless(Break(c) || TokenByte(c), INVALID_HEADER_TOKEN)
    case HEADER_FIELD => Unless(Break(c) || c == ':' || TokenByte(c), INVALID_HEADER_TOKEN)
    case HEADER_VALUE_START =>
      Unless(p.headerState != ContentLength || Break(c) || c == ' ' || c == '\t' || DecimalDigit(c),
             INVALID_CONTENT_LENGTH)
    case HEADER_VALUE =>
      Unless(|| p.headerState != ContentLength || Break(c) || c == ' '
             || (DecimalDigit(c) && FitsLength(p.contentLength, 10, c as int - '0' as int)), INVALID_CONTENT_LENGTH)
    case HEADER_ALMOST_DONE => Unless(c == '\n', STRICT)
    case HEADER_VALUE_LWS => Unless(c == ' ' || c == '\t' || Break(c) || TokenByte(c), INVALID_HEADER_TOKEN)
    case HEADERS_ALMOST_DONE => Unless(c == '\n', STRICT)
    case HEADERS_DONE => Unless(c == '\n', STRICT)
    case CHUNK_SIZE_START => Unless(ChunkDigit(c), INVALID_CHUNK_SIZE)
    case CHUNK_SIZE =>
      if c == '\r' || c == ';' || c == ' ' then None
      else if !ChunkDigit(c) then Some(INVALID_CHUNK_SIZE)
      else Unless(FitsLength(p.contentLength, 16, Unhex(c)), INVALID_CONTENT_LENGTH)
    case CHUNK_SIZE_ALMOST_DONE => Unless(c == '\n', STRICT)
    case CHUNK_DATA_ALMOST_DONE => Unless(c == '\r', STRICT)
    case CHUNK_DATA_DONE => Unless(c == '\n', STRICT)
    case _ => None
  }

  function ErrorOf(p: Parser, c: byte): Option<Errno> {
    if p.state < HEADER_FIELD_START then FirstLineError(p, c) else LineError(p, c)
  }

  /** One pass of the switch agrees with the table. */
  ghost predicate Agrees(p: Parser, c: byte, r: Pass) {
    && (r.next != Again ==> (r.next == Fail <==> ErrorOf(p, c).Some?))
    && (r.next == Fail ==> ErrorOf(p, c) == Some(r.parser.errno))
    && (r.next == Again ==> Tabled(r.parser.state) && ErrorOf(r.parser, c) == ErrorOf(p, c))
  }

  lemma PreambleAgrees(p: Parser, c: byte)
    requires InPreamble(p.state)
    ensures Agrees(p, c, Preamble(p, c))
  {
    hide LineError;
  }

  lemma StatusLineAgrees(p: Parser, c: byte)
    requires InStatusLine(p.state)
    ensures Agrees(p, c, StatusLine(p, c))
  {
    hide LineError;
  }

  lemma StartReqAgrees(p: Parser, c: byte)
    requires p.state == START_REQ
    ensures Agrees(p, c, AtStartReq(p, c))
  {
    hide LineError;
  }

  lemma BehindUrlAgrees(p: Parser, c: byte)
    requires REQ_HTTP_START <= p.state <= REQ_LINE_ALMOST_DONE
    ensures Agrees(p, c, RequestLine(p, c))
  {
    hide LineError, AtStartReq, AtReqMethod, AtSpacesBeforeUrl, MethodLetter;
  }

  lemma RequestLineAgrees(p: Parser, c: byte)
    requires InRequestLine(p.state) && Tabled(p.state)
    ensures Agrees(p, c, RequestLine(p, c))
  {
    if p.state == START_REQ {
      hide AtStartReq, Agrees;
      StartReqAgrees(p, c);
    } else {
      hide Agrees, RequestLine;
      BehindUrlAgrees(p, c);
    }
  }

  lemma FieldStartAgrees(p: Parser, c: byte)
    requires p.state == HEADER_FIELD_START
    ensures Agrees(p, c, AtHeaderFieldStart(p, c))
  {
    hide FirstLineError, Token, FirstNameMatch;
    TokenCharacters(c);
  }

  lemma FieldAgrees(p: Parser, c: byte)
    requires p.state == HEADER_FIELD && BeforePass(p)
    ensures Agrees(p, c, AtHeaderField(p, c))
  {
    hide FirstLineError, Token, MatchWord, MethodString;
    TokenCharacters(c);
  }

  lemma ValueStartAgrees(p: Parser, c: byte)
    requires p.state == HEADER_VALUE_START
    ensures Agrees(p, c, AtHeaderValueStart(p, c))
  {
    hide FirstLineError, TokenByte, Lower;
  }

  lemma ValueAgrees(p: Parser, c: byte)
    requires p.state == HEADER_VALUE && BeforePass(p)
    ensures Agrees(p, c, AtHeaderValue(p, c))
  {
    hide FirstLineError, TokenByte, MatchWord, Lower, MethodString;
  }

  lemma LineEndAgrees(p: Parser, c: byte, hc: HeadersAnswer)
    requires InHeaderLines(p.state) && p.state !in {HEADER_FIELD_START, HEADER_FIELD, HEADER_VALUE_START, HEADER_VALUE}
    ensures Agrees(p, c, HeaderLines(p, c, hc))
  {
    hide FirstLineError, TokenByte, AtHeaderFieldStart, AtHeaderField, AtHeaderValueStart, AtHeaderValue, NewMessage,
         MessageNeedsEof;
  }

  lemma HeaderLinesAgree(p: Parser, c: byte, hc: HeadersAnswer)
    requires InHeaderLines(p.state) && BeforePass(p)
    ensures Agrees(p, c, HeaderLines(p, c, hc))
  {
    hide Agrees, AtHeaderFieldStart, AtHeaderField, AtHeaderValueStart, AtHeaderValue;
    if p.state == HEADER_FIELD_START {
      FieldStartAgrees(p, c);
    } else if p.state == HEADER_FIELD {
      FieldAgrees(p, c);
    } else if p.state == HEADER_VALUE_START {
      ValueStartAgrees(p, c);
    } else if p.state == HEADER_VALUE {
      ValueAgrees(p, c);
    } else {
      LineEndAgrees(p, c, hc);
    }
  }

  lemma BodyLinesAgree(p: Parser, c: byte, avail: nat)
    requires InBody(p.state) && BeforePass(p) && avail > 0
    ensures Agrees(p, c, BodyLines(p, c, avail))
  {
    hide FirstLineError, NewMessage, MethodString;
  }

  lemma SwitchAgrees(p: Parser, c: byte, hc: HeadersAnswer)
    requires BeforePass(p) && Tabled(p.state)
    ensures Agrees(p, c, Switch(p, c, 1, hc))
  {
    hide Agrees, BeforePass, Preamble, StatusLine, RequestLine, UrlLine, HeaderLines, BodyLines;
    if InPreamble(p.state) {
      PreambleAgrees(p, c);
    } else if InStatusLine(p.state) {
      StatusLineAgrees(p, c);
    } else if InRequestLine(p.state) {
      RequestLineAgrees(p, c);
    } else if InHeaderLines(p.state) {
      HeaderLinesAgree(p, c, hc);
    } else {
      BodyLinesAgree(p, c, 1);
    }
  }

  /** All the passes of a byte. */
  lemma {:induction false} PassesAgree(p: Parser, c: byte, hc: HeadersAnswer)
    requires BeforePass(p) && Tabled(p.state)
    ensures var o := Passes(p, c, hc);
      (o.status == Failed <==> ErrorOf(p, c).Some?) && (o.status == Failed ==> ErrorOf(p, c) == Some(o.parser.errno))
    decreases Rank(p.state)
  {
    hide BeforePass, ErrorOf, Switch, Tabled;
    var r := Switch(p, c, 1, hc);
    SwitchAgrees(p, c, hc);
    KeepsSwitch(p, c, hc);
    if r.next == Again {
      TidySwitch(p, c, 1, hc);
      PassesAgree(r.parser, c, hc);
    }
  }

  /** In every state but inside of a method or a URL: a byte is an error if and only if the table
      says so, or it is one header byte too many; and the error is the one of the table. */
  lemma ErrorIff(p: Parser, c: byte, hc: HeadersAnswer)
    requires WellFormed(p) && Tabled(p.state)
    ensures var o, q := Step(p, c, hc), CountHeaderByte(p);
      if ParsingHeader(p.state) && q.nread > MAX_HEADER_SIZE then
        o.status == Failed && o.parser.errno == HEADER_OVERFLOW
      else
        (o.status == Failed <==> ErrorOf(p, c).Some?) && (o.status == Failed ==> ErrorOf(p, c) == Some(o.parser.errno))
  {
    hide Passes, ErrorOf;
    var q := CountHeaderByte(p);
    if !(ParsingHeader(p.state) && q.nread > MAX_HEADER_SIZE) {
      CountedBefore(p);
      CountedError(p, c);
      PassesAgree(q, c, hc);
    }
  }

  lemma CountedBefore(p: Parser)
    requires WellFormed(p) && CountHeaderByte(p).nread <= MAX_HEADER_SIZE
    ensures BeforePass(CountHeaderByte(p))
  {
    hide MethodString;
  }

  lemma CountedError(p: Parser, c: byte)
    ensures ErrorOf(CountHeaderByte(p), c) == ErrorOf(p, c)
  {
  }

  /** A run that fails does so at one byte: it goes on up to there. */
  lemma {:induction false} FailsAtOne(p: Parser, data: seq<byte>, hc: HeadersAnswer) returns (k: nat)
    requires Run(p, data, hc).status == Failed
    ensures k < |data| && Run(p, data[..k], hc).status == Going
    ensures var q := Run(p, data[..k], hc).parser;
      Step(q, data[k], hc).status == Failed && Step(q, data[k], hc).parser == Run(p, data, hc).parser
    decreases |data|
  {
    hide Step;
    var first := Step(p, data[0], hc);
    if first.status == Failed {
      k := 0;
    } else {
      var i := FailsAtOne(first.parser, data[1..], hc);
      k := i + 1;
      assert data[..k][0] == data[0] && data[..k][1..] == data[1..][..i];
    }
  }

  /** Every error of a run, but for those of methods and URLs, is one of the table, or one header
      byte too many. */
  lemma ErrorOfRun(p: Parser, data: seq<byte>, hc: HeadersAnswer) returns (k: nat)
    requires WellFormed(p) && Run(p, data, hc).status == Failed
    ensures k < |data| && Run(p, data[..k], hc).status == Going
    ensures var q, e := Run(p, data[..k], hc).parser, Run(p, data, hc).parser.errno;
      Tabled(q.state) ==> if q.nread == MAX_HEADER_SIZE && ParsingHeader(q.state) then e == HEADER_OVERFLOW
                          else ErrorOf(q, data[k]) == Some(e)
  {
    hide Run, Step, ErrorOf, WellFormed;
    k := FailsAtOne(p, data, hc);
    KeepsRun(p, data[..k], hc);
    var q := Run(p, data[..k], hc).parser;
    if Tabled(q.state) {
      ErrorIff(q, data[k], hc);
      CountIs(q);
    }
  }

  lemma CountIs(q: Parser)
    requires WellFormed(q)
    ensures ParsingHeader(q.state) ==> (CountHeaderByte(q).nread > MAX_HEADER_SIZE <==> q.nread == MAX_HEADER_SIZE)
  {
    hide MethodString;
  }
}
