/** What holds of the parser struct between any two bytes: enough for every assert of the
    source, for every matcher to be read inside its string, and for the header size limit. */
module HttpInvariant {
  import opened CBytes
  import opened HttpTypes
  import opened HttpSwitch
  import opened HttpRun

  predicate NameMatcher(p: Parser) {
    match p.headerState
    case General => true
    case C => p.index == 0
    case CO => p.index == 1
    case CON => p.index == 2
    case MatchingConnection => 3 <= p.index < |CONNECTION| - 1
    case MatchingProxyConnection => p.index < |PROXY_CONNECTION| - 1
    case MatchingContentLength => 3 <= p.index < |CONTENT_LENGTH| - 1
    case MatchingTransferEncoding => p.index < |TRANSFER_ENCODING| - 1
    case MatchingUpgrade => p.index < |UPGRADE| - 1
    case Connection => true
    case ContentLength => true
    case TransferEncoding => true
    case Upgrade => true
    case _ => false
  }

  predicate ValueMatcher(p: Parser) {
    match p.headerState
    case General => true
    case ContentLength => true
    case MatchingChunked => p.index < |CHUNKED| - 1
    case MatchingKeepAlive => p.index < |KEEP_ALIVE| - 1
    case MatchingClose => p.index < |CLOSE| - 1
    case Chunked => true
    case KeepAlive => true
    case Close => true
    case _ => false
  }

  predicate InChunks(s: State) {
    CHUNK_SIZE_START <= s <= CHUNK_SIZE_ALMOST_DONE || CHUNK_DATA <= s <= CHUNK_DATA_DONE
  }

  /** Kept by every pass. `index` is an unsigned char in the source, the version and status
      numbers are unsigned shorts: none of them wraps. */
  predicate Invariant(p: Parser) {
    && p.index <= 16 && p.nread <= MAX_HEADER_SIZE
    && p.httpMajor <= 999 && p.httpMinor <= 999 && p.statusCode <= 999
    && (p.state == REQ_METHOD ==> 1 <= p.index <= |MethodString(p.verb)|)
    && (p.state == HEADER_FIELD ==> NameMatcher(p))
    && (p.state == HEADER_VALUE ==> ValueMatcher(p))
    && (InChunks(p.state) ==> p.flags.chunked)
    && (CHUNK_SIZE <= p.state <= CHUNK_SIZE_ALMOST_DONE ==> p.contentLength < ULLONG_MAX)
    && (p.state == BODY_IDENTITY || p.state == CHUNK_DATA ==> 0 < p.contentLength < ULLONG_MAX)
    && (p.state == CHUNK_DATA_ALMOST_DONE ==> p.contentLength == 0)
  }

  predicate BeforePass(p: Parser) {
    Invariant(p) && (p.state == CHUNK_SIZE_START ==> p.nread == 1)
  }

  predicate AfterPass(p: Parser) {
    Invariant(p) && (p.state == CHUNK_SIZE_START ==> p.nread == 0)
  }

  /** Between two bytes. */
  predicate WellFormed(p: Parser) {
    AfterPass(p) && p.state != HEADERS_DONE && p.state != MESSAGE_DONE
  }

  predicate KeepsPass(r: Pass) {
    && r.next != AssertFailed
    && (r.next == Continue || r.next == Stop ==> WellFormed(r.parser))
    && (r.next == Again ==> BeforePass(r.parser))
  }

  lemma KeepsPreamble(p: Parser, ch: byte)
    requires InPreamble(p.state) && BeforePass(p)
    ensures KeepsPass(Preamble(p, ch))
  {
    hide NameMatcher, ValueMatcher;
  }

  lemma KeepsStatusLine(p: Parser, ch: byte)
    requires InStatusLine(p.state) && BeforePass(p)
    ensures KeepsPass(StatusLine(p, ch))
  {
    hide NameMatcher, ValueMatcher, MethodString;
  }

  /** A switch of candidate leaves the index inside the new candidate. */
  lemma KeepsReqMethod(p: Parser, ch: byte)
    requires p.state == REQ_METHOD && BeforePass(p)
    ensures KeepsPass(AtReqMethod(p, ch))
  {
    hide NextCandidate, NameMatcher, ValueMatcher, MethodString;
    NamesAreShort(p.verb);
    var next := NextCandidate(p.verb, p.index, ch);
    if next.Some? {
      NextFits(p.verb, p.index, ch);
      NamesAreShort(next.value);
    }
  }

  lemma NamesAreShort(m: Method)
    ensures |MethodString(m)| <= 11
  {
  }

  lemma NextFits(m: Method, i: nat, ch: byte)
    ensures var next := NextCandidate(m, i, ch); next.Some? ==> i < |MethodString(next.value)|
  {
  }

  lemma KeepsStartReq(p: Parser, ch: byte)
    requires p.state == START_REQ && BeforePass(p)
    ensures KeepsPass(AtStartReq(p, ch))
  {
    hide NameMatcher, ValueMatcher;
  }

  lemma KeepsSpacesBeforeUrl(p: Parser, ch: byte)
    requires p.state == REQ_SPACES_BEFORE_URL && BeforePass(p)
    ensures KeepsPass(AtSpacesBeforeUrl(p, ch))
  {
    hide NameMatcher, ValueMatcher, MethodString;
  }

  lemma KeepsRequestLine(p: Parser, ch: byte)
    requires InRequestLine(p.state) && BeforePass(p)
    ensures KeepsPass(RequestLine(p, ch))
  {
    hide AtReqMethod, AtStartReq, AtSpacesBeforeUrl, NameMatcher, ValueMatcher, MethodString;
    if p.state == REQ_METHOD {
      KeepsReqMethod(p, ch);
    } else if p.state == START_REQ {
      KeepsStartReq(p, ch);
    } else if p.state == REQ_SPACES_BEFORE_URL {
      KeepsSpacesBeforeUrl(p, ch);
    } else if p.state >= REQ_FIRST_HTTP_MAJOR {
      KeepsRequestVersion(p, ch);
    }
  }

  lemma KeepsRequestVersion(p: Parser, ch: byte)
    requires REQ_FIRST_HTTP_MAJOR <= p.state <= REQ_LINE_ALMOST_DONE && BeforePass(p)
    ensures KeepsPass(RequestLine(p, ch))
  {
    hide AtReqMethod, AtStartReq, AtSpacesBeforeUrl, NameMatcher, ValueMatcher, MethodString;
  }

  lemma KeepsUrlLine(p: Parser, ch: byte)
    requires UrlState(p.state) && BeforePass(p)
    ensures KeepsPass(UrlLine(p, ch))
  {
    hide NameMatcher, ValueMatcher, MethodString;
  }

  /** A matcher that goes on stays before the last character of its word. */
  lemma MatcherInside(p: Parser, word: string, c: char, found: HeaderMatch)
    requires p.index < |word| - 1
    ensures var q := MatchWord(p, word, c, found);
      && q == p.(index := p.index + 1, headerState := q.headerState)
      && (|| q.headerState == General || q.headerState == found
          || (q.headerState == p.headerState && q.index < |word| - 1))
  {
  }

  lemma WordStepInside(p: Parser, ch: byte, c: char)
    requires NameMatcher(p) && p.index <= 16 && InsideWord(p.headerState)
    ensures NameStep(p, ch, c).Some?
    ensures var q := NameStep(p, ch, c).value;
      q == p.(index := q.index, headerState := q.headerState) && NameMatcher(q) && q.index <= 16
  {
    hide MatchWord;
    match p.headerState {
      case MatchingConnection => MatcherInside(p, CONNECTION, c, Connection);
      case MatchingProxyConnection => MatcherInside(p, PROXY_CONNECTION, c, Connection);
      case MatchingContentLength => MatcherInside(p, CONTENT_LENGTH, c, ContentLength);
      case MatchingTransferEncoding => MatcherInside(p, TRANSFER_ENCODING, c, TransferEncoding);
      case MatchingUpgrade => MatcherInside(p, UPGRADE, c, Upgrade);
    }
  }

  lemma ShortStepInside(p: Parser, ch: byte, c: char)
    requires NameMatcher(p) && p.index <= 16 && !InsideWord(p.headerState)
    ensures NameStep(p, ch, c).Some?
    ensures var q := NameStep(p, ch, c).value;
      q == p.(index := q.index, headerState := q.headerState) && NameMatcher(q) && q.index <= 16
  {
    hide MatchWord;
  }

  lemma NameStepInside(p: Parser, ch: byte, c: char)
    requires NameMatcher(p) && p.index <= 16
    ensures NameStep(p, ch, c).Some?
    ensures var q := NameStep(p, ch, c).value;
      q == p.(index := q.index, headerState := q.headerState) && NameMatcher(q) && q.index <= 16
  {
    hide MatchWord, NameStep, NameMatcher;
    if InsideWord(p.headerState) {
      WordStepInside(p, ch, c);
    } else {
      ShortStepInside(p, ch, c);
    }
  }

  lemma KeepsHeaderField(p: Parser, ch: byte)
    requires p.state == HEADER_FIELD && BeforePass(p)
    ensures KeepsPass(AtHeaderField(p, ch))
  {
    hide NameMatcher, ValueMatcher, MethodString, NameStep;
    NameStepInside(p, ch, Token(ch));
  }

  lemma KeepsHeaderValueStart(p: Parser, ch: byte)
    requires p.state == HEADER_VALUE_START && BeforePass(p)
    ensures KeepsPass(AtHeaderValueStart(p, ch))
  {
    hide NameMatcher, MethodString;
  }

  lemma KeepsHeaderValue(p: Parser, ch: byte)
    requires p.state == HEADER_VALUE && BeforePass(p)
    ensures KeepsPass(AtHeaderValue(p, ch))
  {
    hide NameMatcher, MethodString, MatchWord, Lower, Accumulate;
    match p.headerState {
      case MatchingChunked => MatcherInside(p, CHUNKED, Lower(ch), Chunked);
      case MatchingKeepAlive => MatcherInside(p, KEEP_ALIVE, Lower(ch), KeepAlive);
      case MatchingClose => MatcherInside(p, CLOSE, Lower(ch), Close);
      case _ =>
    }
  }

  lemma KeepsHeaderLines(p: Parser, ch: byte, hc: HeadersAnswer)
    requires InHeaderLines(p.state) && BeforePass(p)
    ensures KeepsPass(HeaderLines(p, ch, hc))
  {
    hide AtHeaderField, AtHeaderValueStart, AtHeaderValue, AtHeaderAlmostDone, AtHeaderValueLws, AtHeadersAlmostDone,
      AtHeadersDone, ValueMatcher, MethodString;
    if p.state == HEADER_FIELD {
      KeepsHeaderField(p, ch);
    } else if p.state == HEADER_VALUE_START {
      KeepsHeaderValueStart(p, ch);
    } else if p.state == HEADER_VALUE {
      KeepsHeaderValue(p, ch);
    } else if p.state != HEADER_FIELD_START {
      KeepsHeadersEnd(p, ch, hc);
    }
  }

  /** Between the lines, and at the end of the headers. */
  lemma KeepsHeadersEnd(p: Parser, ch: byte, hc: HeadersAnswer)
    requires p.state in {HEADER_VALUE_LWS, HEADER_ALMOST_DONE, HEADERS_ALMOST_DONE, HEADERS_DONE} && BeforePass(p)
    ensures KeepsPass(HeaderLines(p, ch, hc))
  {
    hide AtHeaderFieldStart, AtHeaderField, AtHeaderValueStart, AtHeaderValue, NameMatcher, ValueMatcher, MethodString,
      ShouldKeepAlive, MessageNeedsEof;
  }

  lemma KeepsBodyLines(p: Parser, ch: byte)
    requires InBody(p.state) && BeforePass(p)
    ensures KeepsPass(BodyLines(p, ch, 1))
  {
    hide NameMatcher, ValueMatcher, MethodString;
  }

  lemma KeepsSwitch(p: Parser, ch: byte, hc: HeadersAnswer)
    requires BeforePass(p)
    ensures KeepsPass(Switch(p, ch, 1, hc))
  {
    hide KeepsPass, BeforePass, Preamble, StatusLine, RequestLine, UrlLine, HeaderLines, BodyLines;
    if InPreamble(p.state) {
      KeepsPreamble(p, ch);
    } else if InStatusLine(p.state) {
      KeepsStatusLine(p, ch);
    } else if InRequestLine(p.state) {
      KeepsRequestLine(p, ch);
    } else if UrlState(p.state) {
      KeepsUrlLine(p, ch);
    } else if InHeaderLines(p.state) {
      KeepsHeaderLines(p, ch, hc);
    } else {
      KeepsBodyLines(p, ch);
    }
  }

  lemma {:induction false} KeepsPasses(p: Parser, ch: byte, hc: HeadersAnswer)
    requires BeforePass(p)
    ensures var o := Passes(p, ch, hc);
      && o.status != Asserted
      && (o.status == Going || o.status == Stopped ==> WellFormed(o.parser))
    decreases Rank(p.state)
  {
    hide Switch, BeforePass, WellFormed, Tidy;
    KeepsSwitch(p, ch, hc);
    TidySwitch(p, ch, 1, hc);
    var r := Switch(p, ch, 1, hc);
    if r.next == Again {
      RankDrops(p, r);
      KeepsPasses(r.parser, ch, hc);
    }
  }

  lemma RankDrops(p: Parser, r: Pass)
    requires Tidy(p, r, 1) && r.next == Again
    ensures Rank(r.parser.state) < Rank(p.state)
  {
  }

  /** One byte: no assert fails, and the invariant holds again unless the byte is an error. */
  lemma KeepsStep(p: Parser, ch: byte, hc: HeadersAnswer)
    requires WellFormed(p)
    ensures var r := Step(p, ch, hc);
      && r.status != Asserted
      && (r.status == Going || r.status == Stopped ==> WellFormed(r.parser))
  {
    var q := CountHeaderByte(p);
    if !(ParsingHeader(q.state) && q.nread > MAX_HEADER_SIZE) {
      assert BeforePass(q) by {
        hide NameMatcher, ValueMatcher, MethodString;
        SameMatchers(p, q);
      }
      hide Passes, WellFormed;
      KeepsPasses(q, ch, hc);
    }
  }

  lemma SameMatchers(p: Parser, q: Parser)
    requires q == p.(nread := q.nread)
    ensures NameMatcher(p) == NameMatcher(q) && ValueMatcher(p) == ValueMatcher(q)
  {
  }

  /** Every input to a well-formed parser: no assert of the source ever fails, no matcher is
      read outside its string, and unless there is an error the parser stays well formed. */
  lemma {:induction false} KeepsRun(p: Parser, data: seq<byte>, hc: HeadersAnswer)
    requires WellFormed(p)
    ensures var r := Run(p, data, hc);
      && r.status != Asserted
      && (r.status == Going || r.status == Stopped ==> WellFormed(r.parser))
    decreases |data|
  {
    hide Step, WellFormed;
    if data == [] {
    } else {
      KeepsStep(p, data[0], hc);
      var first := Step(p, data[0], hc);
      if first.status == Going {
        KeepsRun(first.parser, data[1..], hc);
      }
    }
  }

  lemma InitiallyWellFormed(t: ParserType)
    ensures var p := InitialParser(t);
      && WellFormed(p) && p.ptype == t && p.errno == OK && !p.upgrade && p.flags == NO_FLAGS
      && p.index == p.nread == p.contentLength == p.httpMajor == p.httpMinor == p.statusCode == 0
  {
  }

  // ---- errno, upgrade and the header limit ----

  lemma {:induction false} ErrnoOfPasses(p: Parser, ch: byte, hc: HeadersAnswer)
    requires p.errno == OK
    ensures var o := Passes(p, ch, hc);
      && (o.status == Failed <==> o.parser.errno != OK)
    decreases Rank(p.state)
  {
    hide Switch;
    TidySwitch(p, ch, 1, hc);
    var r := Switch(p, ch, 1, hc);
    if r.next == Again {
      ErrnoOfPasses(r.parser, ch, hc);
    }
  }

  /** errno tells an error from everything else. */
  lemma {:induction false} ErrnoOfRun(p: Parser, data: seq<byte>, hc: HeadersAnswer)
    requires p.errno == OK
    ensures Run(p, data, hc).status == Failed <==> Run(p, data, hc).parser.errno != OK
    decreases |data|
  {
    hide Passes;
    if data == [] {
    } else {
      ErrnoOfPasses(CountHeaderByte(p), data[0], hc);
      var first := Step(p, data[0], hc);
      if first.status == Going {
        ErrnoOfRun(first.parser, data[1..], hc);
      }
    }
  }

  lemma {:induction false} UpgradeOfPasses(p: Parser, ch: byte, hc: HeadersAnswer)
    requires !p.upgrade || p.state == HEADERS_DONE
    ensures var o := Passes(p, ch, hc);
      o.status == Going || o.status == Stopped ==> (o.status == Stopped <==> o.parser.upgrade)
    decreases Rank(p.state)
  {
    if p.state == HEADERS_ALMOST_DONE || p.state == HEADERS_DONE {
      hide Preamble, StatusLine, RequestLine, UrlLine, BodyLines;
    } else {
      hide Switch;
      TidySwitch(p, ch, 1, hc);
      var r := Switch(p, ch, 1, hc);
      if r.next == Again {
        UpgradeOfPasses(r.parser, ch, hc);
      }
    }
  }

  lemma {:induction false} NreadOfPasses(p: Parser, ch: byte, hc: HeadersAnswer)
    ensures Passes(p, ch, hc).parser.nread == p.nread || Passes(p, ch, hc).parser.nread == 0
    decreases Rank(p.state)
  {
    hide Switch;
    TidySwitch(p, ch, 1, hc);
    var r := Switch(p, ch, 1, hc);
    if r.next == Again {
      NreadOfPasses(r.parser, ch, hc);
    }
  }

  /** The header bytes taken since the counter was last reset, `n` having been taken before. */
  ghost function HeaderBytes(p: Parser, data: seq<byte>, hc: HeadersAnswer, n: nat): nat
    decreases |data|
  {
    if data == [] then n
    else
      var first := Step(p, data[0], hc);
      var m := if first.parser.nread == 0 then 0 else if ParsingHeader(p.state) then n + 1 else n;
      if first.status != Going then m else HeaderBytes(first.parser, data[1..], hc, m)
  }

  /** No more than 80 * 1024 header bytes are taken between two resets. */
  lemma {:induction false} HeaderBytesBounded(p: Parser, data: seq<byte>, hc: HeadersAnswer)
    requires WellFormed(p)
    ensures var r := Run(p, data, hc);
      r.status == Going || r.status == Stopped ==>
        HeaderBytes(p, data, hc, p.nread) == r.parser.nread <= MAX_HEADER_SIZE
    decreases |data|
  {
    hide Passes, NameMatcher, ValueMatcher, MethodString;
    if data == [] {
    } else {
      NreadOfPasses(CountHeaderByte(p), data[0], hc);
      KeepsStep(p, data[0], hc);
      var first := Step(p, data[0], hc);
      if first.status == Going {
        HeaderBytesBounded(first.parser, data[1..], hc);
      }
    }
  }

  /** From a parser whose upgrade bit is clear, the bit tells an upgrade from going on. */
  lemma {:induction false} UpgradeOfRun(p: Parser, data: seq<byte>, hc: HeadersAnswer)
    requires !p.upgrade
    ensures var r := Run(p, data, hc);
      r.status == Going || r.status == Stopped ==> (r.status == Stopped <==> r.parser.upgrade)
    decreases |data|
  {
    hide Passes;
    if data == [] {
    } else {
      UpgradeOfPasses(CountHeaderByte(p), data[0], hc);
      var first := Step(p, data[0], hc);
      if first.status == Going {
        UpgradeOfRun(first.parser, data[1..], hc);
      }
    }
  }
}
