/** The first line of a message, with what the parser skips before and inside of it: a request
    line with any method, URL and version or none, and a status line with any version and status. */
module HttpStartLine {
  import opened CBytes
  import opened HttpTypes
  import opened HttpSwitch
  import opened HttpRun
  import opened HttpBodies
  import opened HttpMethods

  // ---- what is skipped ----

  predicate Spaces(t: seq<byte>) { forall i :: 0 <= i < |t| ==> t[i] == ' ' }

  predicate Breaks(t: seq<byte>) { forall i :: 0 <= i < |t| ==> t[i] == CR || t[i] == LF }

  lemma OneSpace(p: Parser, hc: HeadersAnswer)
    requires p.state == REQ_SPACES_BEFORE_URL || p.state == REQ_HTTP_START || p.state == RES_FIRST_STATUS_CODE
    requires p.nread < MAX_HEADER_SIZE
    ensures Reaches(p, " ", p.(nread := p.nread + 1), [], hc)
  {
    var c := CountHeaderByte(p);
    assert Switch(c, ' ', 1, hc) ==
      if p.state == RES_FIRST_STATUS_CODE then StatusLine(c, ' ') else RequestLine(c, ' ');
    hide Switch;
    ReachesByte(p, ' ', c, [], hc);
  }

  /** More spaces where there is one. */
  lemma {:induction false} SpacesRun(p: Parser, t: seq<byte>, hc: HeadersAnswer)
    requires p.state == REQ_SPACES_BEFORE_URL || p.state == REQ_HTTP_START || p.state == RES_FIRST_STATUS_CODE
    requires Spaces(t) && p.nread + |t| <= MAX_HEADER_SIZE
    ensures Reaches(p, t, p.(nread := p.nread + |t|), [], hc)
    decreases |t|
  {
    if t == [] {
    } else {
      hide Reaches;
      var front := t[..|t| - 1];
      assert t == front + " ";
      SpacesRun(p, front, hc);
      var q := p.(nread := p.nread + |front|);
      OneSpace(q, hc);
      NothingJoined();
      ReachesThen(p, front, q, [], " ", p.(nread := p.nread + |t|), [], hc);
    }
  }

  lemma OneBreak(p: Parser, ch: byte, hc: HeadersAnswer)
    requires p.state == START_REQ && p.nread < MAX_HEADER_SIZE && (ch == CR || ch == LF)
    ensures Reaches(p, [ch], p.(nread := p.nread + 1), [], hc)
  {
    var c := CountHeaderByte(p);
    assert Switch(c, ch, 1, hc) == AtStartReq(c, ch);
    hide Switch;
    ReachesByte(p, ch, c, [], hc);
  }

  /** Line breaks before a request are skipped. */
  lemma {:induction false} BreaksRun(p: Parser, t: seq<byte>, hc: HeadersAnswer)
    requires p.state == START_REQ && Breaks(t) && p.nread + |t| <= MAX_HEADER_SIZE
    ensures Reaches(p, t, p.(nread := p.nread + |t|), [], hc)
    decreases |t|
  {
    if t == [] {
    } else {
      hide Reaches;
      var front, last := t[..|t| - 1], t[|t| - 1];
      assert t == front + [last];
      BreaksRun(p, front, hc);
      var q := p.(nread := p.nread + |front|);
      OneBreak(q, last, hc);
      NothingJoined();
      ReachesThen(p, front, q, [], [last], p.(nread := p.nread + |t|), [], hc);
    }
  }

  /** One announcement for each line break before a response. */
  function Begins(n: nat): (r: seq<Atom>)
    ensures |r| == n
  {
    seq(n, _ => Note(MessageBegin))
  }

  lemma OneStatusBreak(p: Parser, ch: byte, hc: HeadersAnswer)
    requires p.state == START_RES && p.nread < MAX_HEADER_SIZE && (ch == CR || ch == LF)
    ensures Reaches(p, [ch], Fresh(p).(nread := p.nread + 1), Begins(1), hc)
  {
    var c := CountHeaderByte(p);
    assert Switch(c, ch, 1, hc) == AtStartRes(c, ch);
    hide Switch;
    assert Begins(1) == [Note(MessageBegin)];
    ReachesByte(p, ch, Fresh(p).(nread := p.nread + 1), Begins(1), hc);
  }

  function AfterStatusBreaks(p: Parser, n: nat): Parser { if n == 0 then p else Fresh(p).(nread := p.nread + n) }

  /** Line breaks before a response are skipped, but each of them announces a message. */
  lemma {:induction false} StatusBreaksRun(p: Parser, t: seq<byte>, hc: HeadersAnswer)
    requires p.state == START_RES && Breaks(t) && p.nread + |t| <= MAX_HEADER_SIZE
    ensures Reaches(p, t, AfterStatusBreaks(p, |t|), Begins(|t|), hc)
    decreases |t|
  {
    if t == [] {
    } else {
      hide Reaches, Begins;
      var front, last := t[..|t| - 1], t[|t| - 1];
      assert t == front + [last];
      StatusBreaksRun(p, front, hc);
      var q := AfterStatusBreaks(p, |front|);
      OneStatusBreak(q, last, hc);
      BeginsMore(|front|);
      ReachesThen(p, front, q, Begins(|front|), [last], AfterStatusBreaks(p, |t|), Begins(1), hc);
    }
  }

  lemma BeginsMore(n: nat)
    ensures Begins(n) + Begins(1) == Begins(n + 1)
  {
  }

  // ---- the method ----

  lemma MethodRun(p: Parser, m: Method, hc: HeadersAnswer)
    requires p.state == START_REQ && p.nread + |MethodString(m)| < MAX_HEADER_SIZE
    ensures var k := |MethodString(m)|;
      Reaches(p, MethodString(m) + " ", Reading(p, m, k + 1).(state := REQ_SPACES_BEFORE_URL), [Note(MessageBegin)], hc)
  {
    hide MethodString, Step, Run, Recognising, Candidate;
    var w := MethodString(m);
    NoEmptyName(m);
    Leads(p, m, |w|, hc);
    AllLead(m);
    assert w[..|w|] == w;
    var q := Reading(p, m, |w|);
    SpaceByte(q, w, hc);
    ReachesByte(q, ' ', q.(state := REQ_SPACES_BEFORE_URL, index := |w| + 1, nread := q.nread + 1), [], hc);
    ReachesThen(p, w, q, [Note(MessageBegin)],
                " ", q.(state := REQ_SPACES_BEFORE_URL, index := |w| + 1, nread := q.nread + 1), [], hc);
    NothingJoined();
  }

  // ---- the URL ----

  /** The URL recogniser over a string. */
  function UrlFold(s: State, url: seq<byte>): State {
    if url == [] then s else ParseUrlChar(UrlFold(s, url[..|url| - 1]), url[|url| - 1])
  }

  function UrlStart(m: Method): State { if m == CONNECT then REQ_SERVER_START else REQ_SPACES_BEFORE_URL }

  /** States behind a whole URL. */
  predicate UrlEnds(s: State) {
    && UrlState(s) && s != REQ_SCHEMA && s != REQ_SCHEMA_SLASH && s != REQ_SCHEMA_SLASH_SLASH && s != REQ_SERVER_START
  }

  /** A URL that a space or a line end may follow. */
  predicate UrlAccepted(m: Method, url: seq<byte>) { url != [] && UrlEnds(UrlFold(UrlStart(m), url)) }

  lemma NeverBack(s: State, ch: byte)
    ensures ParseUrlChar(DEAD, ch) == DEAD
    ensures ParseUrlChar(s, ch) != DEAD ==>
      UrlState(ParseUrlChar(s, ch)) && ch != ' ' && ch != CR && ch != LF
  {
  }

  lemma FirstUrlByte(p: Parser, ch: byte, hc: HeadersAnswer)
    requires p.state == REQ_SPACES_BEFORE_URL && p.nread < MAX_HEADER_SIZE
    requires ParseUrlChar(UrlStart(p.verb), ch) != DEAD
    ensures Step(p, ch, hc) ==
      Outcome(p.(state := ParseUrlChar(UrlStart(p.verb), ch), nread := p.nread + 1), [Byte(Url, ch)], 1, Going)
  {
    hide ParseUrlChar;
    NeverBack(UrlStart(p.verb), ch);
    var q := CountHeaderByte(p);
    assert Switch(q, ch, 1, hc) == AtSpacesBeforeUrl(q, ch);
  }

  lemma NextUrlByte(p: Parser, ch: byte, hc: HeadersAnswer)
    requires UrlState(p.state) && p.nread < MAX_HEADER_SIZE && ParseUrlChar(p.state, ch) != DEAD
    ensures Step(p, ch, hc) ==
      Outcome(p.(state := ParseUrlChar(p.state, ch), nread := p.nread + 1), [Byte(Url, ch)], 1, Going)
  {
    hide ParseUrlChar;
    NeverBack(p.state, ch);
    var q := CountHeaderByte(p);
    assert Switch(q, ch, 1, hc) == UrlLine(q, ch);
  }

  lemma {:induction false} UrlRun(p: Parser, url: seq<byte>, hc: HeadersAnswer)
    requires p.state == REQ_SPACES_BEFORE_URL && url != [] && p.nread + |url| <= MAX_HEADER_SIZE
    requires UrlFold(UrlStart(p.verb), url) != DEAD
    ensures UrlState(UrlFold(UrlStart(p.verb), url))
    ensures Reaches(p, url, p.(state := UrlFold(UrlStart(p.verb), url), nread := p.nread + |url|), Bytes(Url, url), hc)
    decreases |url|
  {
    hide ParseUrlChar, Reaches, Step, Bytes;
    var front, last := url[..|url| - 1], url[|url| - 1];
    assert url == front + [last];
    var s := UrlFold(UrlStart(p.verb), front);
    NeverBack(s, last);
    BytesJoin(Url, front, [last]);
    SingleByte(Url, last);
    var t := ParseUrlChar(s, last);
    if front == [] {
      FirstUrlByte(p, last, hc);
      ReachesByte(p, last, p.(state := t, nread := p.nread + 1), [Byte(Url, last)], hc);
      assert url == [last];
    } else {
      UrlRun(p, front, hc);
      var q := p.(state := s, nread := p.nread + |front|);
      NextUrlByte(q, last, hc);
      ReachesByte(q, last, q.(state := t, nread := q.nread + 1), [Byte(Url, last)], hc);
      ReachesThen(p, front, q, Bytes(Url, front), [last], q.(state := t, nread := q.nread + 1), [Byte(Url, last)], hc);
    }
  }

  lemma UrlEnd(p: Parser, hc: HeadersAnswer)
    requires UrlEnds(p.state) && p.nread < MAX_HEADER_SIZE
    ensures Reaches(p, " ", p.(state := REQ_HTTP_START, nread := p.nread + 1), [], hc)
  {
    var q := CountHeaderByte(p);
    assert Switch(q, ' ', 1, hc) == AtUrl(q, ' ');
    ReachesByte(p, ' ', p.(state := REQ_HTTP_START, nread := p.nread + 1), [], hc);
  }

  // ---- versions ----

  const HTTP_SLASH: seq<byte> := "HTTP/"

  lemma HttpSlash(p: Parser, hc: HeadersAnswer)
    requires p.state == REQ_HTTP_START && p.nread + 5 <= MAX_HEADER_SIZE
    ensures Reaches(p, HTTP_SLASH, p.(state := REQ_FIRST_HTTP_MAJOR, nread := p.nread + 5), [], hc)
  {
    hide Reaches;
    var a := p.(state := REQ_HTTP_H, nread := p.nread + 1);
    var b := p.(state := REQ_HTTP_HT, nread := p.nread + 2);
    var c := p.(state := REQ_HTTP_HTT, nread := p.nread + 3);
    var d := p.(state := REQ_HTTP_HTTP, nread := p.nread + 4);
    var e := p.(state := REQ_FIRST_HTTP_MAJOR, nread := p.nread + 5);
    FixedByte(p, 'H', a, hc);
    FixedByte(a, 'T', b, hc);
    FixedByte(b, 'T', c, hc);
    FixedByte(c, 'P', d, hc);
    FixedByte(d, '/', e, hc);
    NothingJoined();
    ReachesThen(p, "H", a, [], "T", b, [], hc);
    ReachesThen(p, "H" + "T", b, [], "T", c, [], hc);
    ReachesThen(p, "H" + "T" + "T", c, [], "P", d, [], hc);
    ReachesThen(p, "H" + "T" + "T" + "P", d, [], "/", e, [], hc);
    assert "H" + "T" + "T" + "P" + "/" == HTTP_SLASH;
  }

  lemma FixedByte(p: Parser, ch: byte, q: Parser, hc: HeadersAnswer)
    requires p.nread < MAX_HEADER_SIZE
    requires || (p.state == REQ_HTTP_START && ch == 'H' && q == p.(state := REQ_HTTP_H, nread := p.nread + 1))
             || (p.state == REQ_HTTP_H && ch == 'T' && q == p.(state := REQ_HTTP_HT, nread := p.nread + 1))
             || (p.state == REQ_HTTP_HT && ch == 'T' && q == p.(state := REQ_HTTP_HTT, nread := p.nread + 1))
             || (p.state == REQ_HTTP_HTT && ch == 'P' && q == p.(state := REQ_HTTP_HTTP, nread := p.nread + 1))
             || (p.state == REQ_HTTP_HTTP && ch == '/' && q == p.(state := REQ_FIRST_HTTP_MAJOR, nread := p.nread + 1))
    ensures Reaches(p, [ch], q, [], hc)
  {
    var c := CountHeaderByte(p);
    assert Switch(c, ch, 1, hc) == RequestLine(c, ch);
    ReachesByte(p, ch, q, [], hc);
  }

  /** A version: the digits before and after the dot. */
  datatype Version = Version(major: seq<byte>, minor: seq<byte>)

  predicate SmallNumber(s: seq<byte>) {
    s != [] && (forall i :: 0 <= i < |s| ==> IsNum(s[i])) && DecValue(s) <= 999
  }

  predicate ValidVersion(v: Version, request: bool) {
    SmallNumber(v.major) && SmallNumber(v.minor) && (request ==> v.major[0] != '0')
  }

  lemma FrontIsSmall(s: seq<byte>)
    requires SmallNumber(s) && |s| > 1
    ensures SmallNumber(s[..|s| - 1]) && DecValue(s) == DecValue(s[..|s| - 1]) * 10 + Digit(s[|s| - 1])
  {
  }

  function FirstMajor(request: bool): State { if request then REQ_FIRST_HTTP_MAJOR else RES_FIRST_HTTP_MAJOR }
  function Major(request: bool): State { if request then REQ_HTTP_MAJOR else RES_HTTP_MAJOR }
  function FirstMinor(request: bool): State { if request then REQ_FIRST_HTTP_MINOR else RES_FIRST_HTTP_MINOR }
  function Minor(request: bool): State { if request then REQ_HTTP_MINOR else RES_HTTP_MINOR }

  lemma VersionPass(p: Parser, ch: byte, q: Parser, request: bool, hc: HeadersAnswer)
    requires
      || (p.state == FirstMajor(request) && IsNum(ch) && (request ==> ch != '0')
          && q == p.(state := Major(request), httpMajor := Digit(ch)))
      || (p.state == Major(request) && IsNum(ch) && p.httpMajor * 10 + Digit(ch) <= 999
          && q == p.(httpMajor := p.httpMajor * 10 + Digit(ch)))
      || (p.state == Major(request) && ch == '.' && q == p.(state := FirstMinor(request)))
      || (p.state == FirstMinor(request) && IsNum(ch)
          && q == p.(state := Minor(request), httpMinor := Digit(ch)))
      || (p.state == Minor(request) && IsNum(ch) && p.httpMinor * 10 + Digit(ch) <= 999
          && q == p.(httpMinor := p.httpMinor * 10 + Digit(ch)))
    ensures Switch(p, ch, 1, hc) == Go(q)
  {
    if request {
      assert Switch(p, ch, 1, hc) == RequestLine(p, ch);
    } else {
      assert Switch(p, ch, 1, hc) == StatusLine(p, ch);
    }
  }

  lemma VersionByte(p: Parser, ch: byte, q: Parser, request: bool, hc: HeadersAnswer)
    requires p.nread < MAX_HEADER_SIZE
    requires
      || (p.state == FirstMajor(request) && IsNum(ch) && (request ==> ch != '0')
          && q == p.(state := Major(request), httpMajor := Digit(ch), nread := p.nread + 1))
      || (p.state == Major(request) && IsNum(ch) && p.httpMajor * 10 + Digit(ch) <= 999
          && q == p.(httpMajor := p.httpMajor * 10 + Digit(ch), nread := p.nread + 1))
      || (p.state == Major(request) && ch == '.' && q == p.(state := FirstMinor(request), nread := p.nread + 1))
      || (p.state == FirstMinor(request) && IsNum(ch)
          && q == p.(state := Minor(request), httpMinor := Digit(ch), nread := p.nread + 1))
      || (p.state == Minor(request) && IsNum(ch) && p.httpMinor * 10 + Digit(ch) <= 999
          && q == p.(httpMinor := p.httpMinor * 10 + Digit(ch), nread := p.nread + 1))
    ensures Reaches(p, [ch], q, [], hc)
  {
    var c := CountHeaderByte(p);
    VersionPass(c, ch, q, request, hc);
    hide Switch, Reaches;
    QuietByte(p, ch, q, hc);
  }

  lemma {:induction false} MajorRun(p: Parser, s: seq<byte>, request: bool, hc: HeadersAnswer)
    requires p.state == FirstMajor(request) && SmallNumber(s) && (request ==> s[0] != '0')
    requires p.nread + |s| <= MAX_HEADER_SIZE
    ensures Reaches(p, s, p.(state := Major(request), httpMajor := DecValue(s), nread := p.nread + |s|), [], hc)
    decreases |s|
  {
    hide Reaches;
    var front, last := s[..|s| - 1], s[|s| - 1];
    assert s == front + [last];
    var q := p.(state := Major(request), httpMajor := DecValue(s), nread := p.nread + |s|);
    if front == [] {
      assert s == [last];
      VersionByte(p, last, q, request, hc);
    } else {
      FrontIsSmall(s);
      MajorRun(p, front, request, hc);
      var r := p.(state := Major(request), httpMajor := DecValue(front), nread := p.nread + |front|);
      VersionByte(r, last, q, request, hc);
      NothingJoined();
      ReachesThen(p, front, r, [], [last], q, [], hc);
    }
  }

  lemma {:induction false} MinorRun(p: Parser, s: seq<byte>, request: bool, hc: HeadersAnswer)
    requires p.state == FirstMinor(request) && SmallNumber(s) && p.nread + |s| <= MAX_HEADER_SIZE
    ensures Reaches(p, s, p.(state := Minor(request), httpMinor := DecValue(s), nread := p.nread + |s|), [], hc)
    decreases |s|
  {
    hide Reaches;
    var front, last := s[..|s| - 1], s[|s| - 1];
    assert s == front + [last];
    var q := p.(state := Minor(request), httpMinor := DecValue(s), nread := p.nread + |s|);
    if front == [] {
      assert s == [last];
      VersionByte(p, last, q, request, hc);
    } else {
      FrontIsSmall(s);
      MinorRun(p, front, request, hc);
      var r := p.(state := Minor(request), httpMinor := DecValue(front), nread := p.nread + |front|);
      VersionByte(r, last, q, request, hc);
      NothingJoined();
      ReachesThen(p, front, r, [], [last], q, [], hc);
    }
  }

  function VersionText(v: Version): (s: seq<byte>)
    ensures |s| == |v.major| + |v.minor| + 1
  {
    v.major + "." + v.minor
  }

  /** The parser behind the version. */
  function AfterVersion(p: Parser, v: Version, request: bool): Parser
    requires ValidVersion(v, request)
  {
    p.(state := Minor(request), httpMajor := DecValue(v.major), httpMinor := DecValue(v.minor),
       nread := p.nread + |VersionText(v)|)
  }

  lemma VersionRun(p: Parser, v: Version, request: bool, hc: HeadersAnswer)
    requires p.state == FirstMajor(request) && ValidVersion(v, request) && p.nread + |VersionText(v)| <= MAX_HEADER_SIZE
    ensures Reaches(p, VersionText(v), AfterVersion(p, v, request), [], hc)
  {
    hide Reaches, DecValue;
    var a := p.(state := Major(request), httpMajor := DecValue(v.major), nread := p.nread + |v.major|);
    var b := a.(state := FirstMinor(request), nread := a.nread + 1);
    MajorRun(p, v.major, request, hc);
    VersionByte(a, '.', b, request, hc);
    MinorRun(b, v.minor, request, hc);
    NothingJoined();
    ReachesThen(p, v.major, a, [], ".", b, [], hc);
    ReachesThen(p, v.major + ".", b, [], v.minor, AfterVersion(p, v, request), [], hc);
  }

  // ---- the request line ----

  /** What follows the URL: nothing, or spaces and a version. */
  datatype Protocol = Simple | Versioned(spaces: seq<byte>, version: Version)

  predicate ValidProtocol(t: Protocol) {
    t.Versioned? ==> Spaces(t.spaces) && ValidVersion(t.version, true)
  }

  function ProtocolText(t: Protocol): seq<byte> {
    match t
    case Simple => []
    case Versioned(spaces, v) => " " + spaces + HTTP_SLASH + VersionText(v)
  }

  /** A request without a version is one of HTTP/0.9. */
  function MajorOf(t: Protocol): nat
    requires ValidProtocol(t)
  {
    if t.Simple? then 0 else DecValue(t.version.major)
  }

  function MinorOf(t: Protocol): nat
    requires ValidProtocol(t)
  {
    if t.Simple? then 9 else DecValue(t.version.minor)
  }

  function RequestText(m: Method, spaces: seq<byte>, url: seq<byte>, t: Protocol, end: End): seq<byte> {
    MethodString(m) + " " + spaces + url + (ProtocolText(t) + EndText(end))
  }

  lemma LineEndByte(p: Parser, ch: byte, q: Parser, hc: HeadersAnswer)
    requires p.nread < MAX_HEADER_SIZE
    requires || (p.state == REQ_HTTP_MINOR && ch == CR && q == p.(state := REQ_LINE_ALMOST_DONE, nread := p.nread + 1))
             || (p.state == REQ_HTTP_MINOR && ch == LF && q == p.(state := HEADER_FIELD_START, nread := p.nread + 1))
             || (p.state == REQ_LINE_ALMOST_DONE && ch == LF
                 && q == p.(state := HEADER_FIELD_START, nread := p.nread + 1))
    ensures Reaches(p, [ch], q, [], hc)
  {
    var c := CountHeaderByte(p);
    assert Switch(c, ch, 1, hc) == RequestLine(c, ch);
    hide Switch;
    ReachesByte(p, ch, q, [], hc);
  }

  lemma SimpleEndByte(p: Parser, ch: byte, hc: HeadersAnswer)
    requires UrlEnds(p.state) && p.nread < MAX_HEADER_SIZE && (ch == CR || ch == LF)
    ensures Reaches(p, [ch], p.(state := if ch == CR then REQ_LINE_ALMOST_DONE else HEADER_FIELD_START,
                                httpMajor := 0, httpMinor := 9, nread := p.nread + 1), [], hc)
  {
    var c := CountHeaderByte(p);
    assert Switch(c, ch, 1, hc) == AtUrl(c, ch);
    hide Switch;
    ReachesByte(p, ch, Step(p, ch, hc).parser, [], hc);
  }

  /** From the end of the URL to the end of a line without a version, and from the end of the
      version to the end of a line with one. */
  lemma RequestLineEnd(p: Parser, end: End, q: Parser, hc: HeadersAnswer)
    requires p.state == REQ_HTTP_MINOR || UrlEnds(p.state)
    requires p.nread + |EndText(end)| <= MAX_HEADER_SIZE
    requires var r := p.(state := HEADER_FIELD_START, nread := p.nread + |EndText(end)|);
      q == if p.state == REQ_HTTP_MINOR then r else r.(httpMajor := 0, httpMinor := 9)
    ensures Reaches(p, EndText(end), q, [], hc)
  {
    hide Reaches, UrlEnds;
    if end.Crlf? {
      var a := q.(state := REQ_LINE_ALMOST_DONE, nread := p.nread + 1);
      if p.state == REQ_HTTP_MINOR {
        LineEndByte(p, CR, a, hc);
      } else {
        SimpleEndByte(p, CR, hc);
      }
      LineEndByte(a, LF, q, hc);
      NothingJoined();
      ReachesThen(p, [CR], a, [], [LF], q, [], hc);
      assert [CR] + [LF] == CRLF;
    } else if p.state == REQ_HTTP_MINOR {
      LineEndByte(p, LF, q, hc);
    } else {
      SimpleEndByte(p, LF, hc);
    }
  }

  /** Behind the URL. */
  lemma ProtocolRun(p: Parser, t: Protocol, end: End, q: Parser, hc: HeadersAnswer)
    requires UrlEnds(p.state) && ValidProtocol(t) && p.nread + |ProtocolText(t)| + |EndText(end)| <= MAX_HEADER_SIZE
    requires q == p.(state := HEADER_FIELD_START, httpMajor := MajorOf(t), httpMinor := MinorOf(t),
                     nread := p.nread + |ProtocolText(t)| + |EndText(end)|)
    ensures Reaches(p, ProtocolText(t) + EndText(end), q, [], hc)
  {
    hide Reaches, DecValue, VersionText, SmallNumber;
    if t.Simple? {
      RequestLineEnd(p, end, q, hc);
      assert [] + EndText(end) == EndText(end);
    } else {
      var v := VersionText(t.version);
      var b := p.(state := REQ_HTTP_START, nread := p.nread + 1);
      var c := b.(nread := b.nread + |t.spaces|);
      var d := c.(state := REQ_FIRST_HTTP_MAJOR, nread := c.nread + 5);
      var e := AfterVersion(d, t.version, true);
      UrlEnd(p, hc);
      SpacesRun(b, t.spaces, hc);
      HttpSlash(c, hc);
      VersionRun(d, t.version, true, hc);
      RequestLineEnd(e, end, q, hc);
      NothingJoined();
      ReachesThen(p, " ", b, [], t.spaces, c, [], hc);
      ReachesThen(p, " " + t.spaces, c, [], HTTP_SLASH, d, [], hc);
      ReachesThen(p, " " + t.spaces + HTTP_SLASH, d, [], v, e, [], hc);
      ReachesThen(p, " " + t.spaces + HTTP_SLASH + v, e, [], EndText(end), q, [], hc);
    }
  }

  /** The parser behind the request line. */
  function AfterRequestLine(p: Parser, m: Method, spaces: seq<byte>, url: seq<byte>, t: Protocol, end: End): Parser
    requires ValidProtocol(t)
  {
    Fresh(p).(state := HEADER_FIELD_START, verb := m, index := |MethodString(m)| + 1,
              httpMajor := MajorOf(t), httpMinor := MinorOf(t),
              nread := p.nread + |RequestText(m, spaces, url, t, end)|)
  }

  /** A request line announces the message and delivers its URL; the struct has the method and
      the version that the line says. */
  lemma RequestLineRun(p: Parser, m: Method, spaces: seq<byte>, url: seq<byte>, t: Protocol, end: End,
                       hc: HeadersAnswer)
    requires p.state == START_REQ && Spaces(spaces) && UrlAccepted(m, url) && ValidProtocol(t)
    requires p.nread + |RequestText(m, spaces, url, t, end)| <= MAX_HEADER_SIZE
    ensures Reaches(p, RequestText(m, spaces, url, t, end), AfterRequestLine(p, m, spaces, url, t, end),
                    [Note(MessageBegin)] + Bytes(Url, url), hc)
  {
    hide Reaches, MethodString, ParseUrlChar, Bytes, UrlFold, ProtocolText, MajorOf, MinorOf, ValidProtocol;
    var w := MethodString(m);
    var k := |w|;
    var a := Reading(p, m, k + 1).(state := REQ_SPACES_BEFORE_URL);
    var a1 := a.(nread := a.nread + |spaces|);
    var b := a1.(state := UrlFold(UrlStart(m), url), nread := a1.nread + |url|);
    var q := AfterRequestLine(p, m, spaces, url, t, end);
    MethodRun(p, m, hc);
    SpacesRun(a, spaces, hc);
    UrlRun(a1, url, hc);
    ProtocolRun(b, t, end, q, hc);
    NothingJoined();
    ReachesThen(p, w + " ", a, [Note(MessageBegin)], spaces, a1, [], hc);
    ReachesThen(p, w + " " + spaces, a1, [Note(MessageBegin)], url, b, Bytes(Url, url), hc);
    ReachesThen(p, w + " " + spaces + url, b, [Note(MessageBegin)] + Bytes(Url, url), ProtocolText(t) + EndText(end),
      q, [], hc);
  }

  // ---- the status line ----

  function StatusText(v: Version, spaces: seq<byte>, code: seq<byte>, tail: seq<byte>, end: End): seq<byte> {
    HTTP_SLASH + VersionText(v) + " " + spaces + code + tail + EndText(end)
  }

  /** What follows the status code: nothing, or a space and a reason. */
  predicate ValidTail(t: seq<byte>) { t == [] || (t[0] == ' ' && CR !in t && LF !in t) }

  lemma StatusByte(p: Parser, ch: byte, q: Parser, hc: HeadersAnswer)
    requires p.nread < MAX_HEADER_SIZE
    requires || (p.state == RES_H && ch == 'T' && q == p.(state := RES_HT, nread := p.nread + 1))
             || (p.state == RES_HT && ch == 'T' && q == p.(state := RES_HTT, nread := p.nread + 1))
             || (p.state == RES_HTT && ch == 'P' && q == p.(state := RES_HTTP, nread := p.nread + 1))
             || (p.state == RES_HTTP && ch == '/' && q == p.(state := RES_FIRST_HTTP_MAJOR, nread := p.nread + 1))
    ensures Reaches(p, [ch], q, [], hc)
  {
    var c := CountHeaderByte(p);
    assert Switch(c, ch, 1, hc) == Preamble(c, ch);
    ReachesByte(p, ch, q, [], hc);
  }

  lemma StatusStart(p: Parser, hc: HeadersAnswer)
    requires p.state == START_RES && p.nread < MAX_HEADER_SIZE
    ensures Reaches(p, "H", Fresh(p).(state := RES_H, nread := p.nread + 1), [Note(MessageBegin)], hc)
  {
    var c := CountHeaderByte(p);
    assert Switch(c, 'H', 1, hc) == AtStartRes(c, 'H');
    ReachesByte(p, 'H', Fresh(p).(state := RES_H, nread := p.nread + 1), [Note(MessageBegin)], hc);
  }

  lemma StatusSlash(p: Parser, hc: HeadersAnswer)
    requires p.state == START_RES && p.nread + 5 <= MAX_HEADER_SIZE
    ensures Reaches(p, HTTP_SLASH, Fresh(p).(state := RES_FIRST_HTTP_MAJOR, nread := p.nread + 5),
      [Note(MessageBegin)], hc)
  {
    hide Reaches;
    var a := Fresh(p).(state := RES_H, nread := p.nread + 1);
    var b := a.(state := RES_HT, nread := p.nread + 2);
    var c := a.(state := RES_HTT, nread := p.nread + 3);
    var d := a.(state := RES_HTTP, nread := p.nread + 4);
    var e := a.(state := RES_FIRST_HTTP_MAJOR, nread := p.nread + 5);
    StatusStart(p, hc);
    StatusByte(a, 'T', b, hc);
    StatusByte(b, 'T', c, hc);
    StatusByte(c, 'P', d, hc);
    StatusByte(d, '/', e, hc);
    NothingJoined();
    var begin := [Note(MessageBegin)];
    ReachesThen(p, "H", a, begin, "T", b, [], hc);
    ReachesThen(p, "H" + "T", b, begin, "T", c, [], hc);
    ReachesThen(p, "H" + "T" + "T", c, begin, "P", d, [], hc);
    ReachesThen(p, "H" + "T" + "T" + "P", d, begin, "/", e, [], hc);
    assert "H" + "T" + "T" + "P" + "/" == HTTP_SLASH;
  }

  lemma CodeByte(p: Parser, ch: byte, q: Parser, hc: HeadersAnswer)
    requires p.nread < MAX_HEADER_SIZE
    requires || (p.state == RES_HTTP_MINOR && ch == ' '
                 && q == p.(state := RES_FIRST_STATUS_CODE, nread := p.nread + 1))
             || (p.state == RES_FIRST_STATUS_CODE && IsNum(ch)
                 && q == p.(state := RES_STATUS_CODE, statusCode := Digit(ch), nread := p.nread + 1))
             || (p.state == RES_STATUS_CODE && IsNum(ch) && p.statusCode * 10 + Digit(ch) <= 999
                 && q == p.(statusCode := p.statusCode * 10 + Digit(ch), nread := p.nread + 1))
             || (p.state == RES_STATUS_CODE && ch == ' ' && q == p.(state := RES_STATUS, nread := p.nread + 1))
             || (p.state == RES_STATUS && ch != CR && ch != LF && q == p.(nread := p.nread + 1))
             || ((p.state == RES_STATUS_CODE || p.state == RES_STATUS) && ch == CR
                 && q == p.(state := RES_LINE_ALMOST_DONE, nread := p.nread + 1))
    ensures Reaches(p, [ch], q, [], hc)
  {
    var c := CountHeaderByte(p);
    assert Switch(c, ch, 1, hc) == StatusLine(c, ch);
    hide Switch;
    ReachesByte(p, ch, q, [], hc);
  }

  lemma {:induction false} CodeRun(p: Parser, s: seq<byte>, hc: HeadersAnswer)
    requires p.state == RES_FIRST_STATUS_CODE && SmallNumber(s) && p.nread + |s| <= MAX_HEADER_SIZE
    ensures Reaches(p, s, p.(state := RES_STATUS_CODE, statusCode := DecValue(s), nread := p.nread + |s|), [], hc)
    decreases |s|
  {
    hide Reaches;
    var front, last := s[..|s| - 1], s[|s| - 1];
    assert s == front + [last];
    var q := p.(state := RES_STATUS_CODE, statusCode := DecValue(s), nread := p.nread + |s|);
    if front == [] {
      assert s == [last];
      CodeByte(p, last, q, hc);
    } else {
      FrontIsSmall(s);
      CodeRun(p, front, hc);
      var r := p.(state := RES_STATUS_CODE, statusCode := DecValue(front), nread := p.nread + |front|);
      CodeByte(r, last, q, hc);
      NothingJoined();
      ReachesThen(p, front, r, [], [last], q, [], hc);
    }
  }

  lemma {:induction false} TailRun(p: Parser, t: seq<byte>, hc: HeadersAnswer)
    requires p.state == RES_STATUS_CODE && ValidTail(t) && p.nread + |t| <= MAX_HEADER_SIZE
    ensures Reaches(p, t, p.(state := if t == [] then RES_STATUS_CODE else RES_STATUS, nread := p.nread + |t|), [], hc)
    decreases |t|
  {
    if t == [] {
    } else {
      hide Reaches;
      var front, last := t[..|t| - 1], t[|t| - 1];
      assert t == front + [last];
      TailRun(p, front, hc);
      var r := p.(state := if front == [] then RES_STATUS_CODE else RES_STATUS, nread := p.nread + |front|);
      var q := p.(state := RES_STATUS, nread := p.nread + |t|);
      CodeByte(r, last, q, hc);
      NothingJoined();
      ReachesThen(p, front, r, [], [last], q, [], hc);
    }
  }

  /** A bare line feed ends the status line too, but then its end is not announced. */
  function StatusNote(end: End): seq<Atom> { if end.Crlf? then [Note(StatusComplete)] else [] }

  lemma StatusLf(p: Parser, hc: HeadersAnswer)
    requires p.state == RES_STATUS_CODE || p.state == RES_STATUS || p.state == RES_LINE_ALMOST_DONE
    requires p.nread < MAX_HEADER_SIZE
    ensures Reaches(p, [LF], p.(state := HEADER_FIELD_START, nread := p.nread + 1),
                    if p.state == RES_LINE_ALMOST_DONE then [Note(StatusComplete)] else [], hc)
  {
    var c := CountHeaderByte(p);
    assert Switch(c, LF, 1, hc) == StatusLine(c, LF);
    hide Switch;
    ReachesByte(p, LF, c.(state := HEADER_FIELD_START),
      if p.state == RES_LINE_ALMOST_DONE then [Note(StatusComplete)] else [], hc);
  }

  lemma StatusLineEnd(p: Parser, end: End, hc: HeadersAnswer)
    requires p.state == RES_STATUS_CODE || p.state == RES_STATUS
    requires p.nread + |EndText(end)| <= MAX_HEADER_SIZE
    ensures Reaches(p, EndText(end), p.(state := HEADER_FIELD_START, nread := p.nread + |EndText(end)|),
      StatusNote(end), hc)
  {
    hide Reaches;
    var q := p.(state := HEADER_FIELD_START, nread := p.nread + |EndText(end)|);
    if end.Crlf? {
      var a := p.(state := RES_LINE_ALMOST_DONE, nread := p.nread + 1);
      CodeByte(p, CR, a, hc);
      StatusLf(a, hc);
      NothingJoined();
      ReachesThen(p, [CR], a, [], [LF], q, [Note(StatusComplete)], hc);
      assert [CR] + [LF] == CRLF;
    } else {
      StatusLf(p, hc);
    }
  }

  /** The parser behind the status line. */
  function AfterStatusLine(p: Parser, v: Version, spaces: seq<byte>, code: seq<byte>, tail: seq<byte>, end: End): Parser
    requires ValidVersion(v, false) && SmallNumber(code)
  {
    Fresh(p).(state := HEADER_FIELD_START, httpMajor := DecValue(v.major), httpMinor := DecValue(v.minor),
              statusCode := DecValue(code), nread := p.nread + |StatusText(v, spaces, code, tail, end)|)
  }

  /** A status line announces the message; the struct has the version and the status code that
      the line says. */
  lemma StatusLineRun(p: Parser, v: Version, spaces: seq<byte>, code: seq<byte>, tail: seq<byte>, end: End,
                      hc: HeadersAnswer)
    requires p.state == START_RES && ValidVersion(v, false) && Spaces(spaces) && SmallNumber(code) && ValidTail(tail)
    requires p.nread + |StatusText(v, spaces, code, tail, end)| <= MAX_HEADER_SIZE
    ensures Reaches(p, StatusText(v, spaces, code, tail, end), AfterStatusLine(p, v, spaces, code, tail, end),
                    [Note(MessageBegin)] + StatusNote(end), hc)
  {
    hide Reaches, DecValue, VersionText, StatusNote;
    var t := VersionText(v);
    var a := Fresh(p).(state := RES_FIRST_HTTP_MAJOR, nread := p.nread + 5);
    var b := AfterVersion(a, v, false);
    var c0 := b.(state := RES_FIRST_STATUS_CODE, nread := b.nread + 1);
    var c := c0.(nread := c0.nread + |spaces|);
    var d := c.(state := RES_STATUS_CODE, statusCode := DecValue(code), nread := c.nread + |code|);
    var e := d.(state := if tail == [] then RES_STATUS_CODE else RES_STATUS, nread := d.nread + |tail|);
    StatusSlash(p, hc);
    VersionRun(a, v, false, hc);
    CodeByte(b, ' ', c0, hc);
    SpacesRun(c0, spaces, hc);
    CodeRun(c, code, hc);
    TailRun(d, tail, hc);
    StatusLineEnd(e, end, hc);
    var begin := [Note(MessageBegin)];
    NothingJoined();
    ReachesThen(p, HTTP_SLASH, a, begin, t, b, [], hc);
    ReachesThen(p, HTTP_SLASH + t, b, begin, " ", c0, [], hc);
    ReachesThen(p, HTTP_SLASH + t + " ", c0, begin, spaces, c, [], hc);
    ReachesThen(p, HTTP_SLASH + t + " " + spaces, c, begin, code, d, [], hc);
    ReachesThen(p, HTTP_SLASH + t + " " + spaces + code, d, begin, tail, e, [], hc);
    ReachesThen(p, HTTP_SLASH + t + " " + spaces + code + tail, e, begin, EndText(end),
                AfterStatusLine(p, v, spaces, code, tail, end), StatusNote(end), hc);
  }
}
