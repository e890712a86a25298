/** The data of the HTTP/1.x parser: its enumerations, the parser struct as a value,
    the character tables (strict build) and the events its callbacks receive. */
module HttpTypes {
  import opened CBytes

  const MAX_HEADER_SIZE: nat := 80 * 1024
  const ULLONG_MAX: nat := 0xFFFF_FFFF_FFFF_FFFF

  type uint64 = n: int | 0 <= n <= ULLONG_MAX

  const CR: char := '\r'
  const LF: char := '\n'

  datatype ParserType = Request | Response | Both

  /** The states, numbered as in the source, which compares them: every state up to
      `HEADERS_DONE` is a header state, every later one a body state. */
  type State = s: int | 1 <= s <= 58 witness 1

  const DEAD: State := 1
  const START_REQ_OR_RES: State := 2
  const RES_OR_RESP_H: State := 3
  const START_RES: State := 4
  const RES_H: State := 5
  const RES_HT: State := 6
  const RES_HTT: State := 7
  const RES_HTTP: State := 8
  const RES_FIRST_HTTP_MAJOR: State := 9
  const RES_HTTP_MAJOR: State := 10
  const RES_FIRST_HTTP_MINOR: State := 11
  const RES_HTTP_MINOR: State := 12
  const RES_FIRST_STATUS_CODE: State := 13
  const RES_STATUS_CODE: State := 14
  const RES_STATUS: State := 15
  const RES_LINE_ALMOST_DONE: State := 16
  const START_REQ: State := 17
  const REQ_METHOD: State := 18
  const REQ_SPACES_BEFORE_URL: State := 19
  const REQ_SCHEMA: State := 20
  const REQ_SCHEMA_SLASH: State := 21
  const REQ_SCHEMA_SLASH_SLASH: State := 22
  const REQ_SERVER_START: State := 23
  const REQ_SERVER: State := 24
  const REQ_SERVER_WITH_AT: State := 25
  const REQ_PATH: State := 26
  const REQ_QUERY_STRING_START: State := 27
  const REQ_QUERY_STRING: State := 28
  const REQ_FRAGMENT_START: State := 29
  const REQ_FRAGMENT: State := 30
  const REQ_HTTP_START: State := 31
  const REQ_HTTP_H: State := 32
  const REQ_HTTP_HT: State := 33
  const REQ_HTTP_HTT: State := 34
  const REQ_HTTP_HTTP: State := 35
  const REQ_FIRST_HTTP_MAJOR: State := 36
  const REQ_HTTP_MAJOR: State := 37
  const REQ_FIRST_HTTP_MINOR: State := 38
  const REQ_HTTP_MINOR: State := 39
  const REQ_LINE_ALMOST_DONE: State := 40
  const HEADER_FIELD_START: State := 41
  const HEADER_FIELD: State := 42
  const HEADER_VALUE_START: State := 43
  const HEADER_VALUE: State := 44
  const HEADER_VALUE_LWS: State := 45
  const HEADER_ALMOST_DONE: State := 46
  const CHUNK_SIZE_START: State := 47
  const CHUNK_SIZE: State := 48
  const CHUNK_PARAMETERS: State := 49
  const CHUNK_SIZE_ALMOST_DONE: State := 50
  const HEADERS_ALMOST_DONE: State := 51
  const HEADERS_DONE: State := 52
  const CHUNK_DATA: State := 53
  const CHUNK_DATA_ALMOST_DONE: State := 54
  const CHUNK_DATA_DONE: State := 55
  const BODY_IDENTITY: State := 56
  const BODY_IDENTITY_EOF: State := 57
  const MESSAGE_DONE: State := 58

  predicate ParsingHeader(s: State) { s <= HEADERS_DONE }

  /** The states in which a URL is being read. */
  predicate UrlState(s: State) { REQ_SCHEMA <= s <= REQ_FRAGMENT }

  /** The states in which body bytes are consumed in bulk. */
  predicate BodyState(s: State) {
    s == CHUNK_DATA || s == BODY_IDENTITY || s == BODY_IDENTITY_EOF
  }

  datatype HeaderMatch =
    | General
    | C | CO | CON
    | MatchingConnection | MatchingProxyConnection | MatchingContentLength
    | MatchingTransferEncoding | MatchingUpgrade
    | Connection | ContentLength | TransferEncoding | Upgrade
    | MatchingChunked | MatchingKeepAlive | MatchingClose
    | Chunked | KeepAlive | Close

  datatype Method =
    | DELETE | GET | HEAD | POST | PUT
    | CONNECT | OPTIONS | TRACE
    | COPY | LOCK | MKCOL | MOVE | PROPFIND | PROPPATCH | SEARCH | UNLOCK
    | REPORT | MKACTIVITY | CHECKOUT | MERGE
    | MSEARCH | NOTIFY | SUBSCRIBE | UNSUBSCRIBE
    | PATCH | PURGE

  function MethodString(m: Method): seq<byte> {
    match m
    case DELETE => "DELETE"
    case GET => "GET"
    case HEAD => "HEAD"
    case POST => "POST"
    case PUT => "PUT"
    case CONNECT => "CONNECT"
    case OPTIONS => "OPTIONS"
    case TRACE => "TRACE"
    case COPY => "COPY"
    case LOCK => "LOCK"
    case MKCOL => "MKCOL"
    case MOVE => "MOVE"
    case PROPFIND => "PROPFIND"
    case PROPPATCH => "PROPPATCH"
    case SEARCH => "SEARCH"
    case UNLOCK => "UNLOCK"
    case REPORT => "REPORT"
    case MKACTIVITY => "MKACTIVITY"
    case CHECKOUT => "CHECKOUT"
    case MERGE => "MERGE"
    case MSEARCH => "M-SEARCH"
    case NOTIFY => "NOTIFY"
    case SUBSCRIBE => "SUBSCRIBE"
    case UNSUBSCRIBE => "UNSUBSCRIBE"
    case PATCH => "PATCH"
    case PURGE => "PURGE"
  }

  datatype Errno =
    | OK
    | INVALID_EOF_STATE | HEADER_OVERFLOW | CLOSED_CONNECTION
    | INVALID_VERSION | INVALID_STATUS | INVALID_METHOD | INVALID_URL
    | LF_EXPECTED | INVALID_HEADER_TOKEN | INVALID_CONTENT_LENGTH | INVALID_CHUNK_SIZE
    | INVALID_CONSTANT | STRICT

  datatype Flags = Flags(
    chunked: bool, keepAlive: bool, close: bool, trailing: bool, upgrade: bool, skipBody: bool)

  const NO_FLAGS := Flags(false, false, false, false, false, false)

  /** The parser struct: all that survives from one call to the next. */
  datatype Parser = Parser(
    ptype: ParserType, flags: Flags, state: State, headerState: HeaderMatch, index: nat,
    nread: nat, contentLength: uint64,
    httpMajor: nat, httpMinor: nat, statusCode: nat, verb: Method,
    errno: Errno, upgrade: bool)

  /** A zeroed struct of the given type, in its start state. */
  function InitialParser(t: ParserType): Parser {
    Parser(t, NO_FLAGS,
           match t case Request => START_REQ case Response => START_RES case Both => START_REQ_OR_RES,
           General, 0, 0, 0, 0, 0, 0, DELETE, OK, false)
  }

  /** The application's answer to the headers-complete callback: true when it answers 1,
      "this message has no body". */
  type HeadersAnswer = Parser -> bool

  datatype DataKind = Url | Field | Value | Body
  datatype Notice = MessageBegin | StatusComplete | HeadersComplete | MessageComplete

  /** What the application sees: one entry per callback. */
  datatype Event = Data(kind: DataKind, bytes: seq<byte>) | Notify(notice: Notice)

  // ---- character classes ----

  /** `c | 0x20` */
  function Lower(c: byte): char {
    if (c as int / 32) % 2 == 1 then c else (c as int + 32) as char
  }

  predicate IsAlpha(c: byte) { 'a' <= Lower(c) <= 'z' }

  predicate IsAlphaNum(c: byte) { IsAlpha(c) || IsNum(c) }

  predicate IsHex(c: byte) { IsNum(c) || 'a' <= Lower(c) <= 'f' }

  predicate IsMark(c: byte) {
    c == '-' || c == '_' || c == '.' || c == '!' || c == '~' ||
    c == '*' || c == '\'' || c == '(' || c == ')'
  }

  predicate IsUserInfoChar(c: byte) {
    IsAlphaNum(c) || IsMark(c) || c == '%' || c == ';' || c == ':' ||
    c == '&' || c == '=' || c == '+' || c == '$' || c == ','
  }

  predicate IsHostChar(c: byte) { IsAlphaNum(c) || c == '.' || c == '-' }

  predicate IsUrlChar(c: byte) { '!' <= c <= '~' && c != '#' && c != '?' }

  /** The token table: the lower-case form of a token character, NUL for any other. */
  function Token(c: byte): char {
    if 'A' <= c <= 'Z' then (c as int + 32) as char
    else if 'a' <= c <= 'z' || IsNum(c) ||
            c == '!' || ('#' <= c <= '\'') || c == '*' || c == '+' || c == '-' || c == '.' ||
            c == '^' || c == '_' || c == '`' || c == '|' || c == '~' then c
    else '\0'
  }

  /** The table has 256 entries but only 128 initialisers, so bytes from 128 up are digit 0. */
  function Unhex(c: byte): (d: int)
    ensures -1 <= d <= 15
    ensures d == -1 <==> c as int < 128 && !IsHex(c)
  {
    if IsNum(c) then c as int - '0' as int
    else if 'A' <= c <= 'F' then c as int - 'A' as int + 10
    else if 'a' <= c <= 'f' then c as int - 'a' as int + 10
    else if c as int >= 128 then 0
    else -1
  }

  /** One step of the URL recogniser; `DEAD` means the character is not allowed. */
  function ParseUrlChar(s: State, ch: byte): State {
    if ch == ' ' || ch == CR || ch == LF || ch == '\t' || ch == '\U{000C}' then DEAD
    else match s
      case REQ_SPACES_BEFORE_URL =>
        if ch == '/' || ch == '*' then REQ_PATH
        else if IsAlpha(ch) then REQ_SCHEMA
        else DEAD
      case REQ_SCHEMA =>
        if IsAlpha(ch) then s
        else if ch == ':' then REQ_SCHEMA_SLASH
        else DEAD
      case REQ_SCHEMA_SLASH => if ch == '/' then REQ_SCHEMA_SLASH_SLASH else DEAD
      case REQ_SCHEMA_SLASH_SLASH => if ch == '/' then REQ_SERVER_START else DEAD
      case REQ_SERVER_WITH_AT => if ch == '@' then DEAD else ParseServerChar(ch)
      case REQ_SERVER_START => ParseServerChar(ch)
      case REQ_SERVER => ParseServerChar(ch)
      case REQ_PATH =>
        if IsUrlChar(ch) then s
        else if ch == '?' then REQ_QUERY_STRING_START
        else if ch == '#' then REQ_FRAGMENT_START
        else DEAD
      case REQ_QUERY_STRING_START => ParseQueryChar(ch)
      case REQ_QUERY_STRING => ParseQueryChar(ch)
      case REQ_FRAGMENT_START =>
        if IsUrlChar(ch) || ch == '?' then REQ_FRAGMENT
        else if ch == '#' then s
        else DEAD
      case REQ_FRAGMENT =>
        if IsUrlChar(ch) || ch == '?' || ch == '#' then s else DEAD
      case _ => DEAD
  }

  function ParseServerChar(ch: byte): State {
    if ch == '/' then REQ_PATH
    else if ch == '?' then REQ_QUERY_STRING_START
    else if ch == '@' then REQ_SERVER_WITH_AT
    else if IsUserInfoChar(ch) || ch == '[' || ch == ']' then REQ_SERVER
    else DEAD
  }

  function ParseQueryChar(ch: byte): State {
    if IsUrlChar(ch) || ch == '?' then REQ_QUERY_STRING
    else if ch == '#' then REQ_FRAGMENT_START
    else DEAD
  }

  /** Does the parser need an EOF to find the end of the message? */
  predicate MessageNeedsEof(p: Parser) {
    if p.ptype.Request? then false
    else if p.statusCode / 100 == 1 || p.statusCode == 204 || p.statusCode == 304 || p.flags.skipBody then false
    else !(p.flags.chunked || p.contentLength != ULLONG_MAX)
  }

  predicate ShouldKeepAlive(p: Parser) {
    if p.httpMajor > 0 && p.httpMinor > 0 then
      !p.flags.close && !MessageNeedsEof(p)
    else
      p.flags.keepAlive && !MessageNeedsEof(p)
  }

  /** The state in which the parser waits for the next message. */
  function NewMessage(p: Parser): State {
    if ShouldKeepAlive(p) then (if p.ptype.Request? then START_REQ else START_RES) else DEAD
  }
}
