/** Splitting a URL into its fields: the main loop drives the URL recogniser, a second loop
    takes the authority apart into user info, host and port. */
module HttpUrl {
  import opened CBytes
  import opened HttpTypes

  datatype UrlField = Schema | Host | Port | Path | Query | Fragment | UserInfo

  datatype Span = Span(off: nat, len: nat) {
    function End(): nat { off + len }
  }

  /** The result struct; a field that was never written has the zero span. */
  datatype UrlParts = UrlParts(fieldSet: set<UrlField>, port: nat, data: map<UrlField, Span>) {
    function At(f: UrlField): Span { if f in data then data[f] else Span(0, 0) }

    function With(f: UrlField, s: Span): UrlParts { this.(data := data[f := s]) }

    function Set(f: UrlField, s: Span): UrlParts { With(f, s).(fieldSet := fieldSet + {f}) }

    function Grown(f: UrlField): UrlParts { With(f, Span(At(f).off, At(f).len + 1)) }
  }

  const ZEROED := UrlParts({}, 0, map[])

  datatype HostState =
    | HostDead
    | UserInfoStart | InUserInfo
    | HostStart | V6Start | InHost | InV6 | V6End
    | PortStart | InPort

  function ParseHostChar(s: HostState, ch: byte): HostState {
    if s.InUserInfo? || s.UserInfoStart? then
      if ch == '@' then HostStart
      else if IsUserInfoChar(ch) then InUserInfo
      else HostDead
    else if s.HostStart? then
      if ch == '[' then V6Start
      else if IsHostChar(ch) then InHost
      else HostDead
    else if s.InHost? && IsHostChar(ch) then InHost
    else if s.InHost? || s.V6End? then
      if ch == ':' then PortStart else HostDead
    else if s.InV6? && ch == ']' then V6End
    else if s.InV6? || s.V6Start? then
      if IsHex(ch) || ch == ':' || ch == '.' then InV6 else HostDead
    else if s.InPort? || s.PortStart? then
      if IsNum(ch) then InPort else HostDead
    else HostDead
  }

  predicate Delimiter(c: byte) {
    c == ':' || c == '/' || c == '?' || c == '#' || c == '@' || c == '[' || c == ']'
  }

  // ---- what a split is ----

  /** The place of a field in a URL. */
  function Order(f: UrlField): nat {
    match f
    case Schema => 0
    case UserInfo => 1
    case Host => 2
    case Port => 3
    case Path => 4
    case Query => 5
    case Fragment => 6
  }

  /** Every set field is a non-empty slice of the first `end` bytes. */
  ghost predicate Inside(u: UrlParts, end: nat) {
    forall f :: f in u.fieldSet ==> 0 < u.At(f).len && u.At(f).End() <= end
  }

  /** The fields do not overlap and come in the order of a URL. */
  ghost predicate InOrder(u: UrlParts) {
    forall f, g :: f in u.fieldSet && g in u.fieldSet && Order(f) < Order(g) ==> u.At(f).End() <= u.At(g).off
  }

  ghost predicate Covers(u: UrlParts, j: nat) {
    exists f :: f in u.fieldSet && u.At(f).off <= j < u.At(f).End()
  }

  /** Nothing but delimiters is outside the fields, from `start` to `end`. */
  ghost predicate Complete(buf: seq<byte>, u: UrlParts, start: nat, end: nat)
    requires end <= |buf|
  {
    forall j :: start <= j < end ==> Covers(u, j) || Delimiter(buf[j])
  }

  // ---- the authority ----

  /** The three fields that the host loop writes; a field is set when it is not empty. */
  datatype Authority = Authority(user: Span, host: Span, port: Span)

  predicate InSpan(s: Span, j: nat) { s.off <= j < s.End() }

  /** Two fields, the second of which comes after the first if both are set. */
  predicate Before(s: Span, t: Span) { s.len > 0 && t.len > 0 ==> s.End() <= t.off }

  predicate Within(s: Span, start: nat, end: nat) { s.len > 0 ==> start <= s.off && s.End() <= end }

  ghost predicate Digits(buf: seq<byte>, s: Span) {
    forall j :: s.off <= j < s.End() && j < |buf| ==> IsNum(buf[j])
  }

  /** The host loop, at position `i` of the authority that starts at `start`. */
  ghost predicate HostLoop(buf: seq<byte>, a: Authority, s: HostState, start: nat, i: nat)
    requires start <= i <= |buf|
  {
    && Within(a.user, start, i) && Within(a.host, start, i) && Within(a.port, start, i)
    && Before(a.user, a.host) && Before(a.user, a.port) && Before(a.host, a.port)
    && (forall j :: start <= j < i ==> InSpan(a.user, j) || InSpan(a.host, j) || InSpan(a.port, j) || Delimiter(buf[j]))
    && (s.UserInfoStart? ==> a.user.len == 0)
    && (s.InUserInfo? ==> a.user.len > 0 && a.user.End() == i)
    && (s.UserInfoStart? || s.InUserInfo? || s.HostStart? || s.V6Start? ==> a.host.len == 0)
    && (s.InHost? || s.InV6? ==> a.host.len > 0 && a.host.End() == i)
    && (s.V6End? || s.PortStart? ==> a.host.len > 0)
    && (s.InPort? ==> a.host.len > 0 && a.port.len > 0 && a.port.End() == i)
    && (!s.InPort? ==> a.port.len == 0)
    && Digits(buf, a.port)
    && !s.HostDead?
  }

  /** Which moves of the host machine there are, and on which characters. */
  lemma HostMoves(s: HostState, ch: byte)
    ensures match ParseHostChar(s, ch)
      case InHost => s.HostStart? || s.InHost?
      case InV6 => s.V6Start? || s.InV6?
      case InPort => (s.PortStart? || s.InPort?) && IsNum(ch)
      case InUserInfo => s.UserInfoStart? || s.InUserInfo?
      case HostStart => (s.UserInfoStart? || s.InUserInfo?) && ch == '@'
      case V6Start => s.HostStart? && ch == '['
      case V6End => s.InV6? && ch == ']'
      case PortStart => (s.InHost? || s.V6End?) && ch == ':'
      case HostDead => true
      case UserInfoStart => false
  {
  }

  function Grown(s: Span, entered: bool, i: nat): Span {
    if entered then Span(i, 1) else Span(s.off, s.len + 1)
  }

  /** What a move into `t` at position `i` does to the fields. */
  function Extended(a: Authority, s: HostState, t: HostState, i: nat): Authority {
    match t
    case InHost => a.(host := Grown(a.host, s != InHost, i))
    case InV6 => a.(host := Grown(a.host, s != InV6, i))
    case InPort => a.(port := Grown(a.port, s != InPort, i))
    case InUserInfo => a.(user := Grown(a.user, s != InUserInfo, i))
    case _ => a
  }

  lemma HostStep(buf: seq<byte>, a: Authority, s: HostState, t: HostState, start: nat, i: nat)
    requires start <= i < |buf| && HostLoop(buf, a, s, start, i)
    requires t == ParseHostChar(s, buf[i]) && t != HostDead
    ensures HostLoop(buf, Extended(a, s, t, i), t, start, i + 1)
  {
    hide ParseHostChar;
    HostMoves(s, buf[i]);
  }

  lemma NotDead(buf: seq<byte>, a: Authority, s: HostState, start: nat, i: nat)
    requires start <= i <= |buf| && HostLoop(buf, a, s, start, i)
    ensures s != HostDead
  {
  }

  lemma HostEntry(buf: seq<byte>, a: Authority, s: HostState, start: nat, i: nat)
    requires start <= i < |buf| && HostLoop(buf, a, s, start, i)
    ensures ParseHostChar(s, buf[i]) == InHost && s != InHost ==> a.host.len == 0
    ensures ParseHostChar(s, buf[i]) == InV6 && s != InV6 ==> a.host.len == 0
  {
    hide ParseHostChar;
    HostMoves(s, buf[i]);
  }

  /** The authority taken apart: a host that is not empty, the fields in order and inside it,
      a port of digits that ends it, and nothing but delimiters elsewhere. */
  ghost predicate Split(buf: seq<byte>, region: Span, a: Authority)
    requires region.End() <= |buf|
  {
    && a.host.len > 0
    && Within(a.user, region.off, region.End()) && Within(a.host, region.off, region.End())
    && Within(a.port, region.off, region.End())
    && Before(a.user, a.host) && Before(a.user, a.port) && Before(a.host, a.port)
    && Digits(buf, a.port) && (a.port.len > 0 ==> a.port.End() == region.End())
    && forall j :: region.off <= j < region.End() ==>
         InSpan(a.user, j) || InSpan(a.host, j) || InSpan(a.port, j) || Delimiter(buf[j])
  }

  lemma HostBegins(buf: seq<byte>, a: Authority, s: HostState, region: Span)
    requires region.End() <= |buf| && (s == UserInfoStart || s == HostStart)
    requires a == Authority(Span(0, 0), Span(region.off, 0), Span(0, 0))
    ensures HostLoop(buf, a, s, region.off, region.off)
  {
  }

  lemma HostEnds(buf: seq<byte>, a: Authority, s: HostState, region: Span)
    requires region.End() <= |buf| && HostLoop(buf, a, s, region.off, region.End())
    ensures s == InHost || s == V6End || s == InPort ==> Split(buf, region, a)
    ensures s != HostDead
  {
  }

  /** The switch on the new state: a field begins at `i` when it is entered, and grows. */
  method WriteField(b: Authority, s: HostState, t: HostState, i: nat) returns (a: Authority)
    requires (t == InHost && s != InHost) || (t == InV6 && s != InV6) ==> b.host.len == 0
    ensures a == Extended(b, s, t, i)
  {
    a := b;
    match t {
      case InHost =>
        if s != InHost {
          a := a.(host := a.host.(off := i));
        }
        a := a.(host := a.host.(len := a.host.len + 1));
      case InV6 =>
        if s != InV6 {
          a := a.(host := a.host.(off := i));
        }
        a := a.(host := a.host.(len := a.host.len + 1));
      case InPort =>
        if s != InPort {
          a := a.(port := Span(i, 0));
        }
        a := a.(port := a.port.(len := a.port.len + 1));
      case InUserInfo =>
        if s != InUserInfo {
          a := a.(user := Span(i, 0));
        }
        a := a.(user := a.user.(len := a.user.len + 1));
      case _ =>
    }
  }

  /** The host machine alone, from `i` to `end`; it stays dead once it is. */
  function HostEnd(buf: seq<byte>, s: HostState, i: nat, end: nat): HostState
    requires i <= end <= |buf|
    decreases end - i
  {
    if s == HostDead || i == end then s else HostEnd(buf, ParseHostChar(s, buf[i]), i + 1, end)
  }

  /** The states in which an authority may end. */
  predicate HostAccepts(s: HostState) { s == InHost || s == V6End || s == InPort }

  predicate ValidAuthority(buf: seq<byte>, region: Span, foundAt: bool)
    requires region.End() <= |buf|
  {
    HostAccepts(HostEnd(buf, HostBegin(foundAt), region.off, region.End()))
  }

  /** The host loop alone, from `i` to `end`: the fields that it writes. */
  function AuthorityFrom(buf: seq<byte>, s: HostState, a: Authority, i: nat, end: nat): Authority
    requires i <= end <= |buf|
    decreases end - i
  {
    if i == end then a
    else
      var t := ParseHostChar(s, buf[i]);
      if t == HostDead then a else AuthorityFrom(buf, t, Extended(a, s, t, i), i + 1, end)
  }

  function HostBegin(foundAt: bool): HostState { if foundAt then UserInfoStart else HostStart }

  function NoFields(region: Span): Authority { Authority(Span(0, 0), Span(region.off, 0), Span(0, 0)) }

  function AuthorityOf(buf: seq<byte>, region: Span, foundAt: bool): Authority
    requires region.End() <= |buf|
  {
    AuthorityFrom(buf, HostBegin(foundAt), NoFields(region), region.off, region.End())
  }

  lemma AuthorityStep(buf: seq<byte>, s: HostState, a: Authority, i: nat, end: nat)
    requires i < end <= |buf| && ParseHostChar(s, buf[i]) != HostDead
    ensures var t := ParseHostChar(s, buf[i]);
      AuthorityFrom(buf, s, a, i, end) == AuthorityFrom(buf, t, Extended(a, s, t, i), i + 1, end)
  {
    hide ParseHostChar, Extended;
  }

  lemma HostEndStep(buf: seq<byte>, s: HostState, i: nat, end: nat)
    requires i < end <= |buf| && s != HostDead
    ensures var t := ParseHostChar(s, buf[i]);
      HostEnd(buf, s, i, end) == HostEnd(buf, t, i + 1, end) && (t == HostDead ==> HostEnd(buf, s, i, end) == HostDead)
  {
    hide ParseHostChar;
  }

  lemma HostEndDone(buf: seq<byte>, s: HostState, a: Authority, end: nat)
    requires end <= |buf|
    ensures HostEnd(buf, s, end, end) == s && AuthorityFrom(buf, s, a, end, end) == a
  {
  }

  /** The states after the loop that mean a failure are those that are not accepted. */
  lemma HostVerdict(buf: seq<byte>, region: Span, foundAt: bool, s: HostState)
    requires region.End() <= |buf|
    requires s == HostEnd(buf, HostBegin(foundAt), region.off, region.End())
    ensures s == HostDead ==> !ValidAuthority(buf, region, foundAt)
    ensures s != HostDead ==> (!ValidAuthority(buf, region, foundAt) <==>
      (s == HostStart || s == V6Start || s == InV6 || s == PortStart || s == InUserInfo || s == UserInfoStart))
  {
    hide HostEnd;
  }

  /** The host loop at position `i`, on its way to its end. */
  ghost predicate OnTheWay(buf: seq<byte>, region: Span, foundAt: bool, s: HostState, a: Authority, i: nat)
    requires region.off <= i <= region.End() <= |buf|
  {
    && HostLoop(buf, a, s, region.off, i)
    && HostEnd(buf, HostBegin(foundAt), region.off, region.End()) == HostEnd(buf, s, i, region.End())
    && AuthorityOf(buf, region, foundAt) == AuthorityFrom(buf, s, a, i, region.End())
  }

  lemma WayBegins(buf: seq<byte>, region: Span, foundAt: bool)
    requires region.End() <= |buf|
    ensures OnTheWay(buf, region, foundAt, HostBegin(foundAt), NoFields(region), region.off)
  {
    hide HostLoop, HostEnd, AuthorityFrom;
    HostBegins(buf, NoFields(region), HostBegin(foundAt), region);
  }

  lemma WayGoesOn(buf: seq<byte>, region: Span, foundAt: bool, s: HostState, a: Authority, i: nat)
    requires region.off <= i < region.End() <= |buf| && OnTheWay(buf, region, foundAt, s, a, i)
    ensures var t := ParseHostChar(s, buf[i]);
      && (t == HostDead ==> !ValidAuthority(buf, region, foundAt))
      && (t != HostDead ==> OnTheWay(buf, region, foundAt, t, Extended(a, s, t, i), i + 1))
      && ((t == InHost && s != InHost) || (t == InV6 && s != InV6) ==> a.host.len == 0)
  {
    hide HostLoop, ParseHostChar, HostEnd, Extended, ValidAuthority, AuthorityFrom, AuthorityOf;
    HostEntry(buf, a, s, region.off, i);
    NotDead(buf, a, s, region.off, i);
    HostEndStep(buf, s, i, region.End());
    if ParseHostChar(s, buf[i]) == HostDead {
      HostVerdict(buf, region, foundAt, HostDead);
    } else {
      AuthorityStep(buf, s, a, i, region.End());
      HostStep(buf, a, s, ParseHostChar(s, buf[i]), region.off, i);
    }
  }

  lemma WayEnds(buf: seq<byte>, region: Span, foundAt: bool, s: HostState, a: Authority)
    requires region.End() <= |buf| && OnTheWay(buf, region, foundAt, s, a, region.End())
    ensures !ValidAuthority(buf, region, foundAt) <==>
      (s == HostStart || s == V6Start || s == InV6 || s == PortStart || s == InUserInfo || s == UserInfoStart)
    ensures ValidAuthority(buf, region, foundAt) ==> Split(buf, region, a) && a == AuthorityOf(buf, region, foundAt)
  {
    hide HostLoop, HostEnd, Split, AuthorityFrom, AuthorityOf, ValidAuthority;
    HostEnds(buf, a, s, region);
    HostEndDone(buf, s, a, region.End());
    HostVerdict(buf, region, foundAt, s);
  }

  method ParseHost(buf: seq<byte>, region: Span, foundAt: bool) returns (failed: bool, a: Authority)
    requires region.End() <= |buf|
    ensures failed <==> !ValidAuthority(buf, region, foundAt)
    ensures !failed ==> Split(buf, region, a) && a == AuthorityOf(buf, region, foundAt)
  {
    hide OnTheWay, ParseHostChar, Split, Extended, ValidAuthority, AuthorityOf;
    a := Authority(Span(0, 0), Span(region.off, 0), Span(0, 0));
    var s := if foundAt then UserInfoStart else HostStart;
    var i := region.off;
    WayBegins(buf, region, foundAt);
    while i < region.End()
      invariant region.off <= i <= region.End()
      invariant OnTheWay(buf, region, foundAt, s, a, i)
    {
      WayGoesOn(buf, region, foundAt, s, a, i);
      var new_s := ParseHostChar(s, buf[i]);
      if new_s == HostDead {
        return true, a;
      }
      a := WriteField(a, s, new_s, i);
      s := new_s;
      i := i + 1;
    }
    WayEnds(buf, region, foundAt, s, a);
    failed := s == HostStart || s == V6Start || s == InV6 || s == PortStart || s == InUserInfo || s == UserInfoStart;
  }

  // ---- the main loop ----

  /** The field a state reads, if it is not on a delimiter. */
  function FieldOf(s: State): Option<UrlField> {
    match s
    case REQ_SCHEMA => Some(Schema)
    case REQ_SERVER => Some(Host)
    case REQ_SERVER_WITH_AT => Some(Host)
    case REQ_PATH => Some(Path)
    case REQ_QUERY_STRING => Some(Query)
    case REQ_FRAGMENT => Some(Fragment)
    case _ => None
  }

  /** No field after this place can have been set yet. */
  function Reached(s: State): int {
    if s < REQ_SCHEMA then -1
    else if s <= REQ_SERVER_START then 0
    else if s <= REQ_SERVER_WITH_AT then 2
    else if s <= REQ_QUERY_STRING_START then 4
    else if s <= REQ_FRAGMENT_START then 5
    else 6
  }

  /** A move of the recogniser goes on in its field, enters a later one, or is on a delimiter. */
  predicate UrlMove(s: State, ch: byte, t: State) {
    && UrlState(t)
    && Reached(s) <= Reached(t)
    && (FieldOf(t).None? ==> Delimiter(ch))
    && (FieldOf(t).Some? ==> FieldOf(s) == FieldOf(t) || Reached(s) < Order(FieldOf(t).value))
    && (FieldOf(s) == Some(Host) && FieldOf(t) != Some(Host) ==> !IsNum(ch))
  }

  lemma UrlMoves(s: State, ch: byte)
    requires s == REQ_SPACES_BEFORE_URL || UrlState(s)
    ensures ParseUrlChar(s, ch) != DEAD ==> UrlMove(s, ch, ParseUrlChar(s, ch))
  {
    hide IsAlpha, IsUrlChar, IsUserInfoChar;
  }

  /** The main loop at position `i`; `last` is the field written last. */
  ghost predicate UrlLoop(buf: seq<byte>, u: UrlParts, s: State, last: Option<UrlField>, i: nat)
    requires i <= |buf|
  {
    && (s == REQ_SPACES_BEFORE_URL || UrlState(s))
    && UserInfo !in u.fieldSet && Port !in u.fieldSet && u.port == 0
    && (forall f :: f in u.fieldSet ==> Order(f) <= Reached(s))
    && Tiles(buf, u, i)
    && (FieldOf(s).Some? ==> FieldOf(s).value in u.fieldSet && u.At(FieldOf(s).value).End() == i)
    && (FieldOf(s).Some? ==> last == FieldOf(s))
    && (last.Some? ==> last.value in u.fieldSet)
    && (Host in u.fieldSet && u.At(Host).End() < i ==> !IsNum(buf[u.At(Host).End()]))
    && (Host in u.fieldSet && FieldOf(s) != Some(Host) ==> u.At(Host).End() < i)
    && (Host !in u.fieldSet ==> u.At(Host) == Span(0, 0))
  }

  /** What the loop does on a move into `t`. */
  function Written(u: UrlParts, t: State, last: Option<UrlField>, i: nat): UrlParts {
    match FieldOf(t)
    case None => u
    case Some(f) => if last == Some(f) then u.Grown(f) else u.Set(f, Span(i, 1))
  }

  /** The facts about the fields that do not mention the recogniser. */
  ghost predicate Tiles(buf: seq<byte>, u: UrlParts, i: nat)
    requires i <= |buf|
  {
    Inside(u, i) && InOrder(u) && Complete(buf, u, 0, i)
  }

  lemma TilesDelimiter(buf: seq<byte>, u: UrlParts, i: nat)
    requires i < |buf| && Tiles(buf, u, i) && Delimiter(buf[i])
    ensures Tiles(buf, u, i + 1)
  {
  }

  /** `v` is `u` with its last field written anew, from `off` up to and including `i`. */
  ghost predicate Rewritten(u: UrlParts, f: UrlField, off: nat, i: nat, v: UrlParts) {
    && off <= i && v.fieldSet == u.fieldSet + {f} && v.At(f) == Span(off, i + 1 - off)
    && (forall g :: g != f ==> v.At(g) == u.At(g))
    && (forall g :: g in u.fieldSet && g != f ==> Order(g) < Order(f) && u.At(g).End() <= off)
    && (f in u.fieldSet ==> u.At(f) == Span(off, i - off))
  }

  lemma InsideWritten(u: UrlParts, f: UrlField, off: nat, i: nat, v: UrlParts)
    requires Rewritten(u, f, off, i, v) && Inside(u, i)
    ensures Inside(v, i + 1)
  {
    hide Order, UrlParts.At;
  }

  lemma InOrderWritten(u: UrlParts, f: UrlField, off: nat, i: nat, v: UrlParts)
    requires Rewritten(u, f, off, i, v) && InOrder(u)
    ensures InOrder(v)
  {
    hide Order, UrlParts.At;
    forall g, h | g in v.fieldSet && h in v.fieldSet && Order(g) < Order(h)
      ensures v.At(g).End() <= v.At(h).off
    {
      assert g != f;
      assert g in u.fieldSet;
    }
  }

  lemma CompleteWritten(buf: seq<byte>, u: UrlParts, f: UrlField, off: nat, i: nat, v: UrlParts)
    requires i < |buf| && Rewritten(u, f, off, i, v) && Complete(buf, u, 0, i)
    ensures Complete(buf, v, 0, i + 1)
  {
    hide Order, Delimiter, UrlParts.At;
    forall j | 0 <= j < i + 1 ensures Covers(v, j) || Delimiter(buf[j]) {
      if off <= j {
        assert f in v.fieldSet && v.At(f).off <= j < v.At(f).End();
      } else if g :| g in u.fieldSet && u.At(g).off <= j < u.At(g).End() {
        assert g in v.fieldSet && v.At(g).off <= j < v.At(g).End();
      }
    }
  }

  lemma TilesWritten(buf: seq<byte>, u: UrlParts, f: UrlField, off: nat, i: nat, v: UrlParts)
    requires i < |buf| && Tiles(buf, u, i) && Rewritten(u, f, off, i, v)
    ensures Tiles(buf, v, i + 1)
  {
    hide Rewritten, Inside, InOrder, Complete;
    InsideWritten(u, f, off, i, v);
    InOrderWritten(u, f, off, i, v);
    CompleteWritten(buf, u, f, off, i, v);
  }

  lemma OrderIsDistinct(f: UrlField, g: UrlField)
    requires Order(f) == Order(g)
    ensures f == g
  {
  }

  lemma TilesGrown(buf: seq<byte>, u: UrlParts, f: UrlField, i: nat)
    requires i < |buf| && Tiles(buf, u, i) && f in u.fieldSet && u.At(f).End() == i
    requires forall g :: g in u.fieldSet ==> Order(g) <= Order(f)
    ensures Tiles(buf, u.Grown(f), i + 1)
  {
    hide Complete, Order;
    forall g | g in u.fieldSet && g != f ensures Order(g) < Order(f) {
      if Order(g) == Order(f) {
        OrderIsDistinct(f, g);
      }
    }
    TilesWritten(buf, u, f, u.At(f).off, i, u.Grown(f));
  }

  lemma TilesEntered(buf: seq<byte>, u: UrlParts, f: UrlField, i: nat)
    requires i < |buf| && Tiles(buf, u, i) && f !in u.fieldSet
    requires forall g :: g in u.fieldSet ==> Order(g) < Order(f)
    ensures Tiles(buf, u.Set(f, Span(i, 1)), i + 1)
  {
    hide Complete, Order;
    TilesWritten(buf, u, f, i, i, u.Set(f, Span(i, 1)));
  }

  lemma GrownAt(u: UrlParts, f: UrlField)
    ensures var v := u.Grown(f);
      && v.fieldSet == u.fieldSet && v.port == u.port
      && v.At(f) == Span(u.At(f).off, u.At(f).len + 1)
      && forall g :: g != f ==> v.At(g) == u.At(g)
  {
  }

  lemma SetAt(u: UrlParts, f: UrlField, s: Span)
    ensures var v := u.Set(f, s);
      && v.fieldSet == u.fieldSet + {f} && v.port == u.port
      && v.At(f) == s
      && forall g :: g != f ==> v.At(g) == u.At(g)
  {
  }

  lemma ReachedIsOrder(s: State)
    requires FieldOf(s).Some?
    ensures Reached(s) == Order(FieldOf(s).value)
    ensures FieldOf(s).value != UserInfo && FieldOf(s).value != Port
  {
  }

  lemma KeepsDelimiter(buf: seq<byte>, u: UrlParts, s: State, t: State, last: Option<UrlField>, i: nat)
    requires i < |buf| && UrlLoop(buf, u, s, last, i) && UrlMove(s, buf[i], t) && FieldOf(t).None?
    ensures UrlLoop(buf, u, t, last, i + 1)
  {
    hide FieldOf, Reached, Tiles, Order, UrlParts.At;
    TilesDelimiter(buf, u, i);
  }

  lemma KeepsGrown(buf: seq<byte>, u: UrlParts, s: State, t: State, last: Option<UrlField>, i: nat)
    requires i < |buf| && UrlLoop(buf, u, s, last, i) && UrlMove(s, buf[i], t)
    requires FieldOf(t).Some? && FieldOf(s) == FieldOf(t)
    ensures UrlLoop(buf, u.Grown(FieldOf(t).value), t, FieldOf(t), i + 1)
  {
    hide FieldOf, Reached, Tiles, Order, UrlParts.At, UrlParts.Grown;
    var f := FieldOf(t).value;
    ReachedIsOrder(s);
    ReachedIsOrder(t);
    TilesGrown(buf, u, f, i);
    GrownAt(u, f);
  }

  lemma HostInside(buf: seq<byte>, u: UrlParts, i: nat)
    requires i <= |buf| && Tiles(buf, u, i)
    ensures Host in u.fieldSet ==> u.At(Host).End() <= i
  {
    hide InOrder, Complete;
  }

  lemma KeepsEntered(buf: seq<byte>, u: UrlParts, s: State, t: State, last: Option<UrlField>, i: nat)
    requires i < |buf| && UrlLoop(buf, u, s, last, i) && UrlMove(s, buf[i], t)
    requires FieldOf(t).Some? && FieldOf(s) != FieldOf(t)
    ensures last != FieldOf(t)
    ensures UrlLoop(buf, u.Set(FieldOf(t).value, Span(i, 1)), t, FieldOf(t), i + 1)
  {
    HostInside(buf, u, i);
    hide FieldOf, Reached, Tiles, Order, UrlParts.At, UrlParts.Set, PortOfDigits, Digits;
    var f := FieldOf(t).value;
    ReachedIsOrder(t);
    assert f !in u.fieldSet;
    TilesEntered(buf, u, f, i);
    SetAt(u, f, Span(i, 1));
    var v := u.Set(f, Span(i, 1));
    assert forall g :: g in v.fieldSet ==> Order(g) <= Reached(t);
    assert v.At(f).End() == i + 1;
    HostAfterEntry(buf, u, s, t, last, i);
  }

  /** The host stays, and is followed by no digit. */
  lemma HostAfterEntry(buf: seq<byte>, u: UrlParts, s: State, t: State, last: Option<UrlField>, i: nat)
    requires i < |buf| && UrlLoop(buf, u, s, last, i) && UrlMove(s, buf[i], t)
    requires FieldOf(t).Some? && FieldOf(s) != FieldOf(t) && FieldOf(t).value !in u.fieldSet
    ensures var v := u.Set(FieldOf(t).value, Span(i, 1));
      && (Host in v.fieldSet && v.At(Host).End() < i + 1 ==> !IsNum(buf[v.At(Host).End()]))
      && (Host in v.fieldSet && FieldOf(t) != Some(Host) ==> v.At(Host).End() < i + 1)
      && (Host !in v.fieldSet ==> v.At(Host) == Span(0, 0))
  {
    hide *;
    var f := FieldOf(t).value;
    SetAt(u, f, Span(i, 1));
    NoHost(buf, u, s, last, i);
    if f != Host && Host in u.fieldSet {
      HostBehind(buf, u, s, t, last, i);
    }
    SpanEnd(i);
  }

  lemma HostBehind(buf: seq<byte>, u: UrlParts, s: State, t: State, last: Option<UrlField>, i: nat)
    requires i < |buf| && UrlLoop(buf, u, s, last, i) && UrlMove(s, buf[i], t)
    requires FieldOf(t) != Some(Host) && Host in u.fieldSet
    ensures u.At(Host).End() <= i && !IsNum(buf[u.At(Host).End()])
  {
    HostInside(buf, u, i);
    hide FieldOf, Reached, Tiles, Order, UrlParts.At, IsNum;
  }

  lemma SpanEnd(i: nat)
    ensures Span(i, 1).End() == i + 1
  {
  }

  lemma NoHost(buf: seq<byte>, u: UrlParts, s: State, last: Option<UrlField>, i: nat)
    requires i <= |buf| && UrlLoop(buf, u, s, last, i)
    ensures Host !in u.fieldSet ==> u.At(Host) == Span(0, 0)
  {
    hide FieldOf, Reached, Tiles, Order, UrlParts.At, IsNum;
  }

  lemma UrlStepKeeps(buf: seq<byte>, u: UrlParts, s: State, last: Option<UrlField>, i: nat)
    requires i < |buf| && UrlLoop(buf, u, s, last, i) && ParseUrlChar(s, buf[i]) != DEAD
    ensures var t := ParseUrlChar(s, buf[i]);
      UrlLoop(buf, Written(u, t, last, i), t, if FieldOf(t).Some? then FieldOf(t) else last, i + 1)
  {
    var t := ParseUrlChar(s, buf[i]);
    UrlMoves(s, buf[i]);
    assert FieldOf(s).Some? ==> last == FieldOf(s);
    hide ParseUrlChar, FieldOf, UrlMove, UrlLoop, UrlParts.Grown, UrlParts.Set;
    if FieldOf(t).None? {
      KeepsDelimiter(buf, u, s, t, last, i);
    } else if FieldOf(s) == FieldOf(t) {
      KeepsGrown(buf, u, s, t, last, i);
    } else {
      KeepsEntered(buf, u, s, t, last, i);
    }
  }

  // ---- the whole ----

  /** A split URL: non-empty fields inside the input, in order and without overlap, nothing but
      delimiters between them, and a host wherever there is a schema, user info or a port. */
  ghost predicate GoodSplit(buf: seq<byte>, u: UrlParts) {
    && Inside(u, |buf|) && InOrder(u) && Complete(buf, u, 0, |buf|)
    && (Schema in u.fieldSet || UserInfo in u.fieldSet || Port in u.fieldSet ==> Host in u.fieldSet)
  }

  /** The result struct after the host loop wrote its three fields. */
  function Merged(u: UrlParts, a: Authority): UrlParts {
    var v := u.With(Host, a.host);
    var w := if a.user.len > 0 then v.Set(UserInfo, a.user) else v;
    if a.port.len > 0 then w.Set(Port, a.port) else w
  }

  lemma MergedAt(u: UrlParts, a: Authority)
    requires UserInfo !in u.fieldSet && Port !in u.fieldSet
    ensures var v := Merged(u, a);
      && v.fieldSet == u.fieldSet + (if a.user.len > 0 then {UserInfo} else {}) +
                       (if a.port.len > 0 then {Port} else {})
      && v.port == u.port && v.At(Host) == a.host
      && (a.user.len > 0 ==> v.At(UserInfo) == a.user)
      && (a.port.len > 0 ==> v.At(Port) == a.port)
      && forall g :: g != Host && g != UserInfo && g != Port ==> v.At(g) == u.At(g)
  {
  }

  lemma MergedInside(buf: seq<byte>, u: UrlParts, a: Authority)
    requires UserInfo !in u.fieldSet && Port !in u.fieldSet && Host in u.fieldSet
    requires Inside(u, |buf|) && Split(buf, u.At(Host), a)
    ensures Inside(Merged(u, a), |buf|)
  {
    hide Merged, UrlParts.At;
    MergedAt(u, a);
  }

  lemma MergedInOrder(buf: seq<byte>, u: UrlParts, a: Authority)
    requires UserInfo !in u.fieldSet && Port !in u.fieldSet && Host in u.fieldSet
    requires Inside(u, |buf|) && InOrder(u) && Split(buf, u.At(Host), a)
    ensures InOrder(Merged(u, a))
  {
    hide Merged, UrlParts.At, Digits;
    MergedAt(u, a);
    var v := Merged(u, a);
    forall g, h | g in v.fieldSet && h in v.fieldSet && Order(g) < Order(h)
      ensures v.At(g).End() <= v.At(h).off
    {
      var inG := g == Host || g == UserInfo || g == Port;
      var inH := h == Host || h == UserInfo || h == Port;
      if inG && !inH {
        assert u.At(Host).End() <= u.At(h).off;
      } else if !inG && inH {
        assert u.At(g).End() <= u.At(Host).off;
      } else if !inG && !inH {
        assert u.At(g).End() <= u.At(h).off;
      }
    }
  }

  lemma MergedComplete(buf: seq<byte>, u: UrlParts, a: Authority)
    requires UserInfo !in u.fieldSet && Port !in u.fieldSet && Host in u.fieldSet
    requires Inside(u, |buf|) && Complete(buf, u, 0, |buf|) && Split(buf, u.At(Host), a)
    ensures Complete(buf, Merged(u, a), 0, |buf|)
  {
    hide Merged, UrlParts.At, Digits, Delimiter, Before;
    MergedAt(u, a);
    var v := Merged(u, a);
    forall j | 0 <= j < |buf| ensures Covers(v, j) || Delimiter(buf[j]) {
      if g :| g in u.fieldSet && u.At(g).off <= j < u.At(g).End() {
        if g != Host {
          assert g in v.fieldSet && v.At(g).off <= j < v.At(g).End();
        } else if InSpan(a.user, j) {
          assert UserInfo in v.fieldSet && v.At(UserInfo).off <= j < v.At(UserInfo).End();
        } else if InSpan(a.host, j) {
          assert Host in v.fieldSet && v.At(Host).off <= j < v.At(Host).End();
        } else if InSpan(a.port, j) {
          assert Port in v.fieldSet && v.At(Port).off <= j < v.At(Port).End();
        }
      } else {
        assert !Covers(u, j);
      }
    }
  }

  /** The main loop as a fold over the input; it stops when the recogniser is dead. */
  datatype Fold = Fold(u: UrlParts, s: State, last: Option<UrlField>, foundAt: bool)

  function NextFold(f: Fold, ch: byte, i: nat): Fold {
    var t := ParseUrlChar(f.s, ch);
    Fold(Written(f.u, t, f.last, i), t, if FieldOf(t).Some? then FieldOf(t) else f.last,
         f.foundAt || t == REQ_SERVER_WITH_AT)
  }

  function FoldFrom(buf: seq<byte>, f: Fold, i: nat): Fold
    requires i <= |buf|
    decreases |buf| - i
  {
    if f.s == DEAD || i == |buf| then f else FoldFrom(buf, NextFold(f, buf[i], i), i + 1)
  }

  function InitialFold(isConnect: bool): Fold {
    Fold(ZEROED, if isConnect then REQ_SERVER_START else REQ_SPACES_BEFORE_URL, None, false)
  }

  /** The input is not a URL: the recogniser dies, or there is an authority that is not valid. */
  predicate Malformed(buf: seq<byte>, isConnect: bool) {
    var f := FoldFrom(buf, InitialFold(isConnect), 0);
    || f.s == DEAD
    || (&& (Schema in f.u.fieldSet || Host in f.u.fieldSet)
        && !(f.u.At(Host).End() <= |buf| && ValidAuthority(buf, f.u.At(Host), f.foundAt)))
  }

  /** The fields of a URL that is not malformed: those of the main loop, with the authority taken
      apart; the number of the port is read later. */
  function FieldsOf(buf: seq<byte>, isConnect: bool): UrlParts
    requires !Malformed(buf, isConnect)
  {
    var f := FoldFrom(buf, InitialFold(isConnect), 0);
    if Schema in f.u.fieldSet || Host in f.u.fieldSet then Merged(f.u, AuthorityOf(buf, f.u.At(Host), f.foundAt))
    else f.u
  }

  /** strtoul on memory that starts with a digit: the leading digits, saturating. */
  function Strtoul(s: seq<byte>): nat {
    var v := DecValue(DigitPrefix(s));
    if v > ULLONG_MAX then ULLONG_MAX else v
  }

  lemma StrtoulExact(s: seq<byte>, n: nat)
    requires n <= |s| && (forall i :: 0 <= i < n ==> IsNum(s[i])) && (n < |s| ==> !IsNum(s[n]))
    ensures DigitPrefix(s) == s[..n]
  {
  }

  /** A split that is refused nevertheless: CONNECT without exactly a host and a port, or a port
      out of range. */
  predicate Rejected(buf: seq<byte>, beyond: seq<byte>, isConnect: bool, u: UrlParts) {
    || (isConnect && u.fieldSet != {Host, Port})
    || (Port in u.fieldSet && u.At(Port).off <= |buf| && Strtoul(buf[u.At(Port).off..] + beyond) > 0xFFFF)
  }

  /** The port is the value of its digits. */
  ghost predicate PortIsRead(buf: seq<byte>, u: UrlParts) {
    var s := u.At(Port);
    && s.End() <= |buf| && (forall j :: s.off <= j < s.End() ==> IsNum(buf[j]))
    && u.port == DecValue(buf[s.off..s.End()])
  }

  /** The split of `buf`; `beyond` is the memory after it, which the conversion of a port at
      the very end reads. */
  method ParseUrl(buf: seq<byte>, beyond: seq<byte>, isConnect: bool) returns (failed: bool, u: UrlParts)
    requires |buf| <= 0xFFFF
    ensures Malformed(buf, isConnect) ==> failed
    ensures failed && !Malformed(buf, isConnect) ==> GoodSplit(buf, u) && Rejected(buf, beyond, isConnect, u)
    ensures !failed ==> GoodSplit(buf, u) && u.port <= 0xFFFF && !Rejected(buf, beyond, isConnect, u)
    ensures !failed ==> !Malformed(buf, isConnect) && u.(port := 0) == FieldsOf(buf, isConnect)
    ensures !failed && Port !in u.fieldSet ==> u.port == 0
    ensures !failed && Port in u.fieldSet && (beyond == [] || !IsNum(beyond[0])) ==> PortIsRead(buf, u)
  {
    hide UrlLoop, GoodSplit, PortOfDigits, ParseUrlChar, Merged, Split, DecValue, DigitPrefix, Strtoul, HostEnd,
         AuthorityOf, UrlParts.At, UrlParts.Set, UrlParts.Grown;
    u := ZEROED;
    var s: State := if isConnect then REQ_SERVER_START else REQ_SPACES_BEFORE_URL;
    var last: Option<UrlField> := None;
    var foundAt := false;
    UrlBegins(buf, s);
    var i := 0;
    while i < |buf|
      invariant i <= |buf| && UrlLoop(buf, u, s, last, i)
      invariant FoldFrom(buf, InitialFold(isConnect), 0) == FoldFrom(buf, Fold(u, s, last, foundAt), i)
    {
      NotDeadYet(buf, u, s, last, i);
      if ParseUrlChar(s, buf[i]) == DEAD {
        return true, u;
      }
      UrlStepKeeps(buf, u, s, last, i);
      s := ParseUrlChar(s, buf[i]);
      if s == REQ_SERVER_WITH_AT {
        foundAt := true;
      }
      match FieldOf(s) {
        case None =>
        case Some(f) =>
          if last == Some(f) {
            u := u.Grown(f);
          } else {
            u := u.Set(f, Span(i, 1));
            last := Some(f);
          }
      }
      i := i + 1;
    }
    NotDeadYet(buf, u, s, last, i);
    if Schema in u.fieldSet || Host in u.fieldSet {
      AuthorityInside(buf, u, s, last);
      var noHost, a := ParseHost(buf, u.At(Host), foundAt);
      if noHost {
        return true, u;
      }
      MergedIsGood(buf, u, s, last, a);
      u := Merged(u, a);
    } else {
      NoAuthority(buf, u, s, last);
    }
    if isConnect && u.fieldSet != {Host, Port} {
      return true, u;
    }
    if Port in u.fieldSet {
      PortInside(buf, u);
      var off := u.At(Port).off;
      var v := Strtoul(buf[off..] + beyond);
      if v > 0xFFFF {
        return true, u;
      }
      if beyond == [] || !IsNum(beyond[0]) {
        PortExact(buf, beyond, u);
      }
      PortKeeps(buf, u, v);
      PortAside(buf, beyond, isConnect, u, v);
      u := u.(port := v);
    }
    failed := false;
  }

  lemma PortAside(buf: seq<byte>, beyond: seq<byte>, isConnect: bool, u: UrlParts, v: nat)
    ensures Rejected(buf, beyond, isConnect, u.(port := v)) == Rejected(buf, beyond, isConnect, u)
  {
    hide Strtoul;
  }

  lemma UrlBegins(buf: seq<byte>, s: State)
    requires s == REQ_SERVER_START || s == REQ_SPACES_BEFORE_URL
    ensures UrlLoop(buf, ZEROED, s, None, 0)
  {
  }

  lemma NotDeadYet(buf: seq<byte>, u: UrlParts, s: State, last: Option<UrlField>, i: nat)
    requires i <= |buf| && UrlLoop(buf, u, s, last, i)
    ensures s != DEAD
  {
  }

  lemma AuthorityInside(buf: seq<byte>, u: UrlParts, s: State, last: Option<UrlField>)
    requires UrlLoop(buf, u, s, last, |buf|)
    ensures u.At(Host).End() <= |buf|
  {
  }

  /** The port, when set, is digits, and what follows it in the input is not a digit. */
  ghost predicate PortOfDigits(buf: seq<byte>, u: UrlParts) {
    Port in u.fieldSet ==>
      var p := u.At(Port);
      && 0 < p.len && p.End() <= |buf|
      && Digits(buf, p)
      && (p.End() < |buf| ==> !IsNum(buf[p.End()]))
  }

  lemma MergedIsGood(buf: seq<byte>, u: UrlParts, s: State, last: Option<UrlField>, a: Authority)
    requires UrlLoop(buf, u, s, last, |buf|) && u.At(Host).End() <= |buf| && Split(buf, u.At(Host), a)
    ensures GoodSplit(buf, Merged(u, a)) && PortOfDigits(buf, Merged(u, a)) && Merged(u, a).port == 0
  {
    hide Merged, UrlParts.At, FieldOf, Reached, Order, Complete, InOrder;
    MergedAt(u, a);
    MergedInside(buf, u, a);
    MergedInOrder(buf, u, a);
    MergedComplete(buf, u, a);
  }

  lemma NoAuthority(buf: seq<byte>, u: UrlParts, s: State, last: Option<UrlField>)
    requires UrlLoop(buf, u, s, last, |buf|) && Schema !in u.fieldSet && Host !in u.fieldSet
    ensures GoodSplit(buf, u) && PortOfDigits(buf, u) && u.port == 0
  {
  }

  lemma PortInside(buf: seq<byte>, u: UrlParts)
    requires PortOfDigits(buf, u) && Port in u.fieldSet
    ensures u.At(Port).off <= u.At(Port).End() <= |buf|
  {
  }

  lemma PortKeeps(buf: seq<byte>, u: UrlParts, v: nat)
    ensures GoodSplit(buf, u) ==> GoodSplit(buf, u.(port := v))
    ensures u.(port := v).At(Port) == u.At(Port)
  {
    hide Order;
    var w := u.(port := v);
    assert forall f :: w.At(f) == u.At(f);
    hide UrlParts.At;
    if GoodSplit(buf, u) {
      forall j | 0 <= j < |buf| ensures Covers(w, j) || Delimiter(buf[j]) {
        if f :| f in u.fieldSet && u.At(f).off <= j < u.At(f).End() {
          assert f in w.fieldSet && w.At(f).off <= j < w.At(f).End();
        } else {
          assert !Covers(u, j);
        }
      }
    }
  }

  lemma PortExact(buf: seq<byte>, beyond: seq<byte>, u: UrlParts)
    requires PortOfDigits(buf, u) && Port in u.fieldSet && (beyond == [] || !IsNum(beyond[0]))
    requires Strtoul(buf[u.At(Port).off..] + beyond) <= 0xFFFF
    ensures var p := u.At(Port);
      && (forall j :: p.off <= j < p.End() ==> IsNum(buf[j]))
      && Strtoul(buf[p.off..] + beyond) == DecValue(buf[p.off..p.End()])
  {
    hide UrlParts.At, DigitPrefix, DecValue;
    var p := u.At(Port);
    var memory := buf[p.off..] + beyond;
    StrtoulExact(memory, p.len);
    assert memory[..p.len] == buf[p.off..p.End()];
  }
}
