/** The authority of a URL as a grammar, user@host:port, and the proof that the host loop accepts
    exactly this and finds exactly these parts. */
module HttpHostGrammar {
  import opened CBytes
  import opened HttpTypes
  import opened HttpTables
  import opened HttpUrl

  // ---- the grammar ----

  predicate UserByte(c: byte) { LetterOrDigit(c) || c in "-_.!~*'()%;:&=+$," }

  predicate NameByte(c: byte) { LetterOrDigit(c) || c == '.' || c == '-' }

  /** In a literal address between brackets. */
  predicate AddressByte(c: byte) {
    'a' <= c <= 'f' || 'A' <= c <= 'F' || '0' <= c <= '9' || c == ':' || c == '.'
  }

  predicate UserBytes(s: seq<byte>) { forall i :: 0 <= i < |s| ==> UserByte(s[i]) }

  predicate NameBytes(s: seq<byte>) { forall i :: 0 <= i < |s| ==> NameByte(s[i]) }

  predicate AddressBytes(s: seq<byte>) { forall i :: 0 <= i < |s| ==> AddressByte(s[i]) }

  predicate PortBytes(s: seq<byte>) { forall i :: 0 <= i < |s| ==> '0' <= s[i] <= '9' }

  datatype HostParts = HostParts(
    user: Option<seq<byte>>, bracketed: bool, host: seq<byte>, port: Option<seq<byte>>)

  function UserText(h: HostParts): seq<byte> { if h.user.Some? then h.user.value + "@" else "" }

  function HostText(h: HostParts): seq<byte> { if h.bracketed then "[" + h.host + "]" else h.host }

  function PortText(h: HostParts): seq<byte> { if h.port.Some? then ":" + h.port.value else "" }

  function AuthorityText(h: HostParts): seq<byte> { UserText(h) + HostText(h) + PortText(h) }

  /** A user, perhaps empty, exactly where an '@' was seen; a host that is not empty; and a port of
      at least one digit behind every colon. */
  predicate HostFormed(foundAt: bool, h: HostParts) {
    && (h.user.Some? <==> foundAt) && (foundAt ==> UserBytes(h.user.value))
    && h.host != [] && (if h.bracketed then AddressBytes(h.host) else NameBytes(h.host))
    && (h.port.Some? ==> h.port.value != [] && PortBytes(h.port.value))
  }

  /** Where the parts are when the text begins at `off`; a part that is empty or missing has the
      span that the loop begins with. */
  function SpansOf(h: HostParts, off: nat): Authority {
    var user, start := |UserText(h)|, if h.bracketed then 1 else 0;
    Authority(
      if h.user.Some? && h.user.value != [] then Span(off, |h.user.value|) else Span(0, 0),
      if h.host != [] then Span(off + user + start, |h.host|) else Span(off, 0),
      if h.port.Some? && h.port.value != [] then Span(off + user + |HostText(h)| + 1, |h.port.value|) else Span(0, 0))
  }

  // ---- what was read in each state ----

  predicate HasHost(h: HostParts) {
    h.host != [] && if h.bracketed then AddressBytes(h.host) else NameBytes(h.host)
  }

  predicate Read(s: HostState, foundAt: bool, h: HostParts) {
    && (h.user.Some? <==> foundAt) && (foundAt ==> UserBytes(h.user.value))
    && match s
       case HostDead => false
       case UserInfoStart => h == HostParts(Some([]), false, [], None)
       case InUserInfo => h.user.Some? && h.user.value != [] && h == HostParts(h.user, false, [], None)
       case HostStart => h == HostParts(h.user, false, [], None)
       case V6Start => h == HostParts(h.user, true, [], None)
       case InHost => !h.bracketed && HasHost(h) && h.port.None?
       case InV6 => h.bracketed && HasHost(h) && h.port.None?
       case V6End => h.bracketed && HasHost(h) && h.port.None?
       case PortStart => HasHost(h) && h.port == Some([])
       case InPort => HasHost(h) && h.port.Some? && h.port.value != [] && PortBytes(h.port.value)
  }

  function ReadText(s: HostState, h: HostParts): seq<byte> {
    match s
    case UserInfoStart => []
    case InUserInfo => if h.user.Some? then h.user.value else []
    case V6Start => UserText(h) + "["
    case InV6 => UserText(h) + ("[" + h.host)
    case _ => AuthorityText(h)
  }

  /** The parts when the byte `ch` leads into the state `t`. */
  function NextParts(h: HostParts, ch: byte, t: HostState): HostParts {
    match t
    case InUserInfo => if h.user.Some? then h.(user := Some(h.user.value + [ch])) else h
    case V6Start => h.(bracketed := true)
    case InHost => h.(host := h.host + [ch])
    case InV6 => h.(host := h.host + [ch])
    case PortStart => h.(port := Some([]))
    case InPort => if h.port.Some? then h.(port := Some(h.port.value + [ch])) else h
    case _ => h
  }

  /** The moves of the host machine, in ranges of the grammar. */
  lemma Moves(s: HostState, ch: byte)
    ensures ParseHostChar(s, ch) == InUserInfo <==> (s == UserInfoStart || s == InUserInfo) && UserByte(ch)
    ensures ParseHostChar(s, ch) == HostStart <==> (s == UserInfoStart || s == InUserInfo) && ch == '@'
    ensures ParseHostChar(s, ch) == V6Start <==> s == HostStart && ch == '['
    ensures ParseHostChar(s, ch) == InHost <==> (s == HostStart || s == InHost) && NameByte(ch)
    ensures ParseHostChar(s, ch) == InV6 <==> (s == V6Start || s == InV6) && AddressByte(ch)
    ensures ParseHostChar(s, ch) == V6End <==> s == InV6 && ch == ']'
    ensures ParseHostChar(s, ch) == PortStart <==> (s == InHost || s == V6End) && ch == ':'
    ensures ParseHostChar(s, ch) == InPort <==> (s == PortStart || s == InPort) && '0' <= ch <= '9'
    ensures ParseHostChar(s, ch) != UserInfoStart
  {
  }

  lemma MoreBytes(s: seq<byte>, ch: byte)
    ensures UserBytes(s + [ch]) <==> UserBytes(s) && UserByte(ch)
    ensures NameBytes(s + [ch]) <==> NameBytes(s) && NameByte(ch)
    ensures AddressBytes(s + [ch]) <==> AddressBytes(s) && AddressByte(ch)
    ensures PortBytes(s + [ch]) <==> PortBytes(s) && '0' <= ch <= '9'
    ensures UserBytes([]) && NameBytes([]) && AddressBytes([]) && PortBytes([])
  {
    hide UserByte, NameByte, AddressByte;
    var t := s + [ch];
    assert t[|s|] == ch && forall i :: 0 <= i < |s| ==> t[i] == s[i];
  }

  lemma StepRead(s: HostState, foundAt: bool, h: HostParts, ch: byte)
    requires Read(s, foundAt, h) && ParseHostChar(s, ch) != HostDead
    ensures var t := ParseHostChar(s, ch); Read(t, foundAt, NextParts(h, ch, t))
  {
    hide ParseHostChar, UserBytes, NameBytes, AddressBytes, PortBytes, UserByte, NameByte, AddressByte;
    Moves(s, ch);
    MoreBytes(h.host, ch);
    if h.user.Some? {
      MoreBytes(h.user.value, ch);
    }
    if h.port.Some? {
      MoreBytes(h.port.value, ch);
    }
  }

  /** What was read, by the parts that there are. */
  lemma ReadTextIs(s: HostState, foundAt: bool, h: HostParts)
    requires Read(s, foundAt, h)
    ensures var u, t := UserText(h), ReadText(s, h);
      match s
      case HostDead => true
      case UserInfoStart => t == [] && h.user == Some([])
      case InUserInfo => h.user.Some? && t == h.user.value
      case HostStart => t == u
      case V6Start => t == u + "["
      case InHost => t == u + h.host
      case InV6 => t == u + ("[" + h.host)
      case V6End => t == u + ("[" + h.host + "]")
      case PortStart => t == u + HostText(h) + ":"
      case InPort => h.port.Some? && t == u + HostText(h) + (":" + h.port.value)
  {
    hide UserBytes, NameBytes, AddressBytes, PortBytes, UserText;
    assert forall x: seq<byte> :: x + [] == x;
    if s.V6Start? {
      assert h.host == [];
    }
  }

  lemma StepText(s: HostState, foundAt: bool, h: HostParts, ch: byte)
    requires Read(s, foundAt, h) && ParseHostChar(s, ch) != HostDead
    ensures var t := ParseHostChar(s, ch); ReadText(t, NextParts(h, ch, t)) == ReadText(s, h) + [ch]
  {
    hide ParseHostChar, UserBytes, NameBytes, AddressBytes, PortBytes, UserByte, NameByte, AddressByte, Read, ReadText;
    var t := ParseHostChar(s, ch);
    Moves(s, ch);
    StepRead(s, foundAt, h, ch);
    ReadTextIs(s, foundAt, h);
    ReadTextIs(t, foundAt, NextParts(h, ch, t));
    StepHost(s, foundAt, h);
    match t
    case InUserInfo => assert [] + [ch] == [ch];
    case InHost => Regrouped(UserText(h), h.host, [ch]);
    case InV6 =>
      Regrouped("[", h.host, [ch]);
      Regrouped(UserText(h), "[" + h.host, [ch]);
    case V6End => Regrouped(UserText(h), "[" + h.host, "]");
    case InPort => Regrouped(":", h.port.value, [ch]);
    case _ =>
  }

  /** No host yet, or no port. */
  lemma StepHost(s: HostState, foundAt: bool, h: HostParts)
    requires Read(s, foundAt, h)
    ensures s == HostStart || s == V6Start ==> h.host == []
    ensures s == InHost ==> HostText(h) == h.host
    ensures s == V6End ==> HostText(h) == "[" + h.host + "]"
    ensures s == PortStart ==> h.port == Some([])
    ensures s == InPort ==> h.port.Some?
    ensures s == InUserInfo || s == UserInfoStart ==> h.user.Some?
  {
    hide UserBytes, NameBytes, AddressBytes, PortBytes;
  }

  lemma StepSpans(s: HostState, foundAt: bool, h: HostParts, ch: byte, off: nat)
    requires Read(s, foundAt, h) && ParseHostChar(s, ch) != HostDead
    ensures var t := ParseHostChar(s, ch);
      SpansOf(NextParts(h, ch, t), off) == Extended(SpansOf(h, off), s, t, off + |ReadText(s, h)|)
  {
    hide ParseHostChar, UserBytes, NameBytes, AddressBytes, PortBytes, UserByte, NameByte, AddressByte;
    Moves(s, ch);
  }

  // ---- what the grammar has is accepted ----

  /** The state and the parts before the last byte. */
  function Prior(t: HostState, h: HostParts): (HostState, HostParts) {
    match t
    case InUserInfo =>
      var u := if h.user.Some? && h.user.value != [] then h.user.value[..|h.user.value| - 1] else [];
      (if u == [] then UserInfoStart else InUserInfo, h.(user := Some(u)))
    case HostStart => (if h.user == Some([]) then UserInfoStart else InUserInfo, h)
    case V6Start => (HostStart, h.(bracketed := false))
    case InHost =>
      var n := if h.host != [] then h.host[..|h.host| - 1] else [];
      (if n == [] then HostStart else InHost, h.(host := n))
    case InV6 =>
      var n := if h.host != [] then h.host[..|h.host| - 1] else [];
      (if n == [] then V6Start else InV6, h.(host := n))
    case V6End => (InV6, h)
    case PortStart => (if h.bracketed then V6End else InHost, h.(port := None))
    case InPort =>
      var n := if h.port.Some? && h.port.value != [] then h.port.value[..|h.port.value| - 1] else [];
      (if n == [] then PortStart else InPort, h.(port := Some(n)))
    case _ => (t, h)
  }

  function LastByte(t: HostState, h: HostParts): byte {
    match t
    case InUserInfo => if h.user.Some? && h.user.value != [] then h.user.value[|h.user.value| - 1] else NO_BYTE
    case HostStart => '@'
    case V6Start => '['
    case InHost => if h.host != [] then h.host[|h.host| - 1] else NO_BYTE
    case InV6 => if h.host != [] then h.host[|h.host| - 1] else NO_BYTE
    case V6End => ']'
    case PortStart => ':'
    case InPort => if h.port.Some? && h.port.value != [] then h.port.value[|h.port.value| - 1] else NO_BYTE
    case _ => NO_BYTE
  }

  const NO_BYTE: byte := '\0'

  /** Nothing was read yet. */
  predicate AtBegin(t: HostState, h: HostParts) { t == UserInfoStart || (t == HostStart && h.user.None?) }

  lemma LastOf(s: seq<byte>)
    requires s != []
    ensures var f, c := s[..|s| - 1], s[|s| - 1];
      && s == f + [c]
      && (UserBytes(s) ==> UserBytes(f) && UserByte(c)) && (NameBytes(s) ==> NameBytes(f) && NameByte(c))
      && (AddressBytes(s) ==> AddressBytes(f) && AddressByte(c)) && (PortBytes(s) ==> PortBytes(f) && '0' <= c <= '9')
  {
    hide UserByte, NameByte, AddressByte;
    MoreBytes(s[..|s| - 1], s[|s| - 1]);
    assert s == s[..|s| - 1] + [s[|s| - 1]];
  }

  lemma PriorRead(t: HostState, foundAt: bool, h: HostParts)
    requires Read(t, foundAt, h) && !AtBegin(t, h)
    ensures var (s, g) := Prior(t, h);
      Read(s, foundAt, g) && ParseHostChar(s, LastByte(t, h)) == t && NextParts(g, LastByte(t, h), t) == h
  {
    hide ParseHostChar, Read, Prior, LastByte, NextParts;
    PriorParts(t, foundAt, h);
    PriorMove(t, foundAt, h);
  }

  lemma PriorParts(t: HostState, foundAt: bool, h: HostParts)
    requires Read(t, foundAt, h) && !AtBegin(t, h)
    ensures var (s, g) := Prior(t, h); Read(s, foundAt, g) && NextParts(g, LastByte(t, h), t) == h
  {
    hide UserBytes, NameBytes, AddressBytes, PortBytes, UserByte, NameByte, AddressByte;
    if t.InUserInfo? {
      LastOf(h.user.value);
    } else if t.InHost? || t.InV6? {
      PriorHost(t, foundAt, h);
    } else if t.InPort? {
      LastOf(h.port.value);
    }
  }

  lemma PriorHost(t: HostState, foundAt: bool, h: HostParts)
    requires Read(t, foundAt, h) && (t.InHost? || t.InV6?)
    ensures var (s, g) := Prior(t, h); Read(s, foundAt, g) && NextParts(g, LastByte(t, h), t) == h
  {
    hide UserBytes, NameBytes, AddressBytes, PortBytes, UserByte, NameByte, AddressByte;
    LastOf(h.host);
  }

  lemma PriorMove(t: HostState, foundAt: bool, h: HostParts)
    requires Read(t, foundAt, h) && !AtBegin(t, h)
    ensures ParseHostChar(Prior(t, h).0, LastByte(t, h)) == t
  {
    hide ParseHostChar, UserBytes, NameBytes, AddressBytes, PortBytes, UserByte, NameByte, AddressByte;
    Moves(Prior(t, h).0, LastByte(t, h));
    match t
    case InUserInfo => LastOf(h.user.value);
    case InHost => LastOf(h.host);
    case InV6 => LastOf(h.host);
    case InPort => LastOf(h.port.value);
    case _ =>
  }

  /** The machine and the loop one byte further. */
  lemma {:induction false} HostEndLast(buf: seq<byte>, s: HostState, i: nat, end: nat)
    requires i <= end < |buf|
    ensures var t := HostEnd(buf, s, i, end);
      HostEnd(buf, s, i, end + 1) == if t == HostDead then t else ParseHostChar(t, buf[end])
    decreases end - i
  {
    hide ParseHostChar;
    if s != HostDead && i < end {
      HostEndLast(buf, ParseHostChar(s, buf[i]), i + 1, end);
    }
  }

  lemma {:induction false} AuthorityLast(buf: seq<byte>, s: HostState, a: Authority, i: nat, end: nat)
    requires i <= end < |buf| && s != HostDead && HostEnd(buf, s, i, end + 1) != HostDead
    ensures var t := HostEnd(buf, s, i, end);
      AuthorityFrom(buf, s, a, i, end + 1) ==
        Extended(AuthorityFrom(buf, s, a, i, end), t, HostEnd(buf, s, i, end + 1), end)
    decreases end - i
  {
    hide ParseHostChar, Extended;
    HostEndLast(buf, s, i, end);
    if i < end {
      var t := ParseHostChar(s, buf[i]);
      AuthorityLast(buf, t, Extended(a, s, t, i), i + 1, end);
    }
  }

  /** After the text of some parts the machine is in their state, and the loop has their spans. */
  lemma {:induction false} PartsRead(buf: seq<byte>, off: nat, i: nat, t: HostState, foundAt: bool, h: HostParts)
    requires off <= i <= |buf| && Read(t, foundAt, h) && ReadText(t, h) == buf[off..i]
    ensures HostEnd(buf, HostBegin(foundAt), off, i) == t
    ensures AuthorityFrom(buf, HostBegin(foundAt), Authority(Span(0, 0), Span(off, 0), Span(0, 0)), off, i) ==
            SpansOf(h, off)
    decreases i
  {
    hide ParseHostChar, UserBytes, NameBytes, AddressBytes, PortBytes, Read, ReadText, Prior, LastByte, NextParts,
         Extended, SpansOf;
    if AtBegin(t, h) {
      NothingRead(t, foundAt, h, off);
    } else {
      var (s, g) := Prior(t, h);
      var ch := LastByte(t, h);
      PriorRead(t, foundAt, h);
      NotDeadRead(t, foundAt, h);
      StepText(s, foundAt, g, ch);
      LastOfSlice(buf, off, i, ReadText(s, g), ch);
      PartsRead(buf, off, i - 1, s, foundAt, g);
      StepSpans(s, foundAt, g, ch, off);
      HostEndLast(buf, HostBegin(foundAt), off, i - 1);
      NotDeadRead(s, foundAt, g);
      AuthorityLast(buf, HostBegin(foundAt), Authority(Span(0, 0), Span(off, 0), Span(0, 0)), off, i - 1);
    }
  }

  lemma NotDeadRead(t: HostState, foundAt: bool, h: HostParts)
    requires Read(t, foundAt, h)
    ensures t != HostDead
  {
  }

  lemma NothingRead(t: HostState, foundAt: bool, h: HostParts, off: nat)
    requires Read(t, foundAt, h) && AtBegin(t, h)
    ensures ReadText(t, h) == [] && t == HostBegin(foundAt)
    ensures SpansOf(h, off) == Authority(Span(0, 0), Span(off, 0), Span(0, 0))
  {
  }

  lemma LastOfSlice(buf: seq<byte>, off: nat, i: nat, front: seq<byte>, ch: byte)
    requires off <= i <= |buf| && buf[off..i] == front + [ch]
    ensures off < i && front == buf[off..i - 1] && buf[i - 1] == ch && |front| == i - 1 - off
  {
    var s := buf[off..i];
    assert s[|front|] == ch && s[..|front|] == front;
    assert s[|s| - 1] == buf[i - 1];
  }

  // ---- what is accepted has parts ----

  lemma {:induction false} Followed(buf: seq<byte>, off: nat, i: nat, foundAt: bool) returns (h: HostParts)
    requires off <= i <= |buf| && HostEnd(buf, HostBegin(foundAt), off, i) != HostDead
    ensures var t := HostEnd(buf, HostBegin(foundAt), off, i); Read(t, foundAt, h) && ReadText(t, h) == buf[off..i]
    decreases i
  {
    hide ParseHostChar, UserBytes, NameBytes, AddressBytes, PortBytes, Read, ReadText, NextParts, HostEnd;
    if i == off {
      h := HostParts(if foundAt then Some([]) else None, false, [], None);
      BeginRead(foundAt, h);
      HostEndDone(buf, HostBegin(foundAt), NoFields(Span(0, 0)), off);
    } else {
      HostEndLast(buf, HostBegin(foundAt), off, i - 1);
      var g := Followed(buf, off, i - 1, foundAt);
      var s := HostEnd(buf, HostBegin(foundAt), off, i - 1);
      StepRead(s, foundAt, g, buf[i - 1]);
      StepText(s, foundAt, g, buf[i - 1]);
      h := NextParts(g, buf[i - 1], ParseHostChar(s, buf[i - 1]));
      assert buf[off..i] == buf[off..i - 1] + [buf[i - 1]];
    }
  }

  lemma BeginRead(foundAt: bool, h: HostParts)
    requires h == HostParts(if foundAt then Some([]) else None, false, [], None)
    ensures Read(HostBegin(foundAt), foundAt, h) && ReadText(HostBegin(foundAt), h) == []
  {
  }

  /** The states in which an authority may end, and the forms of the grammar. */
  lemma EndsFormed(t: HostState, foundAt: bool, h: HostParts)
    ensures HostAccepts(t) && Read(t, foundAt, h) ==> HostFormed(foundAt, h) && ReadText(t, h) == AuthorityText(h)
  {
  }

  function EndOf(h: HostParts): HostState { if h.port.Some? then InPort else if h.bracketed then V6End else InHost }

  lemma FormedEnds(foundAt: bool, h: HostParts)
    requires HostFormed(foundAt, h)
    ensures Read(EndOf(h), foundAt, h) && ReadText(EndOf(h), h) == AuthorityText(h) && HostAccepts(EndOf(h))
  {
  }

  ghost predicate IsAuthority(foundAt: bool, text: seq<byte>) {
    exists h :: HostFormed(foundAt, h) && AuthorityText(h) == text
  }

  /** The authorities that are accepted are those of the grammar, and what the loop finds are their
      parts. */
  lemma ValidIffAuthority(buf: seq<byte>, region: Span, foundAt: bool)
    requires region.End() <= |buf|
    ensures ValidAuthority(buf, region, foundAt) <==> IsAuthority(foundAt, buf[region.off..region.End()])
    ensures forall h :: HostFormed(foundAt, h) && AuthorityText(h) == buf[region.off..region.End()] ==>
      AuthorityOf(buf, region, foundAt) == SpansOf(h, region.off)
  {
    hide HostFormed, AuthorityText, Read, ReadText, HostEnd, AuthorityFrom, SpansOf, EndOf, HostBegin;
    var off, end := region.off, region.End();
    if ValidAuthority(buf, region, foundAt) {
      var h := Followed(buf, off, end, foundAt);
      EndsFormed(HostEnd(buf, HostBegin(foundAt), off, end), foundAt, h);
    }
    forall h | HostFormed(foundAt, h) && AuthorityText(h) == buf[off..end]
      ensures ValidAuthority(buf, region, foundAt) && AuthorityOf(buf, region, foundAt) == SpansOf(h, off)
    {
      FormedEnds(foundAt, h);
      PartsRead(buf, off, end, EndOf(h), foundAt, h);
    }
  }
}
