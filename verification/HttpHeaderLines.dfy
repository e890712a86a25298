/** Whole header lines: what a line delivers, and the flags and the length that it asks for. */
module HttpHeaderLines {
  import opened CBytes
  import opened HttpTypes
  import opened HttpSwitch
  import opened HttpRun
  import opened HttpBodies
  import opened HttpHeaderNames
  import opened HttpHeaderValues

  /** A line of the headers: a name without a colon; a name, the blanks behind the colon and a
      value, which may be empty; or, behind another line, blanks and more of its value. */
  datatype Line =
    | Bare(name: seq<byte>, end: End)
    | Header(name: seq<byte>, blanks: seq<byte>, value: seq<byte>, end: End)
    | Fold(blanks: seq<byte>, value: seq<byte>, end: End)

  /** What a line leaves: it may be continued, as a value of a header with this meaning, or not. */
  datatype Context = Open(meaning: HeaderMatch) | Shut

  predicate Blank(b: seq<byte>) { forall i :: 0 <= i < |b| ==> b[i] == ' ' || b[i] == '\t' }

  function MeaningOf(l: Line, c: Context): HeaderMatch {
    if !l.Fold? then Meaning(l.name) else if c.Open? then c.meaning else General
  }

  function ValueOf(l: Line): seq<byte> { if l.Bare? then [] else l.value }

  predicate ValidLine(l: Line, c: Context) {
    match l
    case Bare(name, _) => IsName(name)
    case Header(name, blanks, v, _) => IsName(name) && Blank(blanks) && IsValue(v, Meaning(name))
    case Fold(blanks, v, _) => c.Open? && blanks != [] && Blank(blanks) && IsValue(v, c.meaning)
  }

  function LineText(l: Line): seq<byte> {
    match l
    case Bare(name, end) => name + EndText(end)
    case Header(name, blanks, v, end) => name + ":" + blanks + (v + EndText(end))
    case Fold(blanks, v, end) => blanks + (v + EndText(end))
  }

  function LineAtoms(l: Line): seq<Atom> {
    match l
    case Bare(name, _) => Bytes(Field, name)
    case Header(name, _, v, _) => Bytes(Field, name) + Bytes(Value, v)
    case Fold(_, v, _) => Bytes(Value, v)
  }

  /** Behind a value: only a length is still one, and no value at all ends what can be continued
      when a bare line feed follows. */
  function AfterValue(m: HeaderMatch, v: seq<byte>, end: End): Context {
    if v == [] then (if end.Crlf? then Open(General) else Shut)
    else Open(if m == HeaderMatch.ContentLength then m else General)
  }

  function ContextAfter(l: Line, c: Context): Context {
    if l.Bare? then (if l.end.Crlf? then Open(Meaning(l.name)) else Shut)
    else AfterValue(MeaningOf(l, c), l.value, l.end)
  }

  // ---- what a line asks for ----

  datatype Wish = WantsChunked | WantsKeepAlive | WantsClose | WantsUpgrade

  /** What a value of a header with this meaning asks for. */
  predicate Asks(m: HeaderMatch, v: seq<byte>, w: Wish) {
    match w
    case WantsChunked => m == TransferEncoding && Whole(v, CHUNKED)
    case WantsKeepAlive => m == Connection && Whole(v, KEEP_ALIVE)
    case WantsClose => m == Connection && Whole(v, CLOSE)
    case WantsUpgrade => m == Upgrade && v != []
  }

  predicate SaysLength(m: HeaderMatch, v: seq<byte>) { m == HeaderMatch.ContentLength && v != [] }

  function FlagsAfter(f: Flags, m: HeaderMatch, v: seq<byte>): Flags {
    f.(chunked := f.chunked || Asks(m, v, WantsChunked), keepAlive := f.keepAlive || Asks(m, v, WantsKeepAlive),
       close := f.close || Asks(m, v, WantsClose), upgrade := f.upgrade || Asks(m, v, WantsUpgrade))
  }

  /** The parser behind `n` bytes that end with this value, but for its matcher. */
  function Behind(p: Parser, m: HeaderMatch, v: seq<byte>, n: nat, c: Context): Parser
    requires IsValue(v, m)
  {
    p.(state := if c.Open? then HEADER_VALUE_LWS else HEADER_FIELD_START, nread := p.nread + n,
       flags := FlagsAfter(p.flags, m, v),
       contentLength := if SaysLength(m, v) then DecValue(DigitsIn(v)) else p.contentLength)
  }

  function AfterLine(p: Parser, l: Line, c: Context): Parser
    requires ValidLine(l, c)
  {
    Behind(p, MeaningOf(l, c), ValueOf(l), |LineText(l)|, ContextAfter(l, c))
  }

  /** The parser is where a line may start. */
  predicate At(p: Parser, c: Context) {
    if c.Open? then p.state == HEADER_VALUE_LWS && Found(p.headerState) == c.meaning else p.state == HEADER_FIELD_START
  }

  // ---- the colon and the blanks ----

  lemma Colon(p: Parser, name: seq<byte>, hc: HeadersAnswer) returns (q: Parser)
    requires p.state == HEADER_FIELD && p.nread < MAX_HEADER_SIZE && NameAt(p.headerState, p.index, Tokens(name))
    ensures q == p.(state := HEADER_VALUE_START, nread := p.nread + 1)
    ensures Reaches(p, ":", q, [], hc) && Found(q.headerState) == Meaning(name)
  {
    NameIsExact(p.headerState, p.index, name);
    hide NameStep, NameAt, Found, Meaning;
    var c := CountHeaderByte(p);
    assert Switch(c, ':', 1, hc) == AtHeaderField(c, ':');
    hide Switch;
    q := p.(state := HEADER_VALUE_START, nread := p.nread + 1);
    ReachesByte(p, ':', q, [], hc);
  }

  lemma OneBlank(p: Parser, ch: byte, hc: HeadersAnswer)
    requires p.state == HEADER_VALUE_START || p.state == HEADER_VALUE_LWS
    requires p.nread < MAX_HEADER_SIZE && (ch == ' ' || ch == '\t')
    ensures Reaches(p, [ch], p.(state := HEADER_VALUE_START, nread := p.nread + 1), [], hc)
  {
    var q := CountHeaderByte(p);
    assert Switch(q, ch, 1, hc) ==
      if p.state == HEADER_VALUE_START then AtHeaderValueStart(q, ch) else AtHeaderValueLws(q, ch);
    hide Switch;
    ReachesByte(p, ch, q.(state := HEADER_VALUE_START), [], hc);
  }

  lemma {:induction false} BlankRun(p: Parser, b: seq<byte>, hc: HeadersAnswer)
    requires p.state == HEADER_VALUE_START || (p.state == HEADER_VALUE_LWS && b != [])
    requires p.nread + |b| <= MAX_HEADER_SIZE && Blank(b)
    ensures Reaches(p, b, p.(state := HEADER_VALUE_START, nread := p.nread + |b|), [], hc)
    decreases |b|
  {
    if |b| == 1 {
      OneBlank(p, b[0], hc);
      assert b == [b[0]];
    } else if b != [] {
      hide Reaches;
      var front, last := b[..|b| - 1], b[|b| - 1];
      assert b == front + [last];
      BlankRun(p, front, hc);
      var q := p.(state := HEADER_VALUE_START, nread := p.nread + |front|);
      OneBlank(q, last, hc);
      NothingJoined();
      ReachesThen(p, front, q, [], [last], p.(state := HEADER_VALUE_START, nread := p.nread + |b|), [], hc);
    }
  }

  // ---- the end of a line ----

  lemma CrByte(p: Parser, hc: HeadersAnswer)
    requires p.state == HEADER_VALUE || p.state == HEADER_VALUE_START || p.state == HEADER_FIELD
    requires p.nread < MAX_HEADER_SIZE
    ensures var q := p.(state := HEADER_ALMOST_DONE, nread := p.nread + 1);
      Reaches(p, [CR], if p.state == HEADER_VALUE_START then q.(headerState := General, index := 0) else q, [], hc)
  {
    hide NameStep;
    var c := CountHeaderByte(p);
    assert Switch(c, CR, 1, hc) ==
      if p.state == HEADER_VALUE then AtHeaderValue(c, CR)
      else if p.state == HEADER_FIELD then AtHeaderField(c, CR)
      else AtHeaderValueStart(c, CR);
    hide Switch;
    ReachesByte(p, CR, Step(p, CR, hc).parser, [], hc);
  }

  function Settled(f: Flags, h: HeaderMatch): Flags {
    f.(chunked := f.chunked || h == Chunked, keepAlive := f.keepAlive || h == HeaderMatch.KeepAlive,
       close := f.close || h == HeaderMatch.Close)
  }

  /** Behind a carriage return, or right behind a value. */
  lemma LineFeed(p: Parser, hc: HeadersAnswer)
    requires (p.state == HEADER_ALMOST_DONE || p.state == HEADER_VALUE) && p.nread < MAX_HEADER_SIZE
    ensures Reaches(p, [LF], p.(state := HEADER_VALUE_LWS, nread := p.nread + 1,
      flags := Settled(p.flags, p.headerState)), [], hc)
  {
    var q := CountHeaderByte(p);
    var r := q.(state := HEADER_ALMOST_DONE);
    assert Switch(r, LF, 1, hc) == AtHeaderAlmostDone(r, LF);
    assert p.state == HEADER_VALUE ==> Switch(q, LF, 1, hc) == AtHeaderValue(q, LF);
    hide Switch;
    var t := r.(state := HEADER_VALUE_LWS, flags := Settled(p.flags, p.headerState));
    assert Passes(r, LF, hc) == Outcome(t, [], 0, Going);
    NothingJoined();
    ReachesByte(p, LF, t, [], hc);
  }

  /** A bare line feed behind a name, or where a value should begin. */
  lemma EarlyLf(p: Parser, hc: HeadersAnswer)
    requires (p.state == HEADER_FIELD || p.state == HEADER_VALUE_START) && p.nread < MAX_HEADER_SIZE
    ensures var q := p.(state := HEADER_FIELD_START, nread := p.nread + 1);
      Reaches(p, [LF], if p.state == HEADER_VALUE_START then q.(index := 0) else q, [], hc)
  {
    hide NameStep;
    var c := CountHeaderByte(p);
    assert Switch(c, LF, 1, hc) == if p.state == HEADER_FIELD then AtHeaderField(c, LF) else AtHeaderValueStart(c, LF);
    hide Switch;
    ReachesByte(p, LF, Step(p, LF, hc).parser, [], hc);
  }

  lemma CrLf(p: Parser, a: Parser, q: Parser, hc: HeadersAnswer)
    requires Reaches(p, [CR], a, [], hc) && Reaches(a, [LF], q, [], hc)
    ensures Reaches(p, CRLF, q, [], hc)
  {
    hide Reaches;
    NothingJoined();
    ReachesThen(p, [CR], a, [], [LF], q, [], hc);
    assert [CR] + [LF] == CRLF;
  }

  /** A matched value is the one that asks. */
  lemma ValueAsks(m: HeaderMatch, h: HeaderMatch, index: nat, v: seq<byte>)
    requires v != [] && ValueAt(m, h, index, v)
    ensures h == Chunked <==> Asks(m, v, WantsChunked)
    ensures h == HeaderMatch.KeepAlive <==> Asks(m, v, WantsKeepAlive)
    ensures h == HeaderMatch.Close <==> Asks(m, v, WantsClose)
    ensures Found(h) == if m == HeaderMatch.ContentLength then m else General
  {
    hide Lowered;
  }

  lemma EmptyAsks(m: HeaderMatch)
    ensures forall w :: !Asks(m, [], w)
    ensures Bytes(Value, []) == [] && !SaysLength(m, []) && IsValue([], m)
  {
  }

  /** From the first byte of the value, if any, to the end of the line. */
  lemma ValueLine(p: Parser, m: HeaderMatch, v: seq<byte>, end: End, hc: HeadersAnswer) returns (q: Parser)
    requires p.state == HEADER_VALUE_START && IsValue(v, m) && Found(p.headerState) == m
    requires p.nread + |v + EndText(end)| <= MAX_HEADER_SIZE
    ensures Reaches(p, v + EndText(end), q, Bytes(Value, v), hc)
    ensures SameBut(q, Behind(p, m, v, |v + EndText(end)|, AfterValue(m, v, end))) && At(q, AfterValue(m, v, end))
  {
    hide Reaches, Bytes, ValueAt, IsValue, Asks, SaysLength, LengthValue, DecValue, DigitsIn, Found, Asked, Settled;
    if v == [] {
      EmptyAsks(m);
      q := NoValue(p, end, hc);
      assert v + EndText(end) == EndText(end);
    } else {
      var a := ValueRun(p, m, v, hc);
      AskedIs(p, m, v);
      ValueSettled(a, m, v);
      q := a.(state := HEADER_VALUE_LWS, nread := a.nread + |EndText(end)|, flags := Settled(a.flags, a.headerState));
      ValueEnd(a, end, hc);
      NothingJoined();
      ReachesThen(p, v, a, Bytes(Value, v), EndText(end), q, [], hc);
    }
  }

  lemma AskedIs(p: Parser, m: HeaderMatch, v: seq<byte>)
    requires v != [] && IsValue(v, m)
    ensures Asked(p, m, v) ==
      p.(state := HEADER_VALUE, nread := p.nread + |v|,
         flags := p.flags.(upgrade := p.flags.upgrade || Asks(m, v, WantsUpgrade)),
         contentLength := if SaysLength(m, v) then DecValue(DigitsIn(v)) else p.contentLength)
  {
    hide DecValue, DigitsIn, Whole;
  }

  lemma ValueSettled(a: Parser, m: HeaderMatch, v: seq<byte>)
    requires v != [] && ValueAt(m, a.headerState, a.index, v)
    ensures Settled(a.flags, a.headerState) ==
      a.flags.(chunked := a.flags.chunked || Asks(m, v, WantsChunked),
               keepAlive := a.flags.keepAlive || Asks(m, v, WantsKeepAlive),
               close := a.flags.close || Asks(m, v, WantsClose))
    ensures Found(a.headerState) == if m == HeaderMatch.ContentLength then m else General
  {
    hide ValueAt, Asks, Found;
    ValueAsks(m, a.headerState, a.index, v);
  }

  lemma ValueEnd(p: Parser, end: End, hc: HeadersAnswer)
    requires p.state == HEADER_VALUE && p.nread + |EndText(end)| <= MAX_HEADER_SIZE
    ensures Reaches(p, EndText(end), p.(state := HEADER_VALUE_LWS, nread := p.nread + |EndText(end)|,
                                        flags := Settled(p.flags, p.headerState)), [], hc)
  {
    hide Reaches;
    if end.Crlf? {
      var a := p.(state := HEADER_ALMOST_DONE, nread := p.nread + 1);
      CrByte(p, hc);
      LineFeed(a, hc);
      CrLf(p, a, p.(state := HEADER_VALUE_LWS, nread := p.nread + 2, flags := Settled(p.flags, p.headerState)), hc);
    } else {
      LineFeed(p, hc);
    }
  }

  lemma NoValue(p: Parser, end: End, hc: HeadersAnswer) returns (q: Parser)
    requires p.state == HEADER_VALUE_START && p.nread + |EndText(end)| <= MAX_HEADER_SIZE
    ensures Reaches(p, EndText(end), q, [], hc)
    ensures At(q, if end.Crlf? then Open(General) else Shut)
    ensures SameBut(q, p.(state := q.state, nread := p.nread + |EndText(end)|))
  {
    hide Reaches;
    if end.Crlf? {
      var a := p.(state := HEADER_ALMOST_DONE, nread := p.nread + 1, headerState := General, index := 0);
      q := a.(state := HEADER_VALUE_LWS, nread := a.nread + 1, flags := Settled(a.flags, General));
      CrByte(p, hc);
      LineFeed(a, hc);
      CrLf(p, a, q, hc);
    } else {
      q := p.(state := HEADER_FIELD_START, nread := p.nread + 1, index := 0);
      EarlyLf(p, hc);
    }
  }

  /** The end of a line that has only a name. */
  lemma NameEnd(p: Parser, name: seq<byte>, end: End, hc: HeadersAnswer) returns (q: Parser)
    requires p.state == HEADER_FIELD && NameAt(p.headerState, p.index, Tokens(name))
    requires p.nread + |EndText(end)| <= MAX_HEADER_SIZE
    ensures Reaches(p, EndText(end), q, [], hc)
    ensures At(q, if end.Crlf? then Open(Meaning(name)) else Shut)
    ensures SameBut(q, p.(state := q.state, nread := p.nread + |EndText(end)|))
  {
    NameIsExact(p.headerState, p.index, name);
    NoFlag(p, name);
    hide Reaches, NameAt, Meaning;
    if end.Crlf? {
      var a := p.(state := HEADER_ALMOST_DONE, nread := p.nread + 1);
      q := a.(state := HEADER_VALUE_LWS, nread := a.nread + 1);
      CrByte(p, hc);
      LineFeed(a, hc);
      CrLf(p, a, q, hc);
    } else {
      q := p.(state := HEADER_FIELD_START, nread := p.nread + 1);
      EarlyLf(p, hc);
    }
  }

  lemma NoFlag(p: Parser, name: seq<byte>)
    requires NameAt(p.headerState, p.index, Tokens(name))
    ensures Settled(p.flags, p.headerState) == p.flags
  {
    hide Tokens;
  }

  // ---- whole lines ----

  /** Behind a line, a byte that does not continue it is the first byte of the next. */
  lemma NextLineByte(p: Parser, ch: byte, hc: HeadersAnswer)
    requires p.state == HEADER_VALUE_LWS && p.nread < MAX_HEADER_SIZE && ch != ' ' && ch != '\t'
    ensures Step(p, ch, hc) == Step(p.(state := HEADER_FIELD_START), ch, hc)
  {
    var q := CountHeaderByte(p);
    assert Switch(q, ch, 1, hc) == AtHeaderValueLws(q, ch);
    hide Switch;
    var r := Passes(q.(state := HEADER_FIELD_START), ch, hc);
    assert [] + r.atoms == r.atoms;
    assert Passes(q, ch, hc) == r;
  }

  lemma NextLine(p: Parser, c: Context, bs: seq<byte>, hc: HeadersAnswer)
    requires At(p, c) && p.nread < MAX_HEADER_SIZE && bs != [] && bs[0] != ' ' && bs[0] != '\t'
    ensures Run(p, bs, hc) == Run(p.(state := HEADER_FIELD_START), bs, hc)
  {
    hide Step;
    if p.state == HEADER_VALUE_LWS {
      NextLineByte(p, bs[0], hc);
    }
  }

  lemma NameFirst(l: Line)
    requires !l.Fold? && IsName(l.name)
    ensures LineText(l) != [] && LineText(l)[0] != ' ' && LineText(l)[0] != '\t'
  {
    TokenIsNotBreak(l.name[0]);
    assert LineText(l)[0] == l.name[0];
  }

  /** One line: its name and its value are delivered, and it sets a flag or the length exactly
      when its name and its value say so. */
  lemma LineRun(p: Parser, l: Line, c: Context, hc: HeadersAnswer) returns (q: Parser)
    requires At(p, c) && ValidLine(l, c) && p.nread + |LineText(l)| <= MAX_HEADER_SIZE
    ensures Reaches(p, LineText(l), q, LineAtoms(l), hc)
    ensures SameBut(q, AfterLine(p, l, c)) && At(q, ContextAfter(l, c))
  {
    hide Reaches, Bytes, NameAt, Found, Meaning, IsValue, FlagsAfter, SaysLength, DecValue, DigitsIn, Token, Behind,
      AfterValue;
    NothingJoined();
    match l
    case Fold(blanks, v, end) =>
      var a := p.(state := HEADER_VALUE_START, nread := p.nread + |blanks|);
      BlankRun(p, blanks, hc);
      q := ValueLine(a, c.meaning, v, end, hc);
      BehindFrom(p, a, c.meaning, v, |blanks|, end);
      ReachesThen(p, blanks, a, [], v + EndText(end), q, Bytes(Value, v), hc);
    case Header(_, _, _, _) =>
      NameFirst(l);
      NextLine(p, c, LineText(l), hc);
      q := HeaderRun(p, l, hc);
      SameRun(p, LineText(l), q, LineAtoms(l), hc);
    case Bare(_, _) =>
      NameFirst(l);
      NextLine(p, c, LineText(l), hc);
      q := BareRun(p, l, hc);
      SameRun(p, LineText(l), q, LineAtoms(l), hc);
  }

  lemma SameRun(p: Parser, bs: seq<byte>, q: Parser, atoms: seq<Atom>, hc: HeadersAnswer)
    requires Run(p, bs, hc) == Run(p.(state := HEADER_FIELD_START), bs, hc)
    requires Reaches(p.(state := HEADER_FIELD_START), bs, q, atoms, hc)
    ensures Reaches(p, bs, q, atoms, hc)
  {
    hide Run;
  }

  lemma BehindFrom(p: Parser, a: Parser, m: HeaderMatch, v: seq<byte>, n: nat, end: End)
    requires IsValue(v, m)
    requires a == p.(state := a.state, headerState := a.headerState, index := a.index, nread := p.nread + n)
    ensures var c, k := AfterValue(m, v, end), |v + EndText(end)|;
      SameBut(Behind(a, m, v, k, c), Behind(p, m, v, n + k, c))
  {
    hide FlagsAfter, DecValue, DigitsIn, IsValue;
  }

  lemma HeaderRun(p: Parser, l: Line, hc: HeadersAnswer) returns (q: Parser)
    requires l.Header? && ValidLine(l, Shut) && p.nread + |LineText(l)| <= MAX_HEADER_SIZE
    ensures Reaches(p.(state := HEADER_FIELD_START), LineText(l), q, LineAtoms(l), hc)
    ensures SameBut(q, AfterLine(p, l, Shut)) && At(q, ContextAfter(l, Shut))
  {
    hide Reaches, Bytes, NameAt, Found, Meaning, IsValue, FlagsAfter, SaysLength, DecValue, DigitsIn, Token, Behind,
      AfterValue;
    var p0 := p.(state := HEADER_FIELD_START);
    var a := NameRun(p0, l.name, hc);
    var b := Colon(a, l.name, hc);
    var c := b.(nread := b.nread + |l.blanks|);
    BlankRun(b, l.blanks, hc);
    q := ValueLine(c, Meaning(l.name), l.value, l.end, hc);
    BehindFrom(p, c.(headerState := p.headerState, index := p.index), Meaning(l.name), l.value,
      |l.name| + 1 + |l.blanks|, l.end);
    BehindSame(c, c.(headerState := p.headerState, index := p.index), Meaning(l.name), l.value, l.end);
    NothingJoined();
    var x, y := Bytes(Field, l.name), Bytes(Value, l.value);
    ReachesThen(p0, l.name, a, x, ":", b, [], hc);
    ReachesThen(p0, l.name + ":", b, x, l.blanks, c, [], hc);
    ReachesThen(p0, l.name + ":" + l.blanks, c, x, l.value + EndText(l.end), q, y, hc);
  }

  lemma BehindSame(p: Parser, q: Parser, m: HeaderMatch, v: seq<byte>, end: End)
    requires IsValue(v, m) && SameBut(p, q)
    ensures var c, k := AfterValue(m, v, end), |v + EndText(end)|;
      SameBut(Behind(p, m, v, k, c), Behind(q, m, v, k, c))
  {
    hide FlagsAfter, DecValue, DigitsIn, IsValue;
  }

  lemma BareRun(p: Parser, l: Line, hc: HeadersAnswer) returns (q: Parser)
    requires l.Bare? && ValidLine(l, Shut) && p.nread + |LineText(l)| <= MAX_HEADER_SIZE
    ensures Reaches(p.(state := HEADER_FIELD_START), LineText(l), q, LineAtoms(l), hc)
    ensures SameBut(q, AfterLine(p, l, Shut)) && At(q, ContextAfter(l, Shut))
  {
    hide Reaches, Bytes, NameAt, Found, Meaning, Asks, SaysLength, DecValue, DigitsIn, Token, AfterValue, IsValue;
    var p0 := p.(state := HEADER_FIELD_START);
    var a := NameRun(p0, l.name, hc);
    q := NameEnd(a, l.name, l.end, hc);
    EmptyAsks(Meaning(l.name));
    NothingJoined();
    ReachesThen(p0, l.name, a, Bytes(Field, l.name), EndText(l.end), q, [], hc);
  }
}
