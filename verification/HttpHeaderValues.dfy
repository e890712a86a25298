/** Header values: the value recogniser is exact. */
module HttpHeaderValues {
  import opened CBytes
  import opened HttpTypes
  import opened HttpSwitch
  import opened HttpRun
  import opened HttpBodies
  import opened HttpHeaderNames

  /** A value as its characters look with the bit for small letters set. */
  function Lowered(v: seq<byte>): string {
    seq(|v|, i requires 0 <= i < |v| => Lower(v[i]))
  }

  /** The beginning of a word, a word with spaces behind it, and neither. */
  predicate Partial(v: seq<byte>, word: string) { 0 < |v| < |word| && Lowered(v) <= word }

  predicate Whole(v: seq<byte>, word: string) {
    |v| >= |word| && Lowered(v[..|word|]) == word && forall i :: |word| <= i < |v| ==> v[i] == ' '
  }

  predicate Off(v: seq<byte>, word: string) { !(Lowered(v) <= word) && !Whole(v, word) }

  lemma LoweredJoin(v: seq<byte>, ch: byte)
    ensures Lowered(v + [ch]) == Lowered(v) + [Lower(ch)]
  {
    hide Lower;
  }

  lemma ShortIsOff(u: seq<byte>, word: string, i: nat)
    requires i < |u| <= |word| && Lower(u[i]) != word[i]
    ensures Off(u, word)
  {
    hide Lower;
    Differs(Lowered(u), word, i);
    if |u| == |word| {
      assert u[..|word|] == u;
    }
  }

  lemma PartialNext(v: seq<byte>, ch: byte, word: string)
    requires Partial(v, word)
    ensures if Lower(ch) != word[|v|] then Off(v + [ch], word)
            else if |v| + 1 == |word| then Whole(v + [ch], word)
            else Partial(v + [ch], word)
  {
    hide Lower;
    var u := v + [ch];
    if Lower(ch) == word[|v|] {
      LoweredJoin(v, ch);
      assert word[..|u|] == word[..|v|] + [word[|v|]];
      assert |u| == |word| ==> u[..|word|] == u;
    } else {
      ShortIsOff(u, word, |v|);
    }
  }

  lemma WholeNext(v: seq<byte>, ch: byte, word: string)
    requires Whole(v, word) && word != []
    ensures if ch == ' ' then Whole(v + [ch], word) else Off(v + [ch], word)
  {
    hide Lower;
    var u := v + [ch];
    assert u[..|word|] == v[..|word|];
    assert u[|v|] == ch;
  }

  lemma OffNext(v: seq<byte>, ch: byte, word: string)
    requires Off(v, word)
    ensures Off(v + [ch], word)
  {
    hide Lower;
    var u := v + [ch];
    LoweredJoin(v, ch);
    assert Lowered(v) <= Lowered(u);
    if |v| >= |word| {
      assert u[..|word|] == v[..|word|];
      assert forall i :: 0 <= i < |v| ==> u[i] == v[i];
    } else {
      var i :| 0 <= i < |v| && Lowered(v)[i] != word[i];
      assert u[i] == v[i];
      ShortIsOff(u, word, i);
    }
  }

  /** What the matcher says of the part `v` of the value of a header with this meaning. */
  predicate ValueAt(m: HeaderMatch, h: HeaderMatch, index: nat, v: seq<byte>) {
    match m
    case TransferEncoding =>
      || (h == MatchingChunked && Partial(v, CHUNKED) && index == |v| - 1)
      || (h == Chunked && Whole(v, CHUNKED))
      || (h == General && Off(v, CHUNKED))
    case Connection =>
      || (h == MatchingKeepAlive && Partial(v, KEEP_ALIVE) && Off(v, CLOSE) && index == |v| - 1)
      || (h == HeaderMatch.KeepAlive && Whole(v, KEEP_ALIVE) && Off(v, CLOSE))
      || (h == MatchingClose && Partial(v, CLOSE) && Off(v, KEEP_ALIVE) && index == |v| - 1)
      || (h == HeaderMatch.Close && Whole(v, CLOSE) && Off(v, KEEP_ALIVE))
      || (h == General && Off(v, KEEP_ALIVE) && Off(v, CLOSE))
    case ContentLength => h == HeaderMatch.ContentLength
    case _ => h == General
  }

  // ---- lengths ----

  function DigitsIn(v: seq<byte>): (d: seq<byte>)
    ensures forall i :: 0 <= i < |d| ==> IsNum(d[i])
  {
    if v == [] then []
    else DigitsIn(v[..|v| - 1]) + if IsNum(v[|v| - 1]) then [v[|v| - 1]] else []
  }

  /** Digits, with spaces between and behind them, of a number in range. */
  predicate LengthValue(v: seq<byte>) {
    && v != [] && IsNum(v[0]) && (forall i :: 0 <= i < |v| ==> IsNum(v[i]) || v[i] == ' ')
    && DecValue(DigitsIn(v)) < ULLONG_MAX
  }

  lemma FrontIsLength(v: seq<byte>)
    requires LengthValue(v) && |v| > 1
    ensures var front, last := v[..|v| - 1], v[|v| - 1];
      && LengthValue(front) && (IsNum(last) || last == ' ')
      && DecValue(DigitsIn(v)) ==
         (if IsNum(last) then DecValue(DigitsIn(front)) * 10 + Digit(last) else DecValue(DigitsIn(front)))
      && DecValue(DigitsIn(v)) < ULLONG_MAX
  {
    var front, last := v[..|v| - 1], v[|v| - 1];
    var d := DigitsIn(v);
    if IsNum(last) {
      assert d[..|d| - 1] == DigitsIn(front) && d[|d| - 1] == last;
    } else {
      assert d == DigitsIn(front);
    }
  }

  // ---- steps of a value ----

  /** The parser that goes on with a value of which `v` was read. */
  function Asked(p: Parser, m: HeaderMatch, v: seq<byte>): Parser {
    p.(state := HEADER_VALUE, nread := p.nread + |v|,
       flags := if m == Upgrade then p.flags.(upgrade := true) else p.flags,
       contentLength :=
         if m == HeaderMatch.ContentLength && LengthValue(v) then DecValue(DigitsIn(v)) else p.contentLength)
  }

  lemma FirstLetter(ch: byte)
    ensures Lower(ch) == 'c' ==> Partial([ch], CHUNKED) && Partial([ch], CLOSE) && Off([ch], KEEP_ALIVE)
    ensures Lower(ch) != 'c' ==> Off([ch], CHUNKED) && Off([ch], CLOSE)
    ensures Lower(ch) == 'k' ==> Partial([ch], KEEP_ALIVE)
    ensures Lower(ch) != 'k' ==> Off([ch], KEEP_ALIVE)
  {
    hide Lower;
    assert Lowered([ch]) == [Lower(ch)];
    if Lower(ch) != 'c' {
      ShortIsOff([ch], CHUNKED, 0);
      ShortIsOff([ch], CLOSE, 0);
    }
    if Lower(ch) != 'k' {
      ShortIsOff([ch], KEEP_ALIVE, 0);
    }
  }

  lemma OneDigit(ch: byte)
    requires IsNum(ch)
    ensures LengthValue([ch]) && DecValue(DigitsIn([ch])) == Digit(ch)
  {
    assert [ch][..0] == [];
    assert DigitsIn([ch]) == [ch];
  }

  /** The first character of a value sets the matcher. */
  lemma FirstValue(p: Parser, m: HeaderMatch, ch: byte)
    requires p.state == HEADER_VALUE && p.index == 0 && Found(p.headerState) == m
    requires m == HeaderMatch.ContentLength ==> IsNum(ch)
    ensures var r := ValueFirst(p, ch);
      && r == Go(r.parser) && ValueAt(m, r.parser.headerState, r.parser.index, [ch])
      && SameBut(r.parser, Asked(p, m, [ch]).(nread := p.nread))
  {
    hide Lower, Partial, Whole, Off, LengthValue, DecValue;
    FirstLetter(ch);
    if m == HeaderMatch.ContentLength {
      OneDigit(ch);
    }
  }

  lemma FirstValueStep(p: Parser, m: HeaderMatch, ch: byte, hc: HeadersAnswer) returns (q: Parser)
    requires p.state == HEADER_VALUE_START && p.nread < MAX_HEADER_SIZE && Found(p.headerState) == m
    requires ch != ' ' && ch != '\t' && ch != CR && ch != LF && (m == HeaderMatch.ContentLength ==> IsNum(ch))
    ensures Step(p, ch, hc) == Outcome(q, [Byte(Value, ch)], 1, Going)
    ensures SameBut(q, Asked(p, m, [ch])) && ValueAt(m, q.headerState, q.index, [ch])
  {
    hide ValueFirst, ValueAt, Found, LengthValue, DecValue, DigitsIn;
    var c := CountHeaderByte(p);
    FirstValue(c.(state := HEADER_VALUE, index := 0), m, ch);
    assert Switch(c, ch, 1, hc) == AtHeaderValueStart(c, ch);
    hide Switch;
    q := Step(p, ch, hc).parser;
  }

  lemma ValueWord(p: Parser, word: string, ch: byte, found: HeaderMatch, v: seq<byte>)
    requires Partial(v, word) && p.index == |v| - 1
    ensures var q := MatchWord(p, word, Lower(ch), found);
      && q == p.(headerState := q.headerState, index := q.index)
      && (|| (q.headerState == General && Off(v + [ch], word))
          || (q.headerState == found && Whole(v + [ch], word))
          || (q.headerState == p.headerState && q.index == |v| && Partial(v + [ch], word)))
  {
    hide Lower, Off, Whole;
    PartialNext(v, ch, word);
    MatchWordIs(p, word, Lower(ch), found, |v|);
  }

  /** A character that a length may have. */
  predicate LengthByte(n: nat, ch: byte) {
    ch == ' ' || (IsNum(ch) && n * 10 + Digit(ch) < ULLONG_MAX)
  }

  /** The length with one more character of the value. */
  function MoreLength(p: Parser, m: HeaderMatch, ch: byte): uint64
    requires m == HeaderMatch.ContentLength ==> LengthByte(p.contentLength, ch)
  {
    if m == HeaderMatch.ContentLength && IsNum(ch) then p.contentLength * 10 + Digit(ch) else p.contentLength
  }

  /** The value matcher keeps saying what it should. */
  lemma NextValue(p: Parser, m: HeaderMatch, v: seq<byte>, ch: byte)
    requires v != [] && ValueAt(m, p.headerState, p.index, v)
    requires m == HeaderMatch.ContentLength ==> LengthByte(p.contentLength, ch)
    ensures var r := ValueStep(p, ch);
      && r == Go(r.parser)
      && ValueAt(m, r.parser.headerState, r.parser.index, v + [ch])
      && r.parser == p.(headerState := r.parser.headerState, index := r.parser.index,
           contentLength := MoreLength(p, m, ch))
  {
    hide Lower, Partial, Whole, Off, MatchWord;
    OffKept(v, ch);
    match p.headerState
    case MatchingChunked => ValueWord(p, CHUNKED, ch, Chunked, v);
    case MatchingKeepAlive => ValueWord(p, KEEP_ALIVE, ch, HeaderMatch.KeepAlive, v);
    case MatchingClose => ValueWord(p, CLOSE, ch, HeaderMatch.Close, v);
    case Chunked => WholeNext(v, ch, CHUNKED);
    case KeepAlive => WholeNext(v, ch, KEEP_ALIVE);
    case Close => WholeNext(v, ch, CLOSE);
    case _ =>
  }

  lemma OffKept(v: seq<byte>, ch: byte)
    ensures Off(v, CHUNKED) ==> Off(v + [ch], CHUNKED)
    ensures Off(v, KEEP_ALIVE) ==> Off(v + [ch], KEEP_ALIVE)
    ensures Off(v, CLOSE) ==> Off(v + [ch], CLOSE)
  {
    hide Off;
    if Off(v, CHUNKED) {
      OffNext(v, ch, CHUNKED);
    }
    if Off(v, KEEP_ALIVE) {
      OffNext(v, ch, KEEP_ALIVE);
    }
    if Off(v, CLOSE) {
      OffNext(v, ch, CLOSE);
    }
  }

  lemma NextValueStep(p: Parser, m: HeaderMatch, v: seq<byte>, ch: byte, hc: HeadersAnswer) returns (q: Parser)
    requires p.state == HEADER_VALUE && p.nread < MAX_HEADER_SIZE && ch != CR && ch != LF
    requires v != [] && ValueAt(m, p.headerState, p.index, v)
    requires m == HeaderMatch.ContentLength ==> LengthByte(p.contentLength, ch)
    ensures Step(p, ch, hc) == Outcome(q, [Byte(Value, ch)], 1, Going)
    ensures ValueAt(m, q.headerState, q.index, v + [ch])
    ensures q == p.(headerState := q.headerState, index := q.index, nread := p.nread + 1,
      contentLength := MoreLength(p, m, ch))
  {
    hide ValueAt, ValueStep;
    var c := CountHeaderByte(p);
    NextValue(c, m, v, ch);
    assert Switch(c, ch, 1, hc) == AtHeaderValue(c, ch);
    hide Switch;
    q := Step(p, ch, hc).parser;
  }

  /** A value that fits in a line of a header with this meaning. */
  predicate IsValue(v: seq<byte>, m: HeaderMatch) {
    && CR !in v && LF !in v && (v != [] ==> v[0] != ' ' && v[0] != '\t')
    && (m == HeaderMatch.ContentLength && v != [] ==> LengthValue(v))
  }

  lemma FrontIsValue(v: seq<byte>, m: HeaderMatch)
    requires IsValue(v, m) && |v| > 1
    ensures IsValue(v[..|v| - 1], m)
  {
    hide LengthValue;
    if m == HeaderMatch.ContentLength {
      FrontIsLength(v);
    }
  }

  lemma LengthStart(v: seq<byte>, m: HeaderMatch)
    requires IsValue(v, m) && v != []
    ensures m == HeaderMatch.ContentLength ==> IsNum(v[0])
  {
  }

  lemma NoBreakLast(v: seq<byte>, m: HeaderMatch)
    requires IsValue(v, m) && v != []
    ensures v[|v| - 1] != CR && v[|v| - 1] != LF
  {
    hide LengthValue;
  }

  /** Of all of a value but its last character. */
  lemma AskedFront(p: Parser, r: Parser, m: HeaderMatch, v: seq<byte>)
    requires |v| > 1 && IsValue(v, m) && SameBut(r, Asked(p, m, v[..|v| - 1]))
    ensures r.state == HEADER_VALUE && r.nread == p.nread + |v| - 1
    ensures m == HeaderMatch.ContentLength ==> LengthByte(r.contentLength, v[|v| - 1])
  {
    hide LengthValue, DecValue, DigitsIn;
    if m == HeaderMatch.ContentLength {
      FrontIsLength(v);
    }
  }

  lemma AskedMore(p: Parser, r: Parser, q: Parser, m: HeaderMatch, v: seq<byte>)
    requires |v| > 1 && IsValue(v, m) && SameBut(r, Asked(p, m, v[..|v| - 1]))
    requires m == HeaderMatch.ContentLength ==> LengthByte(r.contentLength, v[|v| - 1])
    requires q == r.(headerState := q.headerState, index := q.index, nread := r.nread + 1,
                     contentLength := MoreLength(r, m, v[|v| - 1]))
    ensures SameBut(q, Asked(p, m, v))
  {
    hide LengthValue, DecValue, DigitsIn;
    if m == HeaderMatch.ContentLength {
      FrontIsLength(v);
    }
  }

  lemma {:induction false} ValueRun(p: Parser, m: HeaderMatch, v: seq<byte>, hc: HeadersAnswer) returns (q: Parser)
    requires p.state == HEADER_VALUE_START && p.nread + |v| <= MAX_HEADER_SIZE && Found(p.headerState) == m
    requires v != [] && IsValue(v, m)
    ensures Reaches(p, v, q, Bytes(Value, v), hc)
    ensures SameBut(q, Asked(p, m, v)) && ValueAt(m, q.headerState, q.index, v)
    decreases |v|
  {
    hide Reaches, Step, Bytes, ValueAt, Found, LengthValue, DecValue, DigitsIn;
    var front, last := v[..|v| - 1], v[|v| - 1];
    assert v == front + [last];
    BytesJoin(Value, front, [last]);
    SingleByte(Value, last);
    if front == [] {
      LengthStart(v, m);
      q := FirstValueStep(p, m, last, hc);
      ReachesByte(p, last, q, [Byte(Value, last)], hc);
      assert v == [last];
    } else {
      hide IsValue, Asked;
      FrontIsValue(v, m);
      NoBreakLast(v, m);
      var r := ValueRun(p, m, front, hc);
      AskedFront(p, r, m, v);
      q := NextValueStep(r, m, front, last, hc);
      AskedMore(p, r, q, m, v);
      ReachesByte(r, last, q, [Byte(Value, last)], hc);
      ReachesThen(p, front, r, Bytes(Value, front), [last], q, [Byte(Value, last)], hc);
    }
  }

  // ---- which lengths are taken ----

  lemma BadFirst(p: Parser, ch: byte, hc: HeadersAnswer)
    requires p.state == HEADER_VALUE_START && p.nread < MAX_HEADER_SIZE && p.headerState == HeaderMatch.ContentLength
    requires ch != ' ' && ch != '\t' && ch != CR && ch != LF && !IsNum(ch)
    ensures Step(p, ch, hc).status == Failed && Step(p, ch, hc).parser.errno == INVALID_CONTENT_LENGTH
  {
    hide Lower;
    var c := CountHeaderByte(p);
    assert Switch(c, ch, 1, hc) == AtHeaderValueStart(c, ch);
  }

  lemma BadNext(p: Parser, ch: byte, hc: HeadersAnswer)
    requires p.state == HEADER_VALUE && p.nread < MAX_HEADER_SIZE && p.headerState == HeaderMatch.ContentLength
    requires ch != ' ' && ch != CR && ch != LF && !IsNum(ch)
    ensures Step(p, ch, hc).status == Failed && Step(p, ch, hc).parser.errno == INVALID_CONTENT_LENGTH
  {
    hide Lower, Accumulate;
    var c := CountHeaderByte(p);
    assert Switch(c, ch, 1, hc) == AtHeaderValue(c, ch);
  }

  lemma FrontOfLength(v: seq<byte>)
    requires |v| > 1 && DecValue(DigitsIn(v)) < ULLONG_MAX && !LengthValue(v)
    ensures var front, last := v[..|v| - 1], v[|v| - 1];
      && DecValue(DigitsIn(front)) < ULLONG_MAX
      && (LengthValue(front) ==> !IsNum(last) && last != ' ')
  {
    var front, last := v[..|v| - 1], v[|v| - 1];
    var d := DigitsIn(v);
    if IsNum(last) {
      assert d[..|d| - 1] == DigitsIn(front) && d[|d| - 1] == last;
    } else {
      assert d == DigitsIn(front);
    }
  }

  lemma RunFails(p: Parser, front: seq<byte>, last: byte, hc: HeadersAnswer)
    requires var r := Run(p, front, hc);
      || (r.status == Failed && r.parser.errno == INVALID_CONTENT_LENGTH)
      || (r.status == Going && Step(r.parser, last, hc).status == Failed
          && Step(r.parser, last, hc).parser.errno == INVALID_CONTENT_LENGTH)
    ensures var r := Run(p, front + [last], hc); r.status == Failed && r.parser.errno == INVALID_CONTENT_LENGTH
  {
    hide Step, Run;
    RunSplit(p, front, [last], hc);
    RunOne(Run(p, front, hc).parser, last, hc);
  }

  /** Below the wrap a Content-Length value is taken if and only if it is digits with spaces
      between and behind them; any other is an error. */
  lemma {:induction false} LengthTakenIff(p: Parser, v: seq<byte>, hc: HeadersAnswer)
    requires p.state == HEADER_VALUE_START && p.nread + |v| <= MAX_HEADER_SIZE
    requires p.headerState == HeaderMatch.ContentLength
    requires v != [] && CR !in v && LF !in v && v[0] != ' ' && v[0] != '\t' && DecValue(DigitsIn(v)) < ULLONG_MAX
    ensures var r := Run(p, v, hc);
      && (r.status == Going <==> LengthValue(v))
      && (LengthValue(v) ==> r.parser.contentLength == DecValue(DigitsIn(v)))
      && (!LengthValue(v) ==> r.status == Failed && r.parser.errno == INVALID_CONTENT_LENGTH)
    decreases |v|
  {
    hide Step, Run, LengthValue, DecValue, DigitsIn;
    var m := HeaderMatch.ContentLength;
    if LengthValue(v) {
      var q := ValueRun(p, m, v, hc);
    } else {
      var front, last := v[..|v| - 1], v[|v| - 1];
      assert v == front + [last];
      if front == [] {
        OneDigitOnly(last);
        assert v == [last];
        BadFirst(p, last, hc);
        RunOne(p, last, hc);
      } else {
        FrontOfLength(v);
        LengthTakenIff(p, front, hc);
        if LengthValue(front) {
          var q := ValueRun(p, m, front, hc);
          BadNext(q, last, hc);
        }
        RunFails(p, front, last, hc);
      }
    }
  }

  lemma OneDigitOnly(ch: byte)
    ensures IsNum(ch) ==> LengthValue([ch])
  {
    if IsNum(ch) {
      OneDigit(ch);
    }
  }

  /** No digit comes behind a space. */
  predicate PlainDigits(v: seq<byte>) { forall i, j :: 0 <= i < j < |v| && v[i] == ' ' ==> !IsNum(v[j]) }

  /** The digits that count are those before the first space exactly when no digit comes behind a
      space; otherwise the digits behind it are joined to them. */
  lemma {:induction false} PlainLengthIff(v: seq<byte>)
    requires LengthValue(v)
    ensures DigitsIn(v) == DigitPrefix(v) <==> PlainDigits(v)
    decreases |v|
  {
    var front, last := v[..|v| - 1], v[|v| - 1];
    assert v == front + [last];
    if |v| == 1 {
      OneDigit(last);
      assert v == [last] && [last][1..] == [];
      assert DigitsIn([]) == [] && v[..0] == [];
    } else {
      FrontIsLength(v);
      PlainLengthIff(front);
      PrefixMore(front, last);
      PlainMore(front, last);
      PrefixCount(front);
      SpaceBehindPrefix(front);
      DigitsMore(front, last);
      hide DecValue, LengthValue, DigitsIn, DigitPrefix, PlainDigits;
      NoPlainWithout(front);
      var d, f := DigitsIn(front), DigitPrefix(front);
      if IsNum(last) {
        assert |d + [last]| > |f|;
        assert d == f <==> d + [last] == f + [last] by {
          assert (d + [last])[..|d|] == d && (f + [last])[..|f|] == f;
        }
      }
    }
  }

  lemma DigitsMore(front: seq<byte>, last: byte)
    ensures DigitsIn(front + [last]) == DigitsIn(front) + if IsNum(last) then [last] else []
  {
    assert (front + [last])[..|front|] == front;
  }

  lemma NoPlainWithout(v: seq<byte>)
    ensures ' ' !in v ==> PlainDigits(v)
  {
  }

  lemma {:induction false} PrefixCount(v: seq<byte>)
    ensures |DigitPrefix(v)| <= |DigitsIn(v)|
    decreases |v|
  {
    if v == [] {
    } else {
      var front, last := v[..|v| - 1], v[|v| - 1];
      PrefixCount(front);
      PrefixMore(front, last);
      assert v == front + [last];
      if |DigitPrefix(front)| == |front| && IsNum(last) {
        DigitsMore(front, last);
      }
    }
  }

  lemma SpaceBehindPrefix(v: seq<byte>)
    requires forall i :: 0 <= i < |v| ==> IsNum(v[i]) || v[i] == ' '
    ensures |DigitPrefix(v)| == |v| <==> ' ' !in v
  {
    var d := DigitPrefix(v);
    if |d| < |v| {
      assert v[|d|] == ' ';
    } else {
      assert d == v;
    }
  }

  lemma PlainMore(front: seq<byte>, last: byte)
    ensures PlainDigits(front + [last]) <==> PlainDigits(front) && (IsNum(last) ==> ' ' !in front)
  {
    var v := front + [last];
    assert v[|front|] == last && forall i :: 0 <= i < |front| ==> v[i] == front[i];
    if ' ' in front {
      var i :| 0 <= i < |front| && front[i] == ' ';
      assert v[i] == ' ';
    }
  }

  lemma {:induction false} PrefixMore(front: seq<byte>, last: byte)
    ensures DigitPrefix(front + [last]) ==
      if |DigitPrefix(front)| == |front| && IsNum(last) then DigitPrefix(front) + [last] else DigitPrefix(front)
  {
    if front == [] {
      assert front + [last] == [last] && [last][1..] == [];
    } else {
      assert (front + [last])[1..] == front[1..] + [last];
      PrefixMore(front[1..], last);
    }
  }
}
