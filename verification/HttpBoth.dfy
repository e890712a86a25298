/** A parser that is to find out whether it reads a request or a response: from the second byte on
    it is a parser of the one or of the other. */
module HttpBoth {
  import opened CBytes
  import opened HttpTypes
  import opened HttpSwitch
  import opened HttpRun
  import opened HttpStartLine
  import opened HttpBodies

  /** The same struct, as a parser of requests or of responses that waits for a message. */
  function As(p: Parser, t: ParserType): Parser
    requires !t.Both?
  {
    p.(ptype := t, state := if t.Request? then START_REQ else START_RES)
  }

  lemma OtherByte(p: Parser, ch: byte, hc: HeadersAnswer)
    requires p.state == START_REQ_OR_RES && p.nread < MAX_HEADER_SIZE && ch != CR && ch != LF && ch != 'H'
    ensures Step(p, ch, hc) == Step(As(p, Request), ch, hc)
  {
    hide AtStartReq;
    var q, r := CountHeaderByte(p), CountHeaderByte(As(p, Request));
    assert Switch(q, ch, 1, hc) == AtStartReqOrRes(q, ch);
    assert Switch(r, ch, 1, hc) == AtStartReq(r, ch);
    assert Switch(Fresh(q).(ptype := Request, state := START_REQ), ch, 1, hc) ==
           AtStartReq(Fresh(q).(ptype := Request, state := START_REQ), ch);
    SameStart(r, Fresh(q).(ptype := Request, state := START_REQ), ch);
    PassesOnce(q, ch, hc);
    PassesOnce(r, ch, hc);
    PassesOnce(Fresh(q).(ptype := Request, state := START_REQ), ch, hc);
    hide Switch, Passes;
    NothingJoined();
    StepInLine(p, ch, hc);
    StepInLine(As(p, Request), ch, hc);
  }

  /** The start of a request sets what a fresh struct has. */
  lemma SameStart(p: Parser, q: Parser, ch: byte)
    requires q == Fresh(p) && ch != CR && ch != LF
    ensures AtStartReq(p, ch) == AtStartReq(q, ch)
  {
    hide FirstCandidate;
  }

  lemma PassesOnce(p: Parser, ch: byte, hc: HeadersAnswer)
    ensures var r := Switch(p, ch, 1, hc);
      Passes(p, ch, hc) ==
        if r.next == Again then
          TidySwitch(p, ch, 1, hc);
          var rest := Passes(r.parser, ch, hc);
          rest.(atoms := NotesOf(r.call) + rest.atoms)
        else Outcome(r.parser, NotesOf(r.call), 0, StatusOf(r.next))
  {
    hide Switch;
  }

  /** Line breaks before the message are skipped. */
  lemma BreakByte(p: Parser, ch: byte, hc: HeadersAnswer)
    requires p.state == START_REQ_OR_RES && p.nread < MAX_HEADER_SIZE && (ch == CR || ch == LF)
    ensures Reaches(p, [ch], p.(nread := p.nread + 1), [], hc)
  {
    var c := CountHeaderByte(p);
    assert Switch(c, ch, 1, hc) == AtStartReqOrRes(c, ch);
    hide Switch;
    ReachesByte(p, ch, c, [], hc);
  }

  lemma OpenH(p: Parser, hc: HeadersAnswer)
    requires p.state == START_REQ_OR_RES && p.nread < MAX_HEADER_SIZE
    ensures Reaches(p, "H", Fresh(p).(nread := p.nread + 1, state := RES_OR_RESP_H), [Note(MessageBegin)], hc)
  {
    assert Switch(CountHeaderByte(p), 'H', 1, hc) == AtStartReqOrRes(CountHeaderByte(p), 'H');
    hide Switch;
    ReachesByte(p, 'H', Fresh(p).(nread := p.nread + 1, state := RES_OR_RESP_H), [Note(MessageBegin)], hc);
  }

  lemma ResponseH(p: Parser, hc: HeadersAnswer)
    requires p.state == START_RES && p.nread < MAX_HEADER_SIZE
    ensures Reaches(p, "H", Fresh(p).(nread := p.nread + 1, state := RES_H), [Note(MessageBegin)], hc)
  {
    assert Switch(CountHeaderByte(p), 'H', 1, hc) == AtStartRes(CountHeaderByte(p), 'H');
    hide Switch;
    ReachesByte(p, 'H', Fresh(p).(nread := p.nread + 1, state := RES_H), [Note(MessageBegin)], hc);
  }

  lemma RequestH(p: Parser, hc: HeadersAnswer)
    requires p.state == START_REQ && p.nread < MAX_HEADER_SIZE
    ensures Reaches(p, "H", Fresh(p).(nread := p.nread + 1, state := REQ_METHOD, verb := HEAD, index := 1),
                    [Note(MessageBegin)], hc)
  {
    assert Switch(CountHeaderByte(p), 'H', 1, hc) == AtStartReq(CountHeaderByte(p), 'H');
    hide Switch;
    ReachesByte(p, 'H', Fresh(p).(nread := p.nread + 1, state := REQ_METHOD, verb := HEAD, index := 1),
                [Note(MessageBegin)], hc);
  }

  /** An 'H' announces a message either way. */
  lemma FirstH(p: Parser, hc: HeadersAnswer)
    requires p.state == START_REQ_OR_RES && p.nread < MAX_HEADER_SIZE
    ensures var q := Fresh(p).(nread := p.nread + 1);
      && Reaches(p, "H", q.(state := RES_OR_RESP_H), [Note(MessageBegin)], hc)
      && Reaches(As(p, Response), "H", q.(ptype := Response, state := RES_H), [Note(MessageBegin)], hc)
      && Reaches(As(p, Request), "H", q.(ptype := Request, state := REQ_METHOD, verb := HEAD, index := 1),
                 [Note(MessageBegin)], hc)
  {
    hide Reaches;
    OpenH(p, hc);
    ResponseH(As(p, Response), hc);
    RequestH(As(p, Request), hc);
  }

  /** The byte behind it tells. */
  lemma SecondByte(p: Parser, hc: HeadersAnswer)
    requires p.state == RES_OR_RESP_H && p.nread < MAX_HEADER_SIZE
    ensures var q := p.(nread := p.nread + 1);
      && Reaches(p, "T", q.(ptype := Response, state := RES_HT), [], hc)
      && Reaches(p.(ptype := Response, state := RES_H), "T", q.(ptype := Response, state := RES_HT), [], hc)
      && Reaches(p, "E", q.(ptype := Request, state := REQ_METHOD, verb := HEAD, index := 2), [], hc)
      && Reaches(p.(ptype := Request, state := REQ_METHOD, verb := HEAD, index := 1), "E",
                 q.(ptype := Request, state := REQ_METHOD, verb := HEAD, index := 2), [], hc)
  {
    hide Reaches;
    var q := p.(nread := p.nread + 1);
    QuietByte(p, 'T', q.(ptype := Response, state := RES_HT), hc);
    QuietByte(p.(ptype := Response, state := RES_H), 'T', q.(ptype := Response, state := RES_HT), hc);
    QuietByte(p, 'E', q.(ptype := Request, state := REQ_METHOD, verb := HEAD, index := 2), hc);
    QuietByte(p.(ptype := Request, state := REQ_METHOD, verb := HEAD, index := 1), 'E',
              q.(ptype := Request, state := REQ_METHOD, verb := HEAD, index := 2), hc);
  }

  lemma NeitherByte(p: Parser, ch: byte, hc: HeadersAnswer)
    requires p.state == RES_OR_RESP_H && p.nread < MAX_HEADER_SIZE && ch != 'T' && ch != 'E'
    ensures Run(p, [ch], hc).status == Failed && Run(p, [ch], hc).parser.errno == INVALID_CONSTANT
  {
    hide Step, Run;
    NeitherStep(p, ch, hc);
    RunOne(p, ch, hc);
  }

  lemma NeitherStep(p: Parser, ch: byte, hc: HeadersAnswer)
    requires p.state == RES_OR_RESP_H && p.nread < MAX_HEADER_SIZE && ch != 'T' && ch != 'E'
    ensures Step(p, ch, hc).status == Failed && Step(p, ch, hc).parser.errno == INVALID_CONSTANT
  {
    assert Switch(CountHeaderByte(p), ch, 1, hc) == AtResOrRespH(CountHeaderByte(p), ch);
    hide Switch, Step;
    StepInLine(p, ch, hc);
  }

  /** Two runs that reach the same struct with the same atoms go on in the same way. */
  lemma SameBehind(p: Parser, q: Parser, a: seq<byte>, r: Parser, atoms: seq<Atom>, b: seq<byte>, hc: HeadersAnswer)
    requires Reaches(p, a, r, atoms, hc) && Reaches(q, a, r, atoms, hc)
    ensures Run(p, a + b, hc) == Run(q, a + b, hc)
  {
    hide Run, Step;
    RunSplit(p, a, b, hc);
    RunSplit(q, a, b, hc);
  }

  /** A message that begins with HT is read as a response, one with HE or another letter as a
      request, exactly as by a parser of that kind; another letter behind an H is an error. */
  lemma ReadsAsOne(p: Parser, data: seq<byte>, hc: HeadersAnswer)
    requires p.state == START_REQ_OR_RES && p.nread + 2 <= MAX_HEADER_SIZE
    requires |data| >= 2 && data[0] != CR && data[0] != LF
    ensures data[0] == 'H' && data[1] == 'T' ==> Run(p, data, hc) == Run(As(p, Response), data, hc)
    ensures data[0] == 'H' && data[1] == 'E' ==> Run(p, data, hc) == Run(As(p, Request), data, hc)
    ensures data[0] != 'H' ==> Run(p, data, hc) == Run(As(p, Request), data, hc)
    ensures data[0] == 'H' && data[1] != 'T' && data[1] != 'E' ==>
      Run(p, data, hc).status == Failed && Run(p, data, hc).parser.errno == INVALID_CONSTANT
  {
    hide Reaches, Step, Fresh;
    if data[0] != 'H' {
      OtherByte(p, data[0], hc);
    } else {
      hide Run;
      var c, rest := data[1], data[2..];
      var q := Fresh(p).(nread := p.nread + 1);
      var r := q.(state := RES_OR_RESP_H);
      assert data == "H" + [c] + rest;
      FirstH(p, hc);
      FreshKeeps(p);
      if c == 'T' || c == 'E' {
        SecondByte(r, hc);
        BothWays(p, c, q, rest, hc);
      } else {
        NeitherByte(r, c, hc);
        FailsBehind(p, r, c, rest, hc);
      }
    }
  }

  lemma FreshKeeps(p: Parser)
    ensures Fresh(p).state == p.state && Fresh(p).nread == p.nread
  {
  }

  lemma BothWays(p: Parser, c: byte, q: Parser, rest: seq<byte>, hc: HeadersAnswer)
    requires q == Fresh(p).(nread := p.nread + 1) && (c == 'T' || c == 'E')
    requires p.state == START_REQ_OR_RES && p.nread + 2 <= MAX_HEADER_SIZE
    ensures Run(p, "H" + [c] + rest, hc) == Run(As(p, if c == 'T' then Response else Request), "H" + [c] + rest, hc)
  {
    hide Reaches, Step, Run;
    var note := [Note(MessageBegin)];
    var r := q.(state := RES_OR_RESP_H);
    FirstH(p, hc);
    SecondByte(r, hc);
    NothingJoined();
    var end := if c == 'T' then q.(ptype := Response, state := RES_HT, nread := q.nread + 1)
               else q.(ptype := Request, state := REQ_METHOD, verb := HEAD, index := 2, nread := q.nread + 1);
    var other := if c == 'T' then q.(ptype := Response, state := RES_H)
                 else q.(ptype := Request, state := REQ_METHOD, verb := HEAD, index := 1);
    var s := As(p, if c == 'T' then Response else Request);
    ReachesThen(p, "H", r, note, [c], end, [], hc);
    ReachesThen(s, "H", other, note, [c], end, [], hc);
    SameBehind(p, s, "H" + [c], end, note, rest, hc);
  }

  lemma FailsBehind(p: Parser, r: Parser, c: byte, rest: seq<byte>, hc: HeadersAnswer)
    requires Reaches(p, "H", r, [Note(MessageBegin)], hc)
    requires Run(r, [c], hc).status == Failed && Run(r, [c], hc).parser.errno == INVALID_CONSTANT
    ensures var o := Run(p, "H" + [c] + rest, hc); o.status == Failed && o.parser.errno == INVALID_CONSTANT
  {
    hide Run, Step;
    RunSplit(p, "H", [c], hc);
    RunSplit(p, "H" + [c], rest, hc);
  }
}
