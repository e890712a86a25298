/** The request-method recogniser: one candidate, an index into it, and switches to another
    candidate when a character differs. It accepts exactly the 26 method names. */
module HttpMethods {
  import opened CBytes
  import opened HttpTypes
  import opened HttpSwitch
  import opened HttpRun

  /** The bytes consumed are the index-long prefix of the current candidate. */
  ghost predicate Recognising(p: Parser, consumed: seq<byte>) {
    && p.state == REQ_METHOD
    && p.index == |consumed| <= |MethodString(p.verb)|
    && consumed == MethodString(p.verb)[..p.index]
  }

  /** The parser `k` bytes into the method of a new message. */
  function Reading(p: Parser, m: Method, k: nat): Parser {
    Fresh(p).(state := REQ_METHOD, verb := m, index := k, nread := p.nread + k)
  }

  /** A switch of candidate agrees with all that was consumed, and with the new character. */
  ghost predicate Agrees(m: Method, i: nat, ch: byte, n: Method)
    requires i <= |MethodString(m)|
  {
    i < |MethodString(n)| && MethodString(n)[i] == ch && MethodString(n)[..i] == MethodString(m)[..i]
  }

  lemma CopyAndMoveAgree(m: Method, i: nat, ch: byte)
    requires m == CONNECT || m == MKCOL
    requires NextCandidate(m, i, ch).Some? && i <= |MethodString(m)|
    ensures Agrees(m, i, ch, NextCandidate(m, i, ch).value)
  {
  }

  lemma PostAgrees(i: nat, ch: byte)
    requires NextCandidate(POST, i, ch).Some? && i <= |MethodString(POST)|
    ensures Agrees(POST, i, ch, NextCandidate(POST, i, ch).value)
  {
  }

  lemma SwitchAgrees(m: Method, i: nat, ch: byte)
    requires NextCandidate(m, i, ch).Some? && i <= |MethodString(m)|
    ensures Agrees(m, i, ch, NextCandidate(m, i, ch).value)
  {
    if m == CONNECT || m == MKCOL {
      CopyAndMoveAgree(m, i, ch);
    } else if m == POST {
      PostAgrees(i, ch);
    } else {
      assert m == SUBSCRIBE || m == PUT || m == UNLOCK || m == PROPFIND;
    }
  }

  lemma FirstAgrees(ch: byte)
    requires FirstCandidate(ch).Some?
    ensures var m := FirstCandidate(ch).value; |MethodString(m)| > 1 && MethodString(m)[0] == ch
  {
  }

  /** A byte of the method, other than a space. */
  lemma MethodByte(p: Parser, consumed: seq<byte>, ch: byte, hc: HeadersAnswer)
    requires Recognising(p, consumed) && ch != ' '
    ensures var r := Step(p, ch, hc);
      r.status == Going ==> Recognising(r.parser, consumed + [ch])
  {
    hide MethodString, NextCandidate;
    var q := CountHeaderByte(p);
    if NextCandidate(p.verb, p.index, ch).Some? {
      SwitchAgrees(p.verb, p.index, ch);
    }
    assert Switch(q, ch, 1, hc) == AtReqMethod(q, ch);
    var r := Step(p, ch, hc);
    if r.status == Going {
      assert r.parser.index == p.index + 1;
      assert MethodString(r.parser.verb)[..p.index + 1] ==
             MethodString(r.parser.verb)[..p.index] + [MethodString(r.parser.verb)[p.index]];
    }
  }

  lemma FirstByte(p: Parser, ch: byte, hc: HeadersAnswer)
    requires p.state == START_REQ && ch != CR && ch != LF
    ensures var r := Step(p, ch, hc);
      && (r.status == Going ==> Recognising(r.parser, [ch]) && FirstCandidate(ch) == Some(r.parser.verb))
      && (FirstCandidate(ch).Some? && IsAlpha(ch) && p.nread < MAX_HEADER_SIZE ==>
            r == Outcome(Reading(p, FirstCandidate(ch).value, 1), [Note(MessageBegin)], 1, Going))
  {
    hide MethodString, FirstCandidate;
    var q := CountHeaderByte(p);
    if FirstCandidate(ch).Some? {
      FirstAgrees(ch);
      var m := FirstCandidate(ch).value;
      assert MethodString(m)[..1] == [MethodString(m)[0]];
    }
    assert Switch(q, ch, 1, hc) == AtStartReq(q, ch);
  }

  lemma {:induction false} ConsumedIsPrefix(p: Parser, u: seq<byte>, hc: HeadersAnswer)
    requires p.state == START_REQ && u != [] && ' ' !in u && u[0] != CR && u[0] != LF
    ensures var r := Run(p, u, hc); r.status == Going ==> Recognising(r.parser, u)
    decreases |u|
  {
    hide Step, Recognising, Run;
    var front, last := u[..|u| - 1], u[|u| - 1];
    assert u == front + [last];
    RunSplit(p, front, [last], hc);
    if front == [] {
      FirstByte(p, last, hc);
      SingleRun(p, last, hc);
    } else {
      ConsumedIsPrefix(p, front, hc);
      var r := Run(p, front, hc);
      if r.status == Going {
        MethodByte(r.parser, front, last, hc);
        SingleRun(r.parser, last, hc);
      }
    }
  }

  lemma SingleRun(p: Parser, ch: byte, hc: HeadersAnswer)
    ensures Run(p, [ch], hc) == Step(p, ch, hc)
    ensures Run(p, [], hc) == Outcome(p, [], 0, Going)
  {
    hide Step;
    RunOne(p, ch, hc);
  }

  lemma NoSpaceInside(m: Method, i: nat)
    requires i < |MethodString(m)|
    ensures MethodString(m)[i] != ' '
  {
  }

  /** The space is accepted exactly after the last character of the candidate. */
  lemma SpaceByte(p: Parser, consumed: seq<byte>, hc: HeadersAnswer)
    requires Recognising(p, consumed)
    ensures var r := Step(p, ' ', hc);
      && (r.status == Going ==> consumed == MethodString(p.verb))
      && (consumed == MethodString(p.verb) && p.nread < MAX_HEADER_SIZE ==>
            r == Outcome(p.(state := REQ_SPACES_BEFORE_URL, index := p.index + 1, nread := p.nread + 1), [], 1, Going))
      && (r.status == Going ==> r.parser.state == REQ_SPACES_BEFORE_URL && r.parser.verb == p.verb)
  {
    hide MethodString;
    var q := CountHeaderByte(p);
    if p.index < |MethodString(p.verb)| {
      NoSpaceInside(p.verb, p.index);
    }
    assert NextCandidate(p.verb, p.index, ' ').None?;
    assert Switch(q, ' ', 1, hc) == AtReqMethod(q, ' ');
  }

  // ---- completeness ----

  /** The candidate that `k` characters of method `m` lead to. */
  function Candidate(m: Method, k: nat): Method {
    match m
    case COPY => if k <= 2 then CONNECT else m
    case CHECKOUT => if k <= 1 then CONNECT else m
    case MOVE => if k <= 1 then MKCOL else m
    case MERGE => if k <= 1 then MKCOL else m
    case MSEARCH => if k <= 1 then MKCOL else m
    case MKACTIVITY => if k <= 2 then MKCOL else m
    case SEARCH => if k <= 1 then SUBSCRIBE else m
    case PROPFIND => if k <= 1 then POST else m
    case PROPPATCH => if k <= 1 then POST else if k <= 4 then PROPFIND else m
    case PUT => if k <= 1 then POST else m
    case PATCH => if k <= 1 then POST else m
    case PURGE => if k <= 1 then POST else if k <= 2 then PUT else m
    case UNSUBSCRIBE => if k <= 2 then UNLOCK else m
    case _ => m
  }

  lemma FirstLeads(m: Method)
    ensures var ch := MethodString(m)[0];
      FirstCandidate(ch) == Some(Candidate(m, 1)) && IsAlpha(ch) && ch != CR && ch != LF
  {
  }

  ghost predicate LeadsOn(m: Method, k: nat)
    requires 1 <= k < |MethodString(m)|
  {
    var v := Candidate(m, k);
    var ch := MethodString(m)[k];
    && ch != '\0' && ch != ' '
    && k <= |MethodString(v)|
    && if k < |MethodString(v)| && MethodString(v)[k] == ch then Candidate(m, k + 1) == v
       else NextCandidate(v, k, ch) == Some(Candidate(m, k + 1))
  }

  /** Methods that are not reached by a switch. */
  predicate OwnCandidate(m: Method) {
    m == DELETE || m == GET || m == HEAD || m == POST || m == CONNECT || m == OPTIONS || m == TRACE ||
    m == LOCK || m == MKCOL || m == UNLOCK || m == REPORT || m == NOTIFY || m == SUBSCRIBE
  }

  lemma CommonLeads(m: Method, k: nat)
    requires 1 <= k < |MethodString(m)|
    requires m == DELETE || m == GET || m == HEAD || m == POST || m == CONNECT || m == OPTIONS || m == TRACE
    ensures LeadsOn(m, k)
  {
  }

  lemma OwnLeads(m: Method, k: nat)
    requires 1 <= k < |MethodString(m)|
    requires m == LOCK || m == MKCOL || m == UNLOCK || m == REPORT || m == NOTIFY || m == SUBSCRIBE
    ensures LeadsOn(m, k)
  {
  }

  lemma PNamesLead(m: Method, k: nat)
    requires 1 <= k < |MethodString(m)|
    requires m == PROPFIND || m == PROPPATCH || m == PUT || m == PATCH || m == PURGE
    ensures LeadsOn(m, k)
  {
  }

  lemma MNamesLead(m: Method, k: nat)
    requires 1 <= k < |MethodString(m)|
    requires m == MOVE || m == MERGE || m == MSEARCH || m == MKACTIVITY
    ensures LeadsOn(m, k)
  {
  }

  lemma OthersLead(m: Method, k: nat)
    requires 1 <= k < |MethodString(m)|
    requires m == COPY || m == CHECKOUT || m == SEARCH || m == UNSUBSCRIBE
    ensures LeadsOn(m, k)
  {
  }

  /** The next character of `m` is the candidate's, or switches to the right candidate. */
  lemma NextLeads(m: Method, k: nat)
    requires 1 <= k < |MethodString(m)|
    ensures LeadsOn(m, k)
  {
    hide MethodString, Candidate, NextCandidate, LeadsOn;
    if OwnCandidate(m) {
      if m == DELETE || m == GET || m == HEAD || m == POST || m == CONNECT || m == OPTIONS || m == TRACE {
        CommonLeads(m, k);
      } else {
        OwnLeads(m, k);
      }
    } else if m == PROPFIND || m == PROPPATCH || m == PUT || m == PATCH || m == PURGE {
      PNamesLead(m, k);
    } else if m == MOVE || m == MERGE || m == MSEARCH || m == MKACTIVITY {
      MNamesLead(m, k);
    } else {
      OthersLead(m, k);
    }
  }

  /** After `k` characters of `m` the parser has the candidate they lead to. */
  lemma {:induction false} Leads(p: Parser, m: Method, k: nat, hc: HeadersAnswer)
    requires p.state == START_REQ && 1 <= k <= |MethodString(m)| && p.nread + k <= MAX_HEADER_SIZE
    ensures var r := Run(p, MethodString(m)[..k], hc);
      && r == Outcome(Reading(p, Candidate(m, k), k), [Note(MessageBegin)], k, Going)
      && Recognising(r.parser, MethodString(m)[..k])
    decreases k
  {
    hide MethodString, Candidate, NextCandidate, Step, Recognising, Run;
    var w := MethodString(m);
    assert w[..k] == w[..k - 1] + [w[k - 1]];
    RunSplit(p, w[..k - 1], [w[k - 1]], hc);
    if k == 1 {
      FirstLeads(m);
      SingleRun(p, w[0], hc);
      FirstByte(p, w[0], hc);
      assert w[..0] == [] && w[..1] == [w[0]];
    } else {
      Leads(p, m, k - 1, hc);
      var q := Run(p, w[..k - 1], hc).parser;
      NextLeads(m, k - 1);
      SingleRun(q, w[k - 1], hc);
      MethodByte(q, w[..k - 1], w[k - 1], hc);
      NextByteGoes(q, w[..k - 1], w[k - 1], Candidate(m, k), hc);
    }
  }

  lemma NextByteGoes(p: Parser, consumed: seq<byte>, ch: byte, next: Method, hc: HeadersAnswer)
    requires Recognising(p, consumed) && p.nread < MAX_HEADER_SIZE && ch != ' ' && ch != '\0'
    requires var k := |consumed|;
      if k < |MethodString(p.verb)| && MethodString(p.verb)[k] == ch then next == p.verb
      else NextCandidate(p.verb, k, ch) == Some(next)
    ensures Step(p, ch, hc) == Outcome(p.(verb := next, index := p.index + 1, nread := p.nread + 1), [], 1, Going)
  {
    hide MethodString, NextCandidate;
    var q := CountHeaderByte(p);
    assert Switch(q, ch, 1, hc) == AtReqMethod(q, ch);
  }

  lemma NoEmptyName(m: Method)
    ensures |MethodString(m)| > 0
  {
  }

  /** At the start of a request, what precedes the first space is accepted as the method if and
      only if it is one of the method names, and then that method is recorded. */
  lemma MethodRecognised(p: Parser, w: seq<byte>, hc: HeadersAnswer)
    requires p.state == START_REQ && p.nread + |w| < MAX_HEADER_SIZE
    requires ' ' !in w && (w != [] ==> w[0] != CR && w[0] != LF)
    ensures var r := Run(p, w + [' '], hc);
      && (r.status == Going <==> exists m :: MethodString(m) == w)
      && (r.status == Going ==> r.parser.state == REQ_SPACES_BEFORE_URL && MethodString(r.parser.verb) == w)
  {
    hide MethodString, Step, Recognising, Run, NextCandidate;
    RunSplit(p, w, [' '], hc);
    var r := Run(p, w, hc);
    SingleRun(r.parser, ' ', hc);
    if w == [] {
      SingleRun(p, ' ', hc);
      NotAMethod(p, hc);
      forall m ensures MethodString(m) != w {
        NoEmptyName(m);
      }
    } else {
      ConsumedIsPrefix(p, w, hc);
      if r.status == Going {
        SpaceByte(r.parser, w, hc);
      }
      forall m | MethodString(m) == w ensures Run(p, w + [' '], hc).status == Going {
        Leads(p, m, |w|, hc);
        assert w[..|w|] == w;
        AllLead(m);
      }
    }
  }

  lemma NotAMethod(p: Parser, hc: HeadersAnswer)
    requires p.state == START_REQ
    ensures Step(p, ' ', hc).status == Failed
  {
    hide MethodString;
    var q := CountHeaderByte(p);
    assert Switch(q, ' ', 1, hc) == AtStartReq(q, ' ');
  }

  lemma AllLead(m: Method)
    ensures Candidate(m, |MethodString(m)|) == m
  {
  }
}
