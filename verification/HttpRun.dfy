/** The parser as a machine that takes one byte at a time: a byte takes one or more passes
    of the switch, and a byte of data is delivered as itself. Nothing here knows of marks,
    of bulk skips or of where one call ends and the next begins. */
module HttpRun {
  import opened CBytes
  import opened HttpTypes
  import opened HttpSwitch

  datatype Status = Going | Failed | Stopped | Asserted

  /** What a byte delivers: notices, and the byte itself when it is data. */
  datatype Atom = Byte(kind: DataKind, value: byte) | Note(notice: Notice)

  datatype Outcome = Outcome(parser: Parser, atoms: seq<Atom>, consumed: nat, status: Status)

  function StatusOf(n: Next): Status {
    match n
    case Continue => Going
    case Again => Going
    case Fail => Failed
    case Stop => Stopped
    case AssertFailed => Asserted
  }

  function NotesOf(c: Call): seq<Atom> {
    match c
    case Announce(n) => [Note(n)]
    case _ => []
  }

  /** All the passes a byte takes, with the notices they announce. */
  function Passes(p: Parser, ch: byte, hc: HeadersAnswer): (r: Outcome)
    ensures r.consumed == 0
    decreases Rank(p.state)
  {
    var r := Switch(p, ch, 1, hc);
    if r.next == Again then
      TidySwitch(p, ch, 1, hc);
      var rest := Passes(r.parser, ch, hc);
      rest.(atoms := NotesOf(r.call) + rest.atoms)
    else
      Outcome(r.parser, NotesOf(r.call), 0, StatusOf(r.next))
  }

  /** A byte taken in a body state is body data; any other byte is data of the kind that the
      state after it is reading, if it is reading any. */
  function BodyByte(s: State, ch: byte): seq<Atom> {
    if BodyState(s) then [Byte(Body, ch)] else []
  }

  function LineByte(before: State, after: State, ch: byte): seq<Atom> {
    if BodyState(before) then []
    else if UrlState(after) then [Byte(Url, ch)]
    else if after == HEADER_FIELD then [Byte(Field, ch)]
    else if after == HEADER_VALUE then [Byte(Value, ch)]
    else []
  }

  /** The header-size guard that precedes the switch. */
  function CountHeaderByte(p: Parser): Parser {
    if ParsingHeader(p.state) then p.(nread := p.nread + 1) else p
  }

  function Step(p: Parser, ch: byte, hc: HeadersAnswer): Outcome {
    var q := CountHeaderByte(p);
    if ParsingHeader(q.state) && q.nread > MAX_HEADER_SIZE then
      Outcome(q.(errno := HEADER_OVERFLOW), [], 0, Failed)
    else
      var r := Passes(q, ch, hc);
      if r.status == Failed || r.status == Asserted then r
      else
        Outcome(r.parser,
                BodyByte(p.state, ch) + r.atoms + LineByte(p.state, r.parser.state, ch),
                1, r.status)
  }

  /** A byte outside the bodies and the size guard. */
  lemma StepInLine(p: Parser, ch: byte, hc: HeadersAnswer)
    requires !BodyState(p.state) && (ParsingHeader(p.state) ==> p.nread < MAX_HEADER_SIZE)
    ensures var o := Passes(CountHeaderByte(p), ch, hc);
      Step(p, ch, hc) ==
      if o.status == Failed || o.status == Asserted then o
      else Outcome(o.parser, o.atoms + LineByte(p.state, o.parser.state, ch), 1, o.status)
  {
    hide Passes, LineByte;
    var o := Passes(CountHeaderByte(p), ch, hc);
    assert BodyByte(p.state, ch) + o.atoms == o.atoms;
  }

  /** Bytes one after the other, until the end, an error or an upgrade. */
  function Run(p: Parser, data: seq<byte>, hc: HeadersAnswer): (r: Outcome)
    ensures r.consumed <= |data|
    ensures r.status == Going ==> r.consumed == |data|
    decreases |data|
  {
    if data == [] then Outcome(p, [], 0, Going)
    else
      var first := Step(p, data[0], hc);
      if first.status != Going then first
      else Then(first, Run(first.parser, data[1..], hc))
  }

  function Then(a: Outcome, b: Outcome): Outcome {
    Outcome(b.parser, a.atoms + b.atoms, a.consumed + b.consumed, b.status)
  }

  lemma RunOne(p: Parser, ch: byte, hc: HeadersAnswer)
    ensures Run(p, [ch], hc) == Step(p, ch, hc)
  {
    hide Passes;
    var s := Step(p, ch, hc);
    assert [ch][1..] == [];
    assert s.atoms + [] == s.atoms;
  }

  lemma ThenAssociative(a: Outcome, b: Outcome, c: Outcome)
    ensures Then(Then(a, b), c) == Then(a, Then(b, c))
  {
    assert a.atoms + b.atoms + c.atoms == a.atoms + (b.atoms + c.atoms);
  }

  /** Feeding two pieces one after the other is feeding them joined. */
  lemma {:induction false} RunSplit(p: Parser, a: seq<byte>, b: seq<byte>, hc: HeadersAnswer)
    ensures var r := Run(p, a, hc);
      Run(p, a + b, hc) == if r.status == Going then Then(r, Run(r.parser, b, hc)) else r
    decreases |a|
  {
    hide Step;
    if a == [] {
      assert a + b == b;
      assert [] + Run(p, b, hc).atoms == Run(p, b, hc).atoms;
    } else {
      assert (a + b)[0] == a[0] && (a + b)[1..] == a[1..] + b;
      var first := Step(p, a[0], hc);
      if first.status == Going {
        RunSplit(first.parser, a[1..], b, hc);
        var rest := Run(first.parser, a[1..], hc);
        if rest.status == Going {
          ThenAssociative(first, rest, Run(rest.parser, b, hc));
        }
      }
    }
  }

  /** The pieces fed one by one, stopping as soon as one is not consumed without incident. */
  function RunPieces(p: Parser, pieces: seq<seq<byte>>, hc: HeadersAnswer): Outcome
    decreases |pieces|
  {
    if pieces == [] then Outcome(p, [], 0, Going)
    else
      var first := Run(p, pieces[0], hc);
      if first.status != Going then first
      else Then(first, RunPieces(first.parser, pieces[1..], hc))
  }

  /** Any division of the input gives the outcome of the undivided input. */
  lemma {:induction false} AnySplit(p: Parser, pieces: seq<seq<byte>>, hc: HeadersAnswer)
    ensures RunPieces(p, pieces, hc) == Run(p, Joined(pieces), hc)
    decreases |pieces|
  {
    hide Step;
    if pieces == [] {
    } else {
      RunSplit(p, pieces[0], Joined(pieces[1..]), hc);
      var first := Run(p, pieces[0], hc);
      if first.status == Going {
        AnySplit(first.parser, pieces[1..], hc);
      }
    }
  }

  // ---- body bytes taken together ----

  function Bytes(k: DataKind, bs: seq<byte>): (r: seq<Atom>)
    ensures |r| == |bs|
  {
    seq(|bs|, i requires 0 <= i < |bs| => Byte(k, bs[i]))
  }

  lemma BytesJoin(k: DataKind, a: seq<byte>, b: seq<byte>)
    ensures Bytes(k, a + b) == Bytes(k, a) + Bytes(k, b)
  {
  }

  lemma SingleByte(k: DataKind, b: byte)
    ensures Bytes(k, [b]) == [Byte(k, b)]
  {
  }

  /** The parser after the last byte of a body of known length. */
  function AfterBody(p: Parser): Parser {
    var q := p.(contentLength := 0);
    q.(state := NewMessage(q))
  }

  /** Up to `contentLength` bytes of a plain body in one go; the last one ends the message. */
  function IdentityOutcome(p: Parser, bs: seq<byte>): Outcome
    requires |bs| <= p.contentLength
  {
    if |bs| < p.contentLength then
      Outcome(p.(contentLength := p.contentLength - |bs|), Bytes(Body, bs), |bs|, Going)
    else
      Outcome(AfterBody(p), Bytes(Body, bs) + [Note(MessageComplete)], |bs|, Going)
  }

  lemma IdentityStep(p: Parser, ch: byte, hc: HeadersAnswer)
    requires p.state == BODY_IDENTITY && 0 < p.contentLength < ULLONG_MAX
    ensures Step(p, ch, hc) == IdentityOutcome(p, [ch])
  {
    var q := p.(contentLength := p.contentLength - 1);
    var r := Switch(p, ch, 1, hc);
    if p.contentLength == 1 {
      assert q == p.(contentLength := 0);
      assert Passes(r.parser, ch, hc).atoms == [Note(MessageComplete)];
    }
  }

  lemma {:induction false} IdentityRun(p: Parser, bs: seq<byte>, hc: HeadersAnswer)
    requires p.state == BODY_IDENTITY && 0 < |bs| <= p.contentLength < ULLONG_MAX
    ensures Run(p, bs, hc) == IdentityOutcome(p, bs)
    decreases |bs|
  {
    hide Step;
    IdentityStep(p, bs[0], hc);
    var first := IdentityOutcome(p, [bs[0]]);
    BytesJoin(Body, [bs[0]], bs[1..]);
    assert [bs[0]] + bs[1..] == bs;
    if |bs| > 1 {
      IdentityRun(first.parser, bs[1..], hc);
    } else {
      assert bs[1..] == [];
    }
  }

  function ChunkOutcome(p: Parser, bs: seq<byte>): Outcome
    requires |bs| <= p.contentLength
  {
    var q := p.(contentLength := p.contentLength - |bs|);
    Outcome(if q.contentLength == 0 then q.(state := CHUNK_DATA_ALMOST_DONE) else q,
            Bytes(Body, bs), |bs|, Going)
  }

  lemma ChunkStep(p: Parser, ch: byte, hc: HeadersAnswer)
    requires p.state == CHUNK_DATA && p.flags.chunked && 0 < p.contentLength < ULLONG_MAX
    ensures Step(p, ch, hc) == ChunkOutcome(p, [ch])
  {
  }

  lemma {:induction false} ChunkRun(p: Parser, bs: seq<byte>, hc: HeadersAnswer)
    requires p.state == CHUNK_DATA && p.flags.chunked && 0 < |bs| <= p.contentLength < ULLONG_MAX
    ensures Run(p, bs, hc) == ChunkOutcome(p, bs)
    decreases |bs|
  {
    hide Step;
    ChunkStep(p, bs[0], hc);
    var first := ChunkOutcome(p, [bs[0]]);
    BytesJoin(Body, [bs[0]], bs[1..]);
    assert [bs[0]] + bs[1..] == bs;
    if |bs| > 1 {
      ChunkRun(first.parser, bs[1..], hc);
    } else {
      assert bs[1..] == [];
    }
  }

  lemma {:induction false} EofRun(p: Parser, bs: seq<byte>, hc: HeadersAnswer)
    requires p.state == BODY_IDENTITY_EOF
    ensures Run(p, bs, hc) == Outcome(p, Bytes(Body, bs), |bs|, Going)
    decreases |bs|
  {
    if bs == [] {
    } else {
      assert Step(p, bs[0], hc) == Outcome(p, [Byte(Body, bs[0])], 1, Going);
      EofRun(p, bs[1..], hc);
      BytesJoin(Body, [bs[0]], bs[1..]);
      assert [bs[0]] + bs[1..] == bs;
    }
  }
}
