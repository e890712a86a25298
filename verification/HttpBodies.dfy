/** Bodies: chunked coding (section 3.6.1 of RFC 2616) and plain bodies of a given length. */
module HttpBodies {
  import opened CBytes
  import opened HttpTypes
  import opened HttpSwitch
  import opened HttpRun

  const CRLF: seq<byte> := "\r\n"

  /** The two ends of a line that the parser takes in most places. */
  datatype End = Crlf | Lf

  function EndText(e: End): (t: seq<byte>)
    ensures 1 <= |t| <= 2
  {
    if e.Crlf? then CRLF else [LF]
  }

  // ---- encoding ----

  /** A byte that the table takes for a digit: a hexadecimal digit, or any byte from 128 up. */
  predicate SizeByte(c: byte) { Unhex(c) != -1 }

  function HexValue(s: seq<byte>): nat
    requires forall i :: 0 <= i < |s| ==> SizeByte(s[i])
  {
    if s == [] then 0
    else
      assert SizeByte(s[|s| - 1]);
      HexValue(s[..|s| - 1]) * 16 + Unhex(s[|s| - 1])
  }

  /** A chunk as sent: the hexadecimal size, an extension that may be empty, the data. */
  datatype Chunk = Chunk(size: seq<byte>, extension: seq<byte>, body: seq<byte>)

  ghost predicate ValidSize(size: seq<byte>, n: nat) {
    size != [] && (forall i :: 0 <= i < |size| ==> SizeByte(size[i])) && HexValue(size) == n
  }

  ghost predicate ValidChunk(c: Chunk) {
    && 0 < |c.body| < ULLONG_MAX
    && ValidSize(c.size, |c.body|)
    && (c.extension != [] ==> c.extension[0] == ';' || c.extension[0] == ' ')
    && CR !in c.extension
    && |c.size| + |c.extension| + 2 <= MAX_HEADER_SIZE
  }

  function EncodeChunk(c: Chunk): seq<byte> {
    (c.size + c.extension + CRLF) + (c.body + CRLF)
  }

  const ZERO_CHUNK: seq<byte> := "0\r\n"

  /** The chunks and the zero chunk; trailing header lines and an empty line follow. */
  function Encode(chunks: seq<Chunk>): seq<byte> {
    if chunks == [] then ZERO_CHUNK else EncodeChunk(chunks[0]) + Encode(chunks[1..])
  }

  function Bodies(chunks: seq<Chunk>): seq<byte> {
    if chunks == [] then [] else chunks[0].body + Bodies(chunks[1..])
  }

  // ---- decoding, piece by piece ----

  /** A run that goes on: `q` is reached with these atoms. */
  ghost predicate Reaches(p: Parser, data: seq<byte>, q: Parser, atoms: seq<Atom>, hc: HeadersAnswer) {
    Run(p, data, hc) == Outcome(q, atoms, |data|, Going)
  }

  lemma ReachesThen(p: Parser, a: seq<byte>, q: Parser, x: seq<Atom>,
                    b: seq<byte>, r: Parser, y: seq<Atom>, hc: HeadersAnswer)
    requires Reaches(p, a, q, x, hc) && Reaches(q, b, r, y, hc)
    ensures Reaches(p, a + b, r, x + y, hc)
  {
    hide Step, Run;
    RunSplit(p, a, b, hc);
  }

  lemma NothingJoined()
    ensures forall x: seq<Atom> :: [] + x == x && x + [] == x
  {
  }

  lemma ReachesByte(p: Parser, ch: byte, q: Parser, atoms: seq<Atom>, hc: HeadersAnswer)
    requires Step(p, ch, hc) == Outcome(q, atoms, 1, Going)
    ensures Reaches(p, [ch], q, atoms, hc)
  {
    hide Step, Run;
    RunOne(p, ch, hc);
  }

  /** A byte that takes one pass, announces nothing and is no data. */
  lemma QuietByte(p: Parser, ch: byte, q: Parser, hc: HeadersAnswer)
    requires ParsingHeader(p.state) && p.nread < MAX_HEADER_SIZE && KindOf(q.state).None?
    requires Switch(CountHeaderByte(p), ch, 1, hc) == Go(q)
    ensures Reaches(p, [ch], q, [], hc)
  {
    hide Switch;
    ReachesByte(p, ch, q, [], hc);
  }

  lemma SizeDigit(p: Parser, ch: byte, hc: HeadersAnswer)
    requires p.flags.chunked && SizeByte(ch) && p.nread < MAX_HEADER_SIZE
    requires p.state == CHUNK_SIZE_START || p.state == CHUNK_SIZE
    requires p.state == CHUNK_SIZE_START ==> p.nread == 0
    requires p.state == CHUNK_SIZE ==> p.contentLength * 16 + Unhex(ch) < ULLONG_MAX
    ensures Reaches(p, [ch],
      p.(state := CHUNK_SIZE, nread := p.nread + 1,
         contentLength := if p.state == CHUNK_SIZE_START then Unhex(ch) else p.contentLength * 16 + Unhex(ch)),
      [], hc)
  {
    hide Unhex;
    var q := CountHeaderByte(p);
    if p.state == CHUNK_SIZE_START {
      assert Switch(q, ch, 1, hc) == AtChunkSizeStart(q, ch);
    } else {
      assert Switch(q, ch, 1, hc) == AtChunkSize(q, ch);
      NotCr(ch);
    }
    hide Switch;
    ReachesByte(p, ch, Step(p, ch, hc).parser, [], hc);
  }

  lemma NotCr(ch: byte)
    requires SizeByte(ch)
    ensures ch != CR && ch != ';' && ch != ' '
  {
  }

  lemma {:induction false} SizeRun(p: Parser, s: seq<byte>, hc: HeadersAnswer)
    requires p.state == CHUNK_SIZE_START && p.nread == 0 && p.flags.chunked
    requires s != [] && (forall i :: 0 <= i < |s| ==> SizeByte(s[i]))
    requires HexValue(s) < ULLONG_MAX && |s| <= MAX_HEADER_SIZE
    ensures Reaches(p, s, p.(state := CHUNK_SIZE, nread := |s|, contentLength := HexValue(s)), [], hc)
    decreases |s|
  {
    hide Reaches;
    var front, last := s[..|s| - 1], s[|s| - 1];
    assert s == front + [last];
    if front == [] {
      assert s == [last];
      SizeDigit(p, last, hc);
    } else {
      SizeRun(p, front, hc);
      var q := p.(state := CHUNK_SIZE, nread := |front|, contentLength := HexValue(front));
      assert HexValue(s) == HexValue(front) * 16 + Unhex(last);
      SizeDigit(q, last, hc);
      ReachesThen(p, front, q, [], [last],
                  q.(nread := |s|, contentLength := HexValue(s)), [], hc);
      NothingJoined();
    }
  }

  lemma ExtensionByte(p: Parser, ch: byte, hc: HeadersAnswer)
    requires p.flags.chunked && p.nread < MAX_HEADER_SIZE && ch != CR
    requires p.state == CHUNK_PARAMETERS || (p.state == CHUNK_SIZE && (ch == ';' || ch == ' '))
    ensures Reaches(p, [ch], p.(state := CHUNK_PARAMETERS, nread := p.nread + 1), [], hc)
  {
    var q := CountHeaderByte(p);
    assert Switch(q, ch, 1, hc) == BodyLines(q, ch, 1);
    hide Switch;
    ReachesByte(p, ch, Step(p, ch, hc).parser, [], hc);
  }

  lemma {:induction false} ExtensionRun(p: Parser, e: seq<byte>, hc: HeadersAnswer)
    requires p.state == CHUNK_SIZE && p.flags.chunked && p.nread + |e| <= MAX_HEADER_SIZE
    requires (e != [] ==> e[0] == ';' || e[0] == ' ') && CR !in e
    ensures Reaches(p, e, p.(state := if e == [] then CHUNK_SIZE else CHUNK_PARAMETERS, nread := p.nread + |e|), [], hc)
    decreases |e|
  {
    if e == [] {
    } else {
      hide Reaches;
      var front, last := e[..|e| - 1], e[|e| - 1];
      assert e == front + [last];
      ExtensionRun(p, front, hc);
      var q := p.(state := if front == [] then CHUNK_SIZE else CHUNK_PARAMETERS, nread := p.nread + |front|);
      ExtensionByte(q, last, hc);
      ReachesThen(p, front, q, [], [last], q.(state := CHUNK_PARAMETERS, nread := p.nread + |e|), [], hc);
    }
  }

  /** The line break after the size: the counter is reset. */
  lemma SizeEnd(p: Parser, hc: HeadersAnswer)
    requires p.flags.chunked && p.nread + 2 <= MAX_HEADER_SIZE
    requires p.state == CHUNK_SIZE || p.state == CHUNK_PARAMETERS
    ensures Reaches(p, CRLF,
      if p.contentLength == 0
      then p.(state := HEADER_FIELD_START, nread := 0, flags := p.flags.(trailing := true))
      else p.(state := CHUNK_DATA, nread := 0), [], hc)
  {
    var q := CountHeaderByte(p);
    assert Switch(q, CR, 1, hc) == BodyLines(q, CR, 1);
    var r := q.(state := CHUNK_SIZE_ALMOST_DONE);
    assert Step(p, CR, hc) == Outcome(r, [], 1, Going);
    var r' := CountHeaderByte(r);
    assert Switch(r', LF, 1, hc) == BodyLines(r', LF, 1);
    hide Switch;
    ReachesByte(p, CR, r, [], hc);
    ReachesByte(r, LF, Step(r, LF, hc).parser, [], hc);
    hide Reaches, Step;
    assert CRLF == [CR] + [LF];
    ReachesThen(p, [CR], r, [], [LF], Step(r, LF, hc).parser, [], hc);
  }

  lemma DataEnd(p: Parser, hc: HeadersAnswer)
    requires p.flags.chunked && p.state == CHUNK_DATA_ALMOST_DONE && p.contentLength == 0
    ensures Reaches(p, CRLF, p.(state := CHUNK_SIZE_START, nread := 0), [], hc)
  {
    assert Switch(p, CR, 1, hc) == BodyLines(p, CR, 1);
    var r := p.(state := CHUNK_DATA_DONE);
    assert Switch(r, LF, 1, hc) == BodyLines(r, LF, 1);
    hide Switch;
    ReachesByte(p, CR, r, [], hc);
    ReachesByte(r, LF, Step(r, LF, hc).parser, [], hc);
    hide Reaches, Step;
    assert CRLF == [CR] + [LF];
    ReachesThen(p, [CR], r, [], [LF], p.(state := CHUNK_SIZE_START, nread := 0), [], hc);
  }

  // ---- whole chunks ----

  lemma ChunkHead(p: Parser, c: Chunk, hc: HeadersAnswer)
    requires p.state == CHUNK_SIZE_START && p.nread == 0 && p.flags.chunked && ValidChunk(c)
    ensures Reaches(p, c.size + c.extension + CRLF,
                    p.(state := CHUNK_DATA, nread := 0, contentLength := |c.body|), [], hc)
  {
    hide Reaches;
    var q := p.(state := CHUNK_SIZE, nread := |c.size|, contentLength := |c.body|);
    SizeRun(p, c.size, hc);
    ExtensionRun(q, c.extension, hc);
    var r := q.(state := if c.extension == [] then CHUNK_SIZE else CHUNK_PARAMETERS,
                nread := |c.size| + |c.extension|);
    ReachesThen(p, c.size, q, [], c.extension, r, [], hc);
    SizeEnd(r, hc);
    NothingJoined();
    ReachesThen(p, c.size + c.extension, r, [], CRLF,
                p.(state := CHUNK_DATA, nread := 0, contentLength := |c.body|), [], hc);
  }

  lemma ChunkBody(p: Parser, c: Chunk, hc: HeadersAnswer)
    requires p.state == CHUNK_DATA && p.flags.chunked
    requires 0 < |c.body| == p.contentLength < ULLONG_MAX
    ensures Reaches(p, c.body + CRLF, p.(state := CHUNK_SIZE_START, nread := 0, contentLength := 0),
      Bytes(Body, c.body), hc)
  {
    var q := p.(state := CHUNK_DATA_ALMOST_DONE, contentLength := 0);
    assert Reaches(p, c.body, q, Bytes(Body, c.body), hc) by {
      hide Run;
      ChunkRun(p, c.body, hc);
    }
    hide Reaches, Bytes;
    DataEnd(q, hc);
    ReachesThen(p, c.body, q, Bytes(Body, c.body), CRLF,
                p.(state := CHUNK_SIZE_START, nread := 0, contentLength := 0), [], hc);
    assert Bytes(Body, c.body) + [] == Bytes(Body, c.body);
  }

  lemma OneChunk(p: Parser, c: Chunk, hc: HeadersAnswer)
    requires p.state == CHUNK_SIZE_START && p.nread == 0 && p.flags.chunked && ValidChunk(c)
    ensures Reaches(p, EncodeChunk(c), p.(contentLength := 0), Bytes(Body, c.body), hc)
  {
    hide Reaches, Bytes;
    var q := p.(state := CHUNK_DATA, nread := 0, contentLength := |c.body|);
    ChunkHead(p, c, hc);
    ChunkBody(q, c, hc);
    ReachesThen(p, c.size + c.extension + CRLF, q, [], c.body + CRLF, p.(contentLength := 0), Bytes(Body, c.body), hc);
    assert [] + Bytes(Body, c.body) == Bytes(Body, c.body);
  }

  /** The parser behind the zero chunk, where trailing header lines may follow. */
  function AtTrailer(p: Parser): Parser {
    p.(state := HEADER_FIELD_START, nread := 0, contentLength := 0, flags := p.flags.(trailing := true))
  }

  lemma ZeroChunk(p: Parser, hc: HeadersAnswer)
    requires p.state == CHUNK_SIZE_START && p.nread == 0 && p.flags.chunked
    ensures Reaches(p, ZERO_CHUNK, AtTrailer(p), [], hc)
  {
    hide Reaches;
    var q := p.(state := CHUNK_SIZE, nread := 1, contentLength := 0);
    SizeDigit(p, '0', hc);
    SizeEnd(q, hc);
    NothingJoined();
    ReachesThen(p, "0", q, [], CRLF, AtTrailer(p), [], hc);
    assert "0" + CRLF == ZERO_CHUNK;
  }

  lemma {:induction false} ChunksRun(p: Parser, chunks: seq<Chunk>, hc: HeadersAnswer)
    requires p.state == CHUNK_SIZE_START && p.nread == 0 && p.flags.chunked
    requires forall i :: 0 <= i < |chunks| ==> ValidChunk(chunks[i])
    ensures Reaches(p, Encode(chunks), AtTrailer(p), Bytes(Body, Bodies(chunks)), hc)
    decreases |chunks|
  {
    hide Reaches, Bytes, EncodeChunk, ValidChunk;
    if chunks == [] {
      ZeroChunk(p, hc);
      assert Bytes(Body, []) == [];
    } else {
      var c, rest := chunks[0], chunks[1..];
      var q := p.(contentLength := 0);
      OneChunk(p, c, hc);
      ChunksRun(q, rest, hc);
      ReachesThen(p, EncodeChunk(c), q, Bytes(Body, c.body), Encode(rest), AtTrailer(p), Bytes(Body, Bodies(rest)), hc);
      BytesJoin(Body, c.body, Bodies(rest));
    }
  }

  // ---- the end of a chunked body ----

  lemma LastCr(p: Parser, hc: HeadersAnswer)
    requires p.state == HEADER_FIELD_START && p.nread < MAX_HEADER_SIZE
    ensures Reaches(p, [CR], p.(state := HEADERS_ALMOST_DONE, nread := p.nread + 1), [], hc)
  {
    var q := CountHeaderByte(p);
    assert Switch(q, CR, 1, hc) == AtHeaderFieldStart(q, CR);
    hide Switch;
    ReachesByte(p, CR, q.(state := HEADERS_ALMOST_DONE), [], hc);
  }

  /** The parser behind a message: ready for the next one, or dead when the connection is not
      kept alive. */
  function Done(p: Parser): Parser { p.(state := NewMessage(p)) }

  lemma LastLf(p: Parser, hc: HeadersAnswer)
    requires p.state == HEADERS_ALMOST_DONE && p.flags.trailing && p.nread < MAX_HEADER_SIZE
    ensures Reaches(p, [LF], Done(p.(nread := p.nread + 1)), [Note(MessageComplete)], hc)
  {
    hide ShouldKeepAlive;
    var q := CountHeaderByte(p);
    assert Switch(q, LF, 1, hc) == AtHeadersAlmostDone(q, LF, hc);
    hide Switch;
    ReachesByte(p, LF, Done(q), [Note(MessageComplete)], hc);
  }

  /** A bare line feed is taken as if a carriage return had been there. */
  lemma BareLf(p: Parser, hc: HeadersAnswer)
    requires p.state == HEADER_FIELD_START && p.nread < MAX_HEADER_SIZE
    ensures Step(p, LF, hc) == Step(p.(state := HEADERS_ALMOST_DONE), LF, hc)
  {
    var q := CountHeaderByte(p);
    assert Switch(q, LF, 1, hc) == AtHeaderFieldStart(q, LF);
    hide Switch;
    var r := Passes(q.(state := HEADERS_ALMOST_DONE), LF, hc);
    assert [] + r.atoms == r.atoms;
    assert Passes(q, LF, hc) == r;
  }

  lemma EmptyLine(p: Parser, e: End, hc: HeadersAnswer)
    requires p.state == HEADER_FIELD_START && p.flags.trailing && p.nread + 2 <= MAX_HEADER_SIZE
    ensures Reaches(p, EndText(e), Done(p.(nread := p.nread + |EndText(e)|)), [Note(MessageComplete)], hc)
  {
    hide Run, NewMessage, Step;
    var a := p.(state := HEADERS_ALMOST_DONE);
    var q := a.(nread := p.nread + 1);
    if e.Crlf? {
      LastCr(p, hc);
      LastLf(q, hc);
      SameDone(p.(nread := p.nread + 2), q.(nread := q.nread + 1));
      NothingJoined();
      ReachesThen(p, [CR], q, [], [LF], Done(p.(nread := p.nread + 2)), [Note(MessageComplete)], hc);
      assert [CR] + [LF] == CRLF;
    } else {
      BareLf(p, hc);
      LastLf(a, hc);
      RunOne(p, LF, hc);
      RunOne(a, LF, hc);
      SameDone(p.(nread := p.nread + 1), q);
    }
  }

  lemma SameDone(p: Parser, q: Parser)
    requires q == p.(state := q.state)
    ensures Done(p) == Done(q)
  {
  }

  /** Chunked decoding undoes chunked encoding: any list of non-empty chunks, with any sizes and
      extensions that the parser takes, ended by the zero chunk and an empty line, is delivered
      as the concatenation of the chunks and then one message-complete. */
  lemma ChunkedDecoding(p: Parser, chunks: seq<Chunk>, e: End, hc: HeadersAnswer)
    requires p.state == CHUNK_SIZE_START && p.nread == 0 && p.flags.chunked
    requires forall i :: 0 <= i < |chunks| ==> ValidChunk(chunks[i])
    ensures Run(p, Encode(chunks) + EndText(e), hc) ==
            Outcome(Done(AtTrailer(p).(nread := |EndText(e)|)), Bytes(Body, Bodies(chunks)) + [Note(MessageComplete)],
                    |Encode(chunks)| + |EndText(e)|, Going)
  {
    hide Run, Bytes, ValidChunk, Done;
    ChunksRun(p, chunks, hc);
    EmptyLine(AtTrailer(p), e, hc);
    ReachesThen(p, Encode(chunks), AtTrailer(p), Bytes(Body, Bodies(chunks)),
                EndText(e), Done(AtTrailer(p).(nread := |EndText(e)|)), [Note(MessageComplete)], hc);
  }
}
