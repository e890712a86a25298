/** What the parser makes of any text that is laid out as JSON: with space and line comments between
    the tokens, strings in either quotes, numbers, commas behind the last element, and nothing for
    null before a comma. */
module JsonDocs {
  import opened CBytes
  import opened JsonText
  import opened JsonParse
  import opened JsonStrings
  import opened JsonRoundTrip

  // ---- between the tokens ----

  datatype Filler = Blanks(w: Text) | Note(line: Text)

  predicate FillerOk(f: Filler) {
    match f
    case Blanks(w) => Blank(w)
    case Note(line) => '\r' !in line && '\n' !in line
  }

  function FillerText(f: Filler): Text {
    match f
    case Blanks(w) => w
    case Note(line) => "//" + line + "\n"
  }

  predicate GapOk(g: seq<Filler>) { forall k :: 0 <= k < |g| ==> FillerOk(g[k]) }

  function GapText(g: seq<Filler>): Text {
    if g == [] then [] else FillerText(g[0]) + GapText(g[1..])
  }

  lemma {:induction false} SkipsBlank(w: Text, s: Text)
    requires Blank(w)
    ensures SkipSpace(w + s) == SkipSpace(s)
  {
    if w == [] {
      assert w + s == s;
    } else {
      assert (w + s)[1..] == w[1..] + s;
      SkipsBlank(w[1..], s);
    }
  }

  lemma {:induction false} SkipsLine(line: Text, s: Text)
    requires '\r' !in line && '\n' !in line && s != [] && s[0] == '\n'
    ensures SkipLine(line + s) == s
  {
    if line == [] {
      assert line + s == s;
    } else {
      assert (line + s)[1..] == line[1..] + s;
      SkipsLine(line[1..], s);
    }
  }

  lemma SkipsNote(line: Text, s: Text)
    requires '\r' !in line && '\n' !in line
    ensures var n := "//" + line + "\n" + s; SkipSpace(n) == n && Comment(n) == Some(SkipSpace(s))
  {
    hide SkipLine;
    var n := "//" + line + "\n" + s;
    assert n[2..] == line + ("\n" + s);
    SkipsLine(line, "\n" + s);
    SkipsBlank("\n", s);
  }

  /** A token that begins with neither space nor a slash is looked for behind the gap. */
  lemma {:induction false} MatchBehind(p: Text, g: seq<Filler>, s: Text)
    requires p != [] && p[0] != '/' && GapOk(g)
    ensures Match(p, GapText(g) + s) == Match(p, s)
    decreases |g|
  {
    hide SkipSpace, Comment;
    if g == [] {
      assert GapText(g) + s == s;
    } else {
      var rest := GapText(g[1..]) + s;
      assert GapText(g) + s == FillerText(g[0]) + rest;
      MatchBehind(p, g[1..], s);
      match g[0]
      case Blanks(w) => SkipsBlank(w, rest);
      case Note(line) => SkipsNote(line, rest);
    }
  }

  lemma TokenBehind(p: Text, g: seq<Filler>, t: Text)
    requires p != [] && p[0] != '/' && !IsSpace(p[0]) && GapOk(g)
    ensures Match(p, GapText(g) + (p + t)) == Yes(t)
  {
    hide Match, GapText;
    MatchBehind(p, g, p + t);
    assert [] + p + t == p + t;
    MatchYes(p, [], t);
  }

  lemma OtherBehind(p: Text, g: seq<Filler>, s: Text)
    requires p != [] && p[0] != '/' && GapOk(g) && Solid(s) && s[0] != p[0]
    ensures Match(p, GapText(g) + s) == NoMatch(s)
  {
    hide Match, GapText;
    MatchBehind(p, g, s);
    assert [] + s == s;
    MatchNo(p, [], s);
  }

  /** A comment at the very end needs no line break. */
  lemma {:induction false} LastNote(line: Text)
    requires '\r' !in line && '\n' !in line
    ensures SkipLine(line) == [] && Comment("//" + line) == Some([])
  {
    assert ("//" + line)[2..] == line;
    if line != [] {
      LastNote(line[1..]);
    }
  }

  // ---- inside of a token ----

  lemma {:induction false} MatchFront(p: Text, j: nat, k: nat, s: Text)
    requires j <= k <= |p|
    ensures MatchFrom(p, j, p[j..k] + s, true) == MatchFrom(p, k, s, true)
    decreases k - j
  {
    hide Comment;
    if j == k {
      assert p[j..k] + s == s;
    } else {
      assert (p[j..k] + s)[1..] == p[j + 1..k] + s;
      MatchFront(p, j + 1, k, s);
    }
  }

  lemma {:induction false} MatchTail(p: Text, k: nat, t: Text)
    requires k <= |p|
    ensures MatchFrom(p, k, p[k..] + t, false) == Yes(t)
    decreases |p| - k
  {
    hide Comment;
    if k == |p| {
      assert p[k..] + t == t;
    } else {
      assert (p[k..] + t)[1..] == p[k + 1..] + t;
      MatchTail(p, k + 1, t);
    }
  }

  /** A token that breaks off: what was taken of it is put back; but behind a comment inside of it
      the place in the stream is lost. If it goes on behind the comment it is taken. */
  lemma BrokenOff(p: Text, k: nat, line: Text, w: Text, s: Text)
    requires 0 < k < |p| && !IsSpace(p[0]) && p[k] != '/' && '\r' !in line && '\n' !in line && Blank(w)
    ensures Solid(s) && s[0] != p[k] ==> Match(p, p[..k] + s) == NoMatch(p[..k] + s)
    ensures Solid(s) && s[0] != p[k] ==> Match(p, p[..k] + ("//" + line + "\n" + (w + s))) == LostPlace
    ensures !IsSpace(p[k]) && p[k..] <= s ==>
      Match(p, p[..k] + ("//" + line + "\n" + (w + s))) == Yes(s[|p| - k..])
  {
    hide SkipSpace, Comment;
    var n := "//" + line + "\n" + (w + s);
    SkipsNote(line, w + s);
    SkipsBlank(w, s);
    NoSpace(p[..k] + s);
    NoSpace(p[..k] + n);
    assert p[..k] == p[0..k];
    MatchFront(p, 0, k, s);
    MatchFront(p, 0, k, n);
    if Solid(s) && s[0] != p[k] {
      NoSpace(s);
      NoComment(s);
    }
    if !IsSpace(p[k]) && p[k..] <= s {
      assert s == p[k..] + s[|p| - k..];
      NoSpace(s);
      MatchTail(p, k, s[|p| - k..]);
    }
  }

  lemma NoSpace(s: Text)
    ensures s == [] || !IsSpace(s[0]) ==> SkipSpace(s) == s
  {
  }

  lemma NoComment(s: Text)
    ensures Solid(s) ==> Comment(s).None?
  {
  }

  lemma {:induction false} GapJoin(a: seq<Filler>, b: seq<Filler>)
    ensures GapText(a + b) == GapText(a) + GapText(b)
  {
    hide FillerText;
    if a == [] {
      assert a + b == b;
    } else {
      GapJoin(a[1..], b);
      assert (a + b)[1..] == a[1..] + b;
      Regrouped(FillerText(a[0]), GapText(a[1..]), GapText(b));
    }
  }

  lemma GapsOk(a: seq<Filler>, b: seq<Filler>)
    requires GapOk(a) && GapOk(b)
    ensures GapOk(a + b)
  {
  }

  // ---- strings ----

  /** A part of a string: a character, an escape of one letter, or one of four decimal digits. */
  datatype Piece = Plain(c: byte) | Letter(c: byte) | Code(digits: Text)

  predicate PieceOk(q: byte, p: Piece) {
    match p
    case Plain(c) => c != q && c != '\\'
    case Letter(c) => c != 'u'
    case Code(d) => |d| == 4 && forall i :: 0 <= i < 4 ==> IsNum(d[i])
  }

  function PieceText(p: Piece): Text {
    match p
    case Plain(c) => [c]
    case Letter(c) => ['\\', c]
    case Code(d) => "\\u" + d
  }

  /** The escapes of the standard, the quote, and any other letter with its backslash. A code is
      read as a decimal number. */
  function PieceValue(q: byte, p: Piece): Text {
    match p
    case Plain(c) => [c]
    case Letter(c) =>
      if c == 'b' then ['\U{0008}']
      else if c == 'f' then ['\U{000C}']
      else if c == 'n' then ['\n']
      else if c == 'r' then ['\r']
      else if c == 't' then ['\t']
      else if c == '\\' || c == '/' || c == q then [c]
      else ['\\', c]
    case Code(d) => [(DecValue(DigitPrefix(d)) % 256) as char]
  }

  predicate PiecesOk(q: byte, ps: seq<Piece>) {
    (q == '"' || q == '\'') && forall k :: 0 <= k < |ps| ==> PieceOk(q, ps[k])
  }

  function PiecesText(ps: seq<Piece>): Text { if ps == [] then [] else PieceText(ps[0]) + PiecesText(ps[1..]) }

  function PiecesValue(q: byte, ps: seq<Piece>): Text {
    if ps == [] then [] else PieceValue(q, ps[0]) + PiecesValue(q, ps[1..])
  }

  lemma FourDecimals(d: Text)
    requires |d| == 4 && forall i :: 0 <= i < 4 ==> IsNum(d[i])
    ensures IntOf(d) == Some(DecValue(d)) && DigitPrefix(d) == d
  {
    hide DecValue;
    PrefixIs(d, d);
  }

  lemma OnePiece(q: byte, p: Piece, t: Text, value: Text)
    requires (q == '"' || q == '\'') && PieceOk(q, p)
    ensures StringBody(PieceText(p) + t, q, value) == StringBody(t, q, value + PieceValue(q, p))
  {
    hide StringBody, PieceValue, PieceText;
    match p
    case Plain(c) => OnePlainPiece(q, c, t, value);
    case Letter(c) => OneLetter(q, c, t, value);
    case Code(d) => OneCode(q, d, t, value);
  }

  lemma OnePlainPiece(q: byte, c: byte, t: Text, value: Text)
    requires c != q && c != '\\'
    ensures StringBody(PieceText(Plain(c)) + t, q, value) == StringBody(t, q, value + PieceValue(q, Plain(c)))
  {
    hide StringBody, Unescape;
    var s := [c] + t;
    assert s[1..] == t;
    StringTurn(q, s, value);
  }

  lemma OneLetter(q: byte, c: byte, t: Text, value: Text)
    requires (q == '"' || q == '\'') && c != 'u'
    ensures StringBody(PieceText(Letter(c)) + t, q, value) == StringBody(t, q, value + PieceValue(q, Letter(c)))
  {
    hide StringBody, Unescape, PieceValue;
    var s := ['\\', c] + t;
    assert s[1..] == [c] + t && s[2..] == t;
    LetterRead(q, c, t);
    StringTurn(q, s, value);
  }

  lemma OneCode(q: byte, d: Text, t: Text, value: Text)
    requires (q == '"' || q == '\'') && |d| == 4 && forall i :: 0 <= i < 4 ==> IsNum(d[i])
    ensures StringBody(PieceText(Code(d)) + t, q, value) == StringBody(t, q, value + PieceValue(q, Code(d)))
  {
    hide StringBody, Unescape, DecValue, DigitPrefix;
    var s := "\\u" + d + t;
    assert s[1..] == "u" + (d + t) && s[6..] == t;
    CodeRead(q, d, t);
    StringTurn(q, s, value);
  }

  lemma LetterRead(q: byte, c: byte, t: Text)
    requires (q == '"' || q == '\'') && c != 'u'
    ensures Unescape([c] + t, q) == Escaped(PieceValue(q, Letter(c)), 1)
  {
    hide IntOf;
  }

  lemma CodeRead(q: byte, d: Text, t: Text)
    requires |d| == 4 && forall i :: 0 <= i < 4 ==> IsNum(d[i])
    ensures Unescape("u" + (d + t), q) == Escaped([(DecValue(DigitPrefix(d)) % 256) as char], 5)
  {
    hide IntOf, DecValue, DigitPrefix;
    assert ("u" + (d + t))[1..5] == d;
    FourDecimals(d);
  }

  /** One turn of the loop of a string. */
  lemma StringTurn(q: byte, s: Text, value: Text)
    requires s != [] && s[0] != q && (s[0] == '\\' ==> |s| > 1 && Unescape(s[1..], q).Escaped?)
    ensures StringBody(s, q, value) ==
      if s[0] == '\\' then
        var e := Unescape(s[1..], q);
        StringBody(s[1 + e.length..], q, value + e.value)
      else StringBody(s[1..], q, value + [s[0]])
  {
    hide Unescape;
  }

  lemma {:induction false} PiecesRead(q: byte, ps: seq<Piece>, t: Text, value: Text)
    requires PiecesOk(q, ps)
    ensures StringBody(PiecesText(ps) + ([q] + t), q, value) == Ok(value + PiecesValue(q, ps), t)
    decreases |ps|
  {
    hide PieceText, PieceValue, PieceOk, StringBody;
    if ps == [] {
      assert PiecesText(ps) + ([q] + t) == [q] + t && value + [] == value;
      StringEnds(q, t, value);
    } else {
      var rest := PiecesText(ps[1..]) + ([q] + t);
      Regrouped(PieceText(ps[0]), PiecesText(ps[1..]), [q] + t);
      OnePiece(q, ps[0], rest, value);
      PiecesRead(q, ps[1..], t, value + PieceValue(q, ps[0]));
      Regrouped(value, PieceValue(q, ps[0]), PiecesValue(q, ps[1..]));
    }
  }

  lemma StringEnds(q: byte, t: Text, value: Text)
    ensures StringBody([q] + t, q, value) == Ok(value, t)
  {
    assert ([q] + t)[1..] == t;
  }

  function Quoted(q: byte, ps: seq<Piece>): Text { [q] + PiecesText(ps) + [q] }

  /** A string in either quotes, behind a gap. */
  lemma StringBehind(g: seq<Filler>, q: byte, ps: seq<Piece>, t: Text)
    requires GapOk(g) && PiecesOk(q, ps)
    ensures ParseString(GapText(g) + (Quoted(q, ps) + t)) == Ok(PiecesValue(q, ps), t)
  {
    hide Match, GapText, StringBody, PiecesText, PiecesValue;
    var body := PiecesText(ps) + ([q] + t);
    PiecesRead(q, ps, t, []);
    assert [] + PiecesValue(q, ps) == PiecesValue(q, ps);
    assert Quoted(q, ps) + t == [q] + body;
    if q == '"' {
      TokenBehind("\"", g, body);
    } else {
      OtherBehind("\"", g, [q] + body);
      assert ([q] + body)[1..] == body;
    }
  }

  // ---- texts of values ----

  datatype Doc =
    | DWord(word: Word)
    | DString(quote: byte, pieces: seq<Piece>)
    | DNumber(text: Text, n: int)
    | DNothing
    | DArray(items: seq<Item>, comma: bool, end: seq<Filler>)
    | DObject(entries: seq<Entry>, comma: bool, end: seq<Filler>)

  /** A value with what is around it. */
  datatype Item = Item(before: seq<Filler>, doc: Doc, after: seq<Filler>)

  datatype Entry = Entry(before: seq<Filler>, quote: byte, key: seq<Piece>, between: seq<Filler>, item: Item)

  function DocText(d: Doc): Text
    decreases d, 0
  {
    match d
    case DWord(w) => w.text
    case DString(q, ps) => Quoted(q, ps)
    case DNumber(t, _) => t
    case DNothing => []
    case DArray(items, comma, end) => "[" + (ItemsText(items, comma) + (GapText(end) + "]"))
    case DObject(entries, comma, end) => "{" + (EntriesText(entries, comma) + (GapText(end) + "}"))
  }

  function ItemText(i: Item): Text
    decreases i, 1
  {
    GapText(i.before) + (DocText(i.doc) + GapText(i.after))
  }

  /** Commas between the items, and perhaps one behind the last. */
  function ItemsText(items: seq<Item>, comma: bool): Text
    decreases items, 2
  {
    if items == [] then []
    else ItemText(items[0]) + ((if |items| > 1 || comma then "," else "") + ItemsText(items[1..], comma))
  }

  function KeyText(e: Entry): Text {
    GapText(e.before) + (Quoted(e.quote, e.key) + (GapText(e.between) + ":"))
  }

  function EntriesText(entries: seq<Entry>, comma: bool): Text
    decreases entries, 2
  {
    if entries == [] then []
    else
      var rest := (if |entries| > 1 || comma then "," else "") + EntriesText(entries[1..], comma);
      KeyText(entries[0]) + (ItemText(entries[0].item) + rest)
  }

  predicate EndsNumber(c: byte) { IsSpace(c) || c == ',' || c == ']' || c == '}' || c == '/' }

  /** The stream reads the text as this number, whatever may follow a number. */
  ghost predicate NumberText(num: Reader, text: Text, n: int) {
    && text != [] && (IsNum(text[0]) || text[0] == '-' || text[0] == '+' || text[0] == '.')
    && forall t: Text :: (t == [] || EndsNumber(t[0])) ==> num(text + t) == (Some(n), |text|)
  }

  ghost predicate DocOk(num: Reader, d: Doc)
    decreases d, 0
  {
    match d
    case DWord(w) => w in {WORD_TRUE, WORD_FALSE, WORD_NULL}
    case DString(q, ps) => PiecesOk(q, ps)
    case DNumber(t, n) => NumberText(num, t, n)
    case DNothing => true
    case DArray(items, comma, end) => ItemsOk(num, items, comma) && GapOk(end)
    case DObject(entries, comma, end) => EntriesOk(num, entries, comma) && GapOk(end)
  }

  /** Nothing stands for null where a comma follows at once. */
  ghost predicate ItemOk(num: Reader, i: Item, followed: bool)
    decreases i, 1
  {
    GapOk(i.before) && DocOk(num, i.doc) && GapOk(i.after) && (i.doc.DNothing? ==> i.after == [] && followed)
  }

  ghost predicate ItemsOk(num: Reader, items: seq<Item>, comma: bool)
    decreases items, 2
  {
    items == [] || (ItemOk(num, items[0], |items| > 1 || comma) && ItemsOk(num, items[1..], comma))
  }

  ghost predicate EntriesOk(num: Reader, entries: seq<Entry>, comma: bool)
    decreases entries, 2
  {
    entries == [] ||
    (var e := entries[0];
     GapOk(e.before) && PiecesOk(e.quote, e.key) && GapOk(e.between) && ItemOk(num, e.item, |entries| > 1 || comma)
     && EntriesOk(num, entries[1..], comma))
  }

  function DocValue(d: Doc): Json
    decreases d, 0
  {
    match d
    case DWord(w) => w.value
    case DString(q, ps) => Str(PiecesValue(q, ps))
    case DNumber(_, n) => Number(n)
    case DNothing => Null
    case DArray(items, _, _) => Arr(ItemValues(items))
    case DObject(entries, _, _) => Obj(EntryValues(entries, []))
  }

  function ItemValues(items: seq<Item>): seq<Json>
    decreases items, 2
  {
    if items == [] then [] else [DocValue(items[0].doc)] + ItemValues(items[1..])
  }

  function EntryValues(entries: seq<Entry>, to: seq<Member>): seq<Member>
    decreases entries, 2
  {
    if entries == [] then to
    else
      var e := entries[0];
      EntryValues(entries[1..], Insert(to, Member(PiecesValue(e.quote, e.key), DocValue(e.item.doc))))
  }

  // ---- reading them ----

  /** What must follow a value: a number ends there, and nothing stands only before a comma. */
  predicate Follows(d: Doc, t: Text) {
    && (d.DNumber? ==> t == [] || EndsNumber(t[0]))
    && (d.DNothing? ==> t != [] && t[0] == ',')
  }

  /** A gap before a value is skipped. */
  lemma ValueBehind(num: Reader, g: seq<Filler>, x: Text)
    requires GapOk(g) && Solid(x)
    ensures ParseValue(num, GapText(g) + x) == ParseValue(num, x)
  {
    hide Match, GapText, StringBody, ParseNumber, ParseWord, ParseArray, ParseObject;
    MatchBehind("\"", g, x);
  }

  lemma MembersBehind(num: Reader, g: seq<Filler>, x: Text, ms: seq<Member>)
    requires GapOk(g) && Solid(x)
    ensures Members(num, GapText(g) + x, ms) == Members(num, x, ms)
  {
    hide Match, GapText, StringBody, ParseValue, Closing;
    MatchBehind("\"", g, x);
  }

  lemma StringRead(num: Reader, q: byte, ps: seq<Piece>, t: Text)
    requires PiecesOk(q, ps)
    ensures ParseValue(num, Quoted(q, ps) + t) == Ok(Str(PiecesValue(q, ps)), t)
  {
    hide ParseString, Quoted, PiecesValue, PiecesOk;
    StringBehind([], q, ps, t);
    assert GapText([]) + (Quoted(q, ps) + t) == Quoted(q, ps) + t;
  }

  lemma NumberRead(num: Reader, text: Text, n: int, t: Text)
    requires NumberText(num, text, n) && (t == [] || EndsNumber(t[0]))
    ensures ParseValue(num, text + t) == Ok(Number(n), t)
  {
    hide ParseString;
    var x := text + t;
    assert [] + x == x;
    NoString([], x);
    assert x[|text|..] == t;
    assert num(text + t) == (Some(n), |text|);
  }

  lemma NothingRead(num: Reader, t: Text)
    requires ReadsNumbers(num) && t != [] && t[0] == ','
    ensures ParseValue(num, t) == Ok(Null, t)
  {
    hide ParseString, ParseNumber, Match;
    assert [] + t == t;
    NoString([], t);
    NoNumber(num, t);
    MatchNo("true", [], t);
    MatchNo("false", [], t);
    MatchNo("null", [], t);
  }

  /** Text behind a value in an item: the gap, and then a comma or the end. */
  lemma {:induction false} GapEnds(g: seq<Filler>, s: Text)
    requires GapOk(g) && s != [] && EndsNumber(s[0])
    ensures GapText(g) + s != [] && EndsNumber((GapText(g) + s)[0])
  {
    if g == [] {
      assert GapText(g) + s == s;
    } else {
      var rest := GapText(g[1..]) + s;
      GapEnds(g[1..], s);
      assert GapText(g) + s == FillerText(g[0]) + rest;
      if FillerText(g[0]) == [] {
        assert [] + rest == rest;
      } else {
        assert (FillerText(g[0]) + rest)[0] == FillerText(g[0])[0];
        assert g[0].Blanks? ==> g[0].w[0] in g[0].w;
      }
    }
  }

  /** The first character of a text of a value. */
  lemma DocBegins(num: Reader, d: Doc, t: Text)
    requires DocOk(num, d) && Follows(d, t)
    ensures Solid(DocText(d) + t)
    ensures d.DArray? ==> (DocText(d) + t)[0] == '['
    ensures d.DObject? ==> (DocText(d) + t)[0] == '{'
  {
    hide ItemsText, EntriesText, GapText, PiecesText, NumberText;
    if d.DNumber? {
      NumberBegins(num, d.text, d.n);
      assert (d.text + t)[0] == d.text[0];
    } else if d.DString? {
      assert (DocText(d) + t)[0] == d.quote;
    } else if d.DNothing? {
      assert [] + t == t;
    } else if d.DWord? {
      assert (DocText(d) + t)[0] == d.word.text[0];
    }
  }

  lemma NumberBegins(num: Reader, text: Text, n: int)
    requires NumberText(num, text, n)
    ensures Solid(text)
  {
  }

  /** A value behind a gap, with what follows it. */
  lemma {:induction false} DocRead(num: Reader, g: seq<Filler>, d: Doc, t: Text)
    requires ReadsNumbers(num) && GapOk(g) && DocOk(num, d) && Follows(d, t)
    ensures ParseValue(num, GapText(g) + (DocText(d) + t)) == Ok(DocValue(d), t)
    decreases d, 4
  {
    hide *;
    DocBegins(num, d, t);
    ValueBehind(num, g, DocText(d) + t);
    if d.DArray? {
      ArrayRead(num, d, t);
    } else if d.DObject? {
      ObjectRead(num, d, t);
    } else {
      PlainRead(num, d, t);
    }
  }

  lemma PlainRead(num: Reader, d: Doc, t: Text)
    requires ReadsNumbers(num) && DocOk(num, d) && Follows(d, t) && !d.DArray? && !d.DObject?
    ensures ParseValue(num, DocText(d) + t) == Ok(DocValue(d), t)
  {
    hide ParseValue, Quoted, PiecesValue, PiecesOk;
    match d
    case DWord(w) =>
      assert [] + w.text + t == w.text + t;
      WordValue(num, [], w, t);
    case DString(q, ps) => StringRead(num, q, ps, t);
    case DNumber(text, n) => NumberRead(num, text, n, t);
    case DNothing =>
      assert [] + t == t;
      NothingRead(num, t);
    case _ =>
  }

  lemma {:induction false} ArrayRead(num: Reader, d: Doc, t: Text)
    requires ReadsNumbers(num) && d.DArray? && DocOk(num, d)
    ensures ParseValue(num, DocText(d) + t) == Ok(DocValue(d), t)
    decreases d, 3
  {
    hide *;
    ArrayParts(num, d);
    var s := ItemsText(d.items, d.comma) + (GapText(d.end) + ("]" + t));
    Regrouped(GapText(d.end), "]", t);
    Regrouped(ItemsText(d.items, d.comma), GapText(d.end) + "]", t);
    Regrouped("[", ItemsText(d.items, d.comma) + (GapText(d.end) + "]"), t);
    assert [] + "[" + s == "[" + s;
    assert Blank([]) by { Blanks0(); }
    ElementsRead(num, d.items, d.comma, d.end, [], t);
    assert [] + ItemValues(d.items) == ItemValues(d.items);
    ArrayValue(num, [], s, Arr(ItemValues(d.items)), t);
  }

  lemma Blanks0()
    ensures Blank([]) && GapText([]) == [] && GapOk([])
  {
  }

  lemma ArrayParts(num: Reader, d: Doc)
    requires d.DArray? && DocOk(num, d)
    ensures DocText(d) == "[" + (ItemsText(d.items, d.comma) + (GapText(d.end) + "]"))
    ensures DocValue(d) == Arr(ItemValues(d.items)) && ItemsOk(num, d.items, d.comma) && GapOk(d.end)
  {
  }

  /** What comes behind the value of the first item. */
  function Behind(after: seq<Filler>, more: bool, rest: Text): Text {
    GapText(after) + ((if more then "," else "") + rest)
  }

  /** The first item of several, and its text. */
  lemma FirstItem(num: Reader, items: seq<Item>, comma: bool, rest: Text)
    requires items != [] && ItemsOk(num, items, comma)
    ensures var i, more := items[0], |items| > 1 || comma;
      && GapOk(i.before) && DocOk(num, i.doc) && GapOk(i.after) && (i.doc.DNothing? ==> i.after == [] && more)
      && ItemsOk(num, items[1..], comma)
      && ItemsText(items, comma) + rest ==
           GapText(i.before) + (DocText(i.doc) + Behind(i.after, more, ItemsText(items[1..], comma) + rest))
      && ItemValues(items) == [DocValue(i.doc)] + ItemValues(items[1..])
  {
    hide DocOk, DocText, DocValue, GapText, GapOk;
    var i, more := items[0], |items| > 1 || comma;
    var sep, tail := if more then "," else "", ItemsText(items[1..], comma);
    assert ItemsText(items, comma) == ItemText(i) + (sep + tail);
    ItemGrouped(GapText(i.before), DocText(i.doc), GapText(i.after), sep, tail, rest);
  }

  lemma ItemGrouped(a: Text, b: Text, c: Text, sep: Text, tail: Text, rest: Text)
    ensures a + (b + c) + (sep + tail) + rest == a + (b + (c + (sep + (tail + rest))))
  {
    Regrouped(a + (b + c), sep + tail, rest);
    Regrouped(sep, tail, rest);
    Regrouped(a, b + c, sep + (tail + rest));
    Regrouped(b, c, sep + (tail + rest));
  }

  /** Behind the value of an item comes what may follow it. */
  lemma BehindFollows(i: Item, more: bool, rest: Text)
    requires GapOk(i.after) && (i.doc.DNothing? ==> i.after == [] && more)
    requires !more ==> rest != [] && EndsNumber(rest[0])
    ensures Follows(i.doc, Behind(i.after, more, rest))
  {
    var s := (if more then "," else "") + rest;
    assert !more ==> s == rest;
    GapEnds(i.after, s);
    if i.after == [] {
      assert GapText([]) + s == s;
    }
  }

  /** The text that ends an array or an object. */
  lemma EndBegins(end: seq<Filler>, close: Text, t: Text)
    requires GapOk(end) && (close == "]" || close == "}")
    ensures var s := GapText(end) + (close + t); s != [] && EndsNumber(s[0])
  {
    GapEnds(end, close + t);
  }

  lemma CommaRead(after: seq<Filler>, rest: Text)
    requires GapOk(after)
    ensures Match(",", Behind(after, true, rest)) == Yes(rest)
  {
    hide Match;
    TokenBehind(",", after, rest);
  }

  /** Behind the last item without a comma. */
  lemma NoCommaRead(after: seq<Filler>, end: seq<Filler>, close: Text, t: Text)
    requires GapOk(after) && GapOk(end) && (close == "]" || close == "}")
    ensures Match(",", Behind(after, false, [] + (GapText(end) + (close + t)))) == NoMatch(close + t)
  {
    hide Match, GapText;
    GapsOk(after, end);
    GapJoin(after, end);
    assert [] + ([] + (GapText(end) + (close + t))) == GapText(end) + (close + t);
    Regrouped(GapText(after), GapText(end), close + t);
    OtherBehind(",", after + end, close + t);
  }

  lemma Closes(close: Text, t: Text, v: Json)
    requires close == "]" || close == "}"
    ensures Closing(close, close + t, v) == Ok(v, t)
  {
    hide Match;
    assert [] + close + t == close + t;
    MatchYes(close, [], t);
  }

  lemma {:induction false} ElementsRead(num: Reader, items: seq<Item>, comma: bool, end: seq<Filler>, acc: seq<Json>,
                                        t: Text)
    requires ReadsNumbers(num) && ItemsOk(num, items, comma) && GapOk(end)
    ensures Elements(num, ItemsText(items, comma) + (GapText(end) + ("]" + t)), acc) ==
            Ok(Arr(acc + ItemValues(items)), t)
    decreases items, 2
  {
    hide *;
    var rest := GapText(end) + ("]" + t);
    Closes("]", t, Arr(acc));
    if items == [] {
      NoItems(num, comma, rest, acc);
      NoMoreElements(num, end, t, acc);
    } else {
      var i, more := items[0], |items| > 1 || comma;
      var v, tail := DocValue(i.doc), ItemsText(items[1..], comma) + rest;
      var s := ItemsText(items, comma) + rest;
      FirstItem(num, items, comma, rest);
      EndBegins(end, "]", t);
      if !more {
        assert items[1..] == [];
        NoItems(num, comma, rest, acc);
        assert tail == [] + rest;
      }
      BehindFollows(i, more, tail);
      DocRead(num, i.before, i.doc, Behind(i.after, more, tail));
      if more {
        CommaRead(i.after, tail);
        ReadMore(num, s, acc, v, Behind(i.after, true, tail), tail);
        ElementsRead(num, items[1..], comma, end, acc + [v], t);
        Regrouped(acc, [v], ItemValues(items[1..]));
      } else {
        NoCommaRead(i.after, end, "]", t);
        Closes("]", t, Arr(acc + [v]));
        ReadLast(num, s, acc, v, Behind(i.after, false, tail), "]" + t);
        assert [v] + [] == [v];
      }
    }
  }

  lemma NoItems(num: Reader, comma: bool, rest: Text, acc: seq<Json>)
    ensures ItemsText([], comma) + rest == rest && ItemsText([], comma) == [] && ItemValues([]) == []
    ensures acc + [] == acc && [] + rest == rest
  {
    assert ItemsText([], comma) == [];
  }

  lemma NoMoreElements(num: Reader, end: seq<Filler>, t: Text, acc: seq<Json>)
    requires ReadsNumbers(num) && GapOk(end)
    ensures Elements(num, GapText(end) + ("]" + t), acc) == Closing("]", "]" + t, Arr(acc))
  {
    hide GapText, ParseValue, Closing;
    ValueBehind(num, end, "]" + t);
    assert [] + ("]" + t) == "]" + t;
    NoValue(num, [], "]" + t);
  }

  // ---- objects ----

  /** The first entry without the gap before it, and the text behind its value. */
  function EntryFront(e: Entry, behind: Text): Text {
    Quoted(e.quote, e.key)
    + (GapText(e.between) + (":" + (GapText(e.item.before) + (DocText(e.item.doc) + behind))))
  }

  lemma FirstEntry(num: Reader, entries: seq<Entry>, comma: bool, rest: Text)
    requires entries != [] && EntriesOk(num, entries, comma)
    ensures var e, i, more := entries[0], entries[0].item, |entries| > 1 || comma;
      && GapOk(e.before) && PiecesOk(e.quote, e.key) && GapOk(e.between)
      && GapOk(i.before) && DocOk(num, i.doc) && GapOk(i.after) && (i.doc.DNothing? ==> i.after == [] && more)
      && EntriesOk(num, entries[1..], comma)
      && EntriesText(entries, comma) + rest ==
           GapText(e.before) + EntryFront(e, Behind(i.after, more, EntriesText(entries[1..], comma) + rest))
  {
    hide DocOk, DocText, DocValue, GapText, GapOk, PiecesOk, Quoted;
    var e, more := entries[0], |entries| > 1 || comma;
    var i, sep, tail := e.item, if more then "," else "", EntriesText(entries[1..], comma);
    var v := ItemText(i) + (sep + tail);
    assert EntriesText(entries, comma) == KeyText(e) + v;
    ItemGrouped(GapText(i.before), DocText(i.doc), GapText(i.after), sep, tail, rest);
    EntryGrouped(GapText(e.before), Quoted(e.quote, e.key), GapText(e.between), v, rest);
  }

  lemma EntryGrouped(a: Text, b: Text, c: Text, v: Text, rest: Text)
    ensures a + (b + (c + ":")) + v + rest == a + (b + (c + (":" + (v + rest))))
  {
    Regrouped(a + (b + (c + ":")), v, rest);
    Regrouped(a, b + (c + ":"), v + rest);
    Regrouped(b, c + ":", v + rest);
    Regrouped(c, ":", v + rest);
  }

  lemma EntryBegins(e: Entry, behind: Text)
    requires PiecesOk(e.quote, e.key)
    ensures Solid(EntryFront(e, behind)) && EntryFront(e, behind)[0] == e.quote
  {
    hide GapText, DocText, PiecesText;
  }

  /** The key, the colon and the value of an entry. */
  lemma EntryRead(num: Reader, e: Entry, behind: Text)
    requires ReadsNumbers(num) && PiecesOk(e.quote, e.key) && GapOk(e.between)
    requires GapOk(e.item.before) && DocOk(num, e.item.doc) && Follows(e.item.doc, behind)
    ensures var value := GapText(e.item.before) + (DocText(e.item.doc) + behind);
      && ParseString(EntryFront(e, behind)) == Ok(PiecesValue(e.quote, e.key), GapText(e.between) + (":" + value))
      && Match(":", GapText(e.between) + (":" + value)) == Yes(value)
  {
    hide *;
    var value := GapText(e.item.before) + (DocText(e.item.doc) + behind);
    FrontIs(e, behind);
    Blanks0();
    NothingBefore(EntryFront(e, behind));
    StringBehind([], e.quote, e.key, GapText(e.between) + (":" + value));
    assert ':' != '/' && !IsSpace(':') by { Colon(); }
    TokenBehind(":", e.between, value);
  }

  lemma Colon()
    ensures !IsSpace(':')
  {
  }

  lemma NothingBefore(s: Text)
    ensures [] + s == s
  {
  }

  lemma FrontIs(e: Entry, behind: Text)
    ensures EntryFront(e, behind) == Quoted(e.quote, e.key)
      + (GapText(e.between) + (":" + (GapText(e.item.before) + (DocText(e.item.doc) + behind))))
  {
  }

  lemma {:induction false} MembersRead(num: Reader, entries: seq<Entry>, comma: bool, end: seq<Filler>,
                                       to: seq<Member>, t: Text)
    requires ReadsNumbers(num) && EntriesOk(num, entries, comma) && GapOk(end)
    ensures Members(num, EntriesText(entries, comma) + (GapText(end) + ("}" + t)), to) ==
            Ok(Obj(EntryValues(entries, to)), t)
    decreases entries, 2
  {
    hide *;
    var rest := GapText(end) + ("}" + t);
    if entries == [] {
      NoEntries(comma, rest, to);
      Closes("}", t, Obj(to));
      NoMoreMembers(num, end, t, to);
    } else {
      var e, i, more := entries[0], entries[0].item, |entries| > 1 || comma;
      var tail := EntriesText(entries[1..], comma) + rest;
      var behind := Behind(i.after, more, tail);
      var m := Member(PiecesValue(e.quote, e.key), DocValue(i.doc));
      var value := GapText(i.before) + (DocText(i.doc) + behind);
      FirstEntry(num, entries, comma, rest);
      FirstValue(entries, to);
      EndBegins(end, "}", t);
      if !more {
        assert entries[1..] == [];
        NoEntries(comma, rest, Insert(to, m));
        assert tail == [] + rest;
      }
      BehindFollows(i, more, tail);
      EntryBegins(e, behind);
      MembersBehind(num, e.before, EntryFront(e, behind), to);
      EntryRead(num, e, behind);
      DocRead(num, i.before, i.doc, behind);
      if more {
        CommaRead(i.after, tail);
        MemberMore(num, EntryFront(e, behind), to, m, GapText(e.between) + (":" + value), value, behind, tail);
        MembersRead(num, entries[1..], comma, end, Insert(to, m), t);
      } else {
        NoCommaRead(i.after, end, "}", t);
        Closes("}", t, Obj(Insert(to, m)));
        MemberLast(num, EntryFront(e, behind), to, m, GapText(e.between) + (":" + value), value, behind, "}" + t);
      }
    }
  }

  lemma FirstValue(entries: seq<Entry>, to: seq<Member>)
    requires entries != []
    ensures var e := entries[0];
      EntryValues(entries, to) ==
        EntryValues(entries[1..], Insert(to, Member(PiecesValue(e.quote, e.key), DocValue(e.item.doc))))
  {
    hide Insert, PiecesValue;
  }

  lemma NoEntries(comma: bool, rest: Text, to: seq<Member>)
    ensures EntriesText([], comma) == [] && [] + rest == rest && EntryValues([], to) == to
  {
  }

  lemma NoMoreMembers(num: Reader, end: seq<Filler>, t: Text, to: seq<Member>)
    requires GapOk(end)
    ensures Members(num, GapText(end) + ("}" + t), to) == Closing("}", "}" + t, Obj(to))
  {
    hide GapText, ParseValue, Closing, Match;
    OtherBehind("\"", end, "}" + t);
  }

  lemma {:induction false} ObjectRead(num: Reader, d: Doc, t: Text)
    requires ReadsNumbers(num) && d.DObject? && DocOk(num, d)
    ensures ParseValue(num, DocText(d) + t) == Ok(DocValue(d), t)
    decreases d, 3
  {
    hide *;
    ObjectParts(num, d);
    var rest := GapText(d.end) + ("}" + t);
    var s := EntriesText(d.entries, d.comma) + rest;
    Regrouped(GapText(d.end), "}", t);
    Regrouped(EntriesText(d.entries, d.comma), GapText(d.end) + "}", t);
    Regrouped("{", EntriesText(d.entries, d.comma) + (GapText(d.end) + "}"), t);
    Blanks0();
    if d.entries == [] {
      NoEntries(d.comma, rest, []);
      EmptyObject(num, d.end, t);
    } else {
      MembersRead(num, d.entries, d.comma, d.end, [], t);
      OpensMembers(num, d.entries, d.comma, rest);
    }
    NothingBefore("{");
    ObjectValue(num, [], s, Obj(EntryValues(d.entries, [])), t);
  }

  lemma ObjectParts(num: Reader, d: Doc)
    requires d.DObject? && DocOk(num, d)
    ensures DocText(d) == "{" + (EntriesText(d.entries, d.comma) + (GapText(d.end) + "}"))
    ensures DocValue(d) == Obj(EntryValues(d.entries, [])) && EntriesOk(num, d.entries, d.comma) && GapOk(d.end)
  {
  }

  lemma EmptyObject(num: Reader, end: seq<Filler>, t: Text)
    requires GapOk(end)
    ensures ParseObject(num, "{" + (GapText(end) + ("}" + t))) == Ok(Obj([]), t)
  {
    hide GapText, Members, Match;
    var s := GapText(end) + ("}" + t);
    NothingBefore("{" + s);
    assert [] + "{" + s == "{" + s;
    MatchYes("{", [], s);
    TokenBehind("}", end, t);
  }

  lemma OpensMembers(num: Reader, entries: seq<Entry>, comma: bool, rest: Text)
    requires entries != [] && EntriesOk(num, entries, comma)
    ensures var s := EntriesText(entries, comma) + rest; ParseObject(num, "{" + s) == Members(num, s, [])
  {
    hide GapText, Members, Match, EntryFront, EntriesText, EntriesOk, Behind, PiecesOk, Solid;
    var e, i, more := entries[0], entries[0].item, |entries| > 1 || comma;
    var s := EntriesText(entries, comma) + rest;
    var behind := Behind(i.after, more, EntriesText(entries[1..], comma) + rest);
    FirstEntry(num, entries, comma, rest);
    EntryBegins(e, behind);
    QuoteIs(e.quote, e.key);
    assert [] + "{" + s == "{" + s;
    Blanks0();
    MatchYes("{", [], s);
    OtherBehind("}", e.before, EntryFront(e, behind));
    MembersBehind(num, e.before, EntryFront(e, behind), []);
  }

  lemma QuoteIs(q: byte, ps: seq<Piece>)
    requires PiecesOk(q, ps)
    ensures q == '"' || q == '\''
  {
  }
}
