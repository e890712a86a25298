/** Parsing what was printed: every value but numbers, with strings as they are read back. */
module JsonRoundTrip {
  import opened CBytes
  import opened JsonText
  import opened JsonParse
  import opened JsonStrings

  // ---- tokens ----

  predicate Blank(w: Text) { forall c :: c in w ==> IsSpace(c) }

  /** Text that begins with something that is neither space nor the slash of a comment. */
  predicate Solid(s: Text) { s != [] && !IsSpace(s[0]) && s[0] != '/' }

  lemma {:induction false} SkipBlank(w: Text, s: Text)
    requires Blank(w) && (s == [] || !IsSpace(s[0]))
    ensures SkipSpace(w + s) == s
  {
    if w == [] {
      assert w + s == s;
    } else {
      assert (w + s)[1..] == w[1..] + s;
      SkipBlank(w[1..], s);
    }
  }

  lemma {:induction false} MatchRest(p: Text, k: nat, t: Text)
    requires k <= |p|
    ensures MatchFrom(p, k, p[k..] + t, true) == Yes(t)
    decreases |p| - k
  {
    if k == |p| {
      assert p[k..] + t == t;
    } else {
      assert (p[k..] + t)[1..] == p[k + 1..] + t;
      MatchRest(p, k + 1, t);
    }
  }

  lemma MatchYes(p: Text, w: Text, t: Text)
    requires Blank(w) && p != [] && !IsSpace(p[0])
    ensures Match(p, w + p + t) == Yes(t)
  {
    assert w + p + t == w + (p + t);
    SkipBlank(w, p + t);
    MatchRest(p, 0, t);
    assert p[0..] == p;
  }

  lemma MatchNo(p: Text, w: Text, s: Text)
    requires Blank(w) && p != [] && Solid(s) && s[0] != p[0]
    ensures Match(p, w + s) == NoMatch(s)
  {
    SkipBlank(w, s);
  }

  /** Text that begins no string. */
  lemma NoString(w: Text, s: Text)
    requires Blank(w) && Solid(s) && s[0] != '"' && s[0] != '\''
    ensures ParseString(w + s) == No(s)
  {
    MatchNo("\"", w, s);
  }

  lemma QuotedString(w: Text, k: Text, t: Text)
    requires Blank(w)
    ensures ParseString(w + "\"" + EscapeString(k) + "\"" + t) == Ok(RereadString(k), t)
  {
    var body := EscapeString(k) + "\"" + t;
    assert w + "\"" + EscapeString(k) + "\"" + t == w + "\"" + body;
    MatchYes("\"", w, body);
    EscapedStringReread(k, t, []);
    assert [] + RereadString(k) == RereadString(k);
  }

  /** Text that begins no number. */
  lemma NoNumber(num: Reader, s: Text)
    requires ReadsNumbers(num) && Solid(s) && !IsNum(s[0]) && s[0] !in {'+', '-', '.'}
    ensures ParseNumber(num, s) == No(s)
  {
    assert num(s) == (None, 0);
    assert s[0..] == s;
  }

  predicate BeginsValue(s: Text) {
    s != [] && s[0] in {'t', 'f', 'n', '[', '{', ']', '}'}
  }

  /** Neither a string nor a number: a word, an array, an object, or the end of one. */
  lemma ToWord(num: Reader, w: Text, s: Text)
    requires ReadsNumbers(num) && Blank(w) && BeginsValue(s)
    ensures ParseString(w + s) == No(s) && ParseNumber(num, s) == No(s)
  {
    NoString(w, s);
    NoNumber(num, s);
  }

  lemma NoWord(s: Text)
    requires BeginsValue(s) && s[0] in {'[', '{', ']', '}'}
    ensures ParseWord(s) == No(s)
  {
    assert [] + s == s;
    MatchNo("true", [], s);
    MatchNo("false", [], s);
    MatchNo("null", [], s);
  }

  datatype Word = Word(text: Text, value: Json)

  const WORD_TRUE := Word("true", Bool(true))
  const WORD_FALSE := Word("false", Bool(false))
  const WORD_NULL := Word("null", Null)

  lemma WordParses(w: Word, t: Text)
    requires w in {WORD_TRUE, WORD_FALSE, WORD_NULL}
    ensures ParseWord(w.text + t) == Ok(w.value, t)
  {
    var s := w.text + t;
    assert [] + s == s && [] + w.text + t == s;
    MatchYes(w.text, [], t);
    if w != WORD_TRUE {
      MatchNo("true", [], s);
    }
    if w == WORD_NULL {
      MatchNo("false", [], s);
    }
  }

  lemma WordValue(num: Reader, w: Text, word: Word, t: Text)
    requires ReadsNumbers(num) && Blank(w) && word in {WORD_TRUE, WORD_FALSE, WORD_NULL}
    ensures ParseValue(num, w + word.text + t) == Ok(word.value, t)
  {
    hide ParseString, ParseNumber, ParseWord;
    assert w + word.text + t == w + (word.text + t);
    ToWord(num, w, word.text + t);
    WordParses(word, t);
  }

  lemma StringValue(num: Reader, w: Text, k: Text, t: Text)
    requires Blank(w)
    ensures ParseValue(num, w + "\"" + EscapeString(k) + "\"" + t) == Ok(Str(RereadString(k)), t)
  {
    hide ParseString;
    QuotedString(w, k, t);
  }

  /** A closing bracket is no value. */
  lemma NoValue(num: Reader, w: Text, s: Text)
    requires ReadsNumbers(num) && Blank(w) && BeginsValue(s) && s[0] in {']', '}'}
    ensures ParseValue(num, w + s) == No(s)
  {
    hide ParseString, ParseNumber, ParseWord, Match;
    ToWord(num, w, s);
    NoWord(s);
    assert [] + s == s;
    MatchNo("{", [], s);
  }

  lemma ArrayValue(num: Reader, w: Text, s: Text, v: Json, t: Text)
    requires ReadsNumbers(num) && Blank(w) && Elements(num, s, []) == Ok(v, t)
    ensures ParseValue(num, w + "[" + s) == Ok(v, t)
    ensures ParseArray(num, w + "[" + s) == Ok(v, t)
  {
    hide ParseString, ParseNumber, ParseWord, Elements, Match;
    var x := "[" + s;
    assert w + "[" + s == w + x && [] + "[" + s == x;
    ToWord(num, w, x);
    NoWord(x);
    MatchYes("[", [], s);
    MatchYes("[", w, s);
  }

  lemma ObjectValue(num: Reader, w: Text, s: Text, v: Json, t: Text)
    requires ReadsNumbers(num) && Blank(w)
    requires ParseObject(num, "{" + s) == Ok(v, t)
    ensures ParseValue(num, w + "{" + s) == Ok(v, t)
    ensures ParseObject(num, w + "{" + s) == Ok(v, t)
  {
    hide ParseString, ParseNumber, ParseWord, Match;
    var x := "{" + s;
    assert w + "{" + s == w + x && [] + "{" + s == x;
    ToWord(num, w, x);
    NoWord(x);
    MatchYes("{", [], s);
    MatchYes("{", w, s);
  }

  // ---- the printed text, without blanked commas ----

  /** What is read back of a value. */
  function RereadValue(v: Json): Json {
    match v
    case Str(s) => Str(RereadString(s))
    case Arr(vs) => Arr(RereadValues(vs))
    case Obj(ms) => Obj(RereadMembers(ms, []))
    case _ => v
  }

  function RereadValues(vs: seq<Json>): (r: seq<Json>)
    ensures |r| == |vs|
  {
    if vs == [] then [] else [RereadValue(vs[0])] + RereadValues(vs[1..])
  }

  function RereadMembers(ms: seq<Member>, to: seq<Member>): seq<Member> {
    if ms == [] then to
    else RereadMembers(ms[1..], Insert(to, Member(RereadString(ms[0].key), RereadValue(ms[0].value))))
  }

  /** A value that the model can print: one without numbers. */
  predicate Printable(v: Json) {
    match v
    case Number(_) => false
    case Arr(vs) => forall i :: 0 <= i < |vs| ==> Printable(vs[i])
    case Obj(ms) => forall i :: 0 <= i < |ms| ==> Printable(ms[i].value)
    case _ => true
  }

  /** And whose text can be read: one whose keys are not empty either. */
  predicate Readable(v: Json) {
    match v
    case Number(_) => false
    case Arr(vs) => forall i :: 0 <= i < |vs| ==> Readable(vs[i])
    case Obj(ms) => forall i :: 0 <= i < |ms| ==> ms[i].key != [] && Readable(ms[i].value)
    case _ => true
  }

  lemma {:induction false} ReadableIsPrintable(v: Json)
    requires Readable(v)
    ensures Printable(v)
    decreases v
  {
    match v
    case Arr(vs) =>
      forall i | 0 <= i < |vs| ensures Printable(vs[i]) {
        ReadableIsPrintable(vs[i]);
      }
    case Obj(ms) =>
      forall i | 0 <= i < |ms| ensures Printable(ms[i].value) {
        ReadableIsPrintable(ms[i].value);
      }
    case _ =>
  }

  const LAST: Text := " \n"

  /** The text of a value behind its name. */
  function Body(depth: nat, v: Json): Text
    decreases v, 0
  {
    match v
    case Null => "null"
    case Bool(b) => if b then "true" else "false"
    case Number(_) => []
    case Str(s) => "\"" + EscapeString(s) + "\""
    case Arr(vs) => "[\n" + (if vs == [] then [] else Values(depth + 1, vs) + LAST) + Tabs(depth) + "]"
    case Obj(ms) => "{\n" + (if ms == [] then [] else Named(depth + 1, ms) + LAST) + Tabs(depth) + "}"
  }

  function Values(depth: nat, vs: seq<Json>): Text
    requires vs != []
    decreases vs, 1
  {
    var first := Tabs(depth) + Body(depth, vs[0]);
    if |vs| == 1 then first else first + END + Values(depth, vs[1..])
  }

  function Named(depth: nat, ms: seq<Member>): Text
    requires ms != []
    decreases ms, 1
  {
    var first := Head(depth, ms[0].key) + Body(depth, ms[0].value);
    if |ms| == 1 then first else first + END + Named(depth, ms[1..])
  }

  lemma CommaBlanked(a: Text, b: Text)
    requires a != []
    ensures RemoveLastComma(a + END) == a + LAST
    ensures |b| == 2 && b[0] != ',' ==> RemoveLastComma(a + b) == a + b
  {
    var t := a + END;
    assert t[|t| - 2] == ',';
    assert t[|t| - 2 := ' '] == a + LAST;
  }

  lemma NothingBlanked(t: Text)
    requires |t| >= 2 && t[|t| - 2] != ','
    ensures RemoveLastComma(t) == t
  {
  }

  lemma Regroup(h: Text, open: Text, x: Text, tabs: Text, close: Text)
    ensures h + open + x + tabs + close + END == h + (open + x + tabs + close) + END
  {
    assert h + open + x + tabs + close == h + (open + x + tabs + close);
  }

  /** The brackets around values, of which the last has lost its comma. */
  lemma Bracketed(h: Text, open: Text, inner: Text, depth: nat, close: Text)
    requires |open| == 2 && open[0] != ','
    ensures Bracket(h, open, [], depth, close) == h + (open + [] + Tabs(depth) + close) + END
    ensures Bracket(h, open, inner + END, depth, close) == h + (open + (inner + LAST) + Tabs(depth) + close) + END
  {
    hide RemoveLastComma;
    var tabs := Tabs(depth);
    assert h + open + [] == h + open;
    NothingBlanked(h + open);
    Regroup(h, open, [], tabs, close);
    assert h + open + (inner + END) == h + open + inner + END;
    CommaBlanked(h + open + inner, []);
    assert h + open + inner + LAST == h + open + (inner + LAST);
    Regroup(h, open, inner + LAST, tabs, close);
  }

  lemma {:induction false} TagIsBody(depth: nat, name: Text, v: Json)
    requires Printable(v)
    ensures Tag(depth, name, v) == Head(depth, name) + Body(depth, v) + END
    decreases v, 0
  {
    hide Head, EscapeString, Bracket, Values, Named;
    match v
    case Arr(vs) =>
      if vs == [] {
        assert TagValues(depth + 1, vs) == [];
        Bracketed(Head(depth, name), "[\n", [], depth, "]");
      } else {
        TagsAreValues(depth + 1, vs);
        Bracketed(Head(depth, name), "[\n", Values(depth + 1, vs), depth, "]");
      }
    case Obj(ms) =>
      if ms == [] {
        assert TagMembers(depth + 1, ms) == [];
        Bracketed(Head(depth, name), "{\n", [], depth, "}");
      } else {
        TagsAreNamed(depth + 1, ms);
        Bracketed(Head(depth, name), "{\n", Named(depth + 1, ms), depth, "}");
      }
    case Str(s) =>
      assert Head(depth, name) + "\"" + EscapeString(s) + "\"" == Head(depth, name) + ("\"" + EscapeString(s) + "\"");
    case _ =>
  }

  lemma {:induction false} TagsAreValues(depth: nat, vs: seq<Json>)
    requires vs != [] && forall i :: 0 <= i < |vs| ==> Printable(vs[i])
    ensures TagValues(depth, vs) == Values(depth, vs) + END
    decreases vs, 1
  {
    hide Tag, Body;
    TagIsBody(depth, [], vs[0]);
    if |vs| == 1 {
      assert vs[1..] == [];
      assert TagValues(depth, []) == [];
    } else {
      TagsAreValues(depth, vs[1..]);
    }
  }

  lemma {:induction false} TagsAreNamed(depth: nat, ms: seq<Member>)
    requires ms != [] && forall i :: 0 <= i < |ms| ==> Printable(ms[i].value)
    ensures TagMembers(depth, ms) == Named(depth, ms) + END
    decreases ms, 1
  {
    hide Tag, Body, Head;
    TagIsBody(depth, ms[0].key, ms[0].value);
    if |ms| == 1 {
      assert ms[1..] == [];
      assert TagMembers(depth, []) == [];
    } else {
      TagsAreNamed(depth, ms[1..]);
    }
  }

  // ---- reading it back ----

  lemma Blanks()
    ensures Blank([]) && Blank(" ") && Blank("\n") && Blank(LAST)
  {
  }

  lemma TabsBlank(depth: nat, w: Text)
    requires Blank(w)
    ensures Blank(w + Tabs(depth))
  {
  }

  /** The end of an array: the blank comma, the tabs, the bracket. */
  lemma EndOfArray(e: Text, t: Text, v: Json)
    requires Blank(e)
    ensures Match(",", e + "]" + t) == NoMatch("]" + t) && Closing("]", "]" + t, v) == Ok(v, t)
  {
    hide Match;
    assert e + "]" + t == e + ("]" + t);
    MatchNo(",", e, "]" + t);
    assert [] + "]" + t == "]" + t;
    MatchYes("]", [], t);
  }

  lemma EndOfObject(e: Text, t: Text, v: Json)
    requires Blank(e)
    ensures Match(",", e + "}" + t) == NoMatch("}" + t) && Closing("}", "}" + t, v) == Ok(v, t)
  {
    hide Match;
    assert e + "}" + t == e + ("}" + t);
    MatchNo(",", e, "}" + t);
    assert [] + "}" + t == "}" + t;
    MatchYes("}", [], t);
  }

  lemma Comma(x: Text)
    ensures Match(",", END + x) == Yes("\n" + x)
  {
    hide Match;
    assert END + x == [] + "," + ("\n" + x);
    MatchYes(",", [], "\n" + x);
  }

  // Texts put together in other ways.

  lemma Together3(a: Text, b: Text, c: Text)
    ensures a + (b + c) == a + b + c
  {
  }

  lemma FirstOfMore(w: Text, tabs: Text, first: Text, sep: Text, more: Text, end: Text)
    ensures w + (tabs + first + sep + more) + end == w + tabs + first + (sep + (more + end))
  {
    Together3(w, tabs + first + sep, more);
    Together3(w, tabs + first, sep);
    Together3(w, tabs, first);
    Together3(w + tabs + first + sep, more, end);
    Together3(w + tabs + first, sep, more + end);
  }

  lemma ValuesOf(depth: nat, vs: seq<Json>)
    requires vs != []
    ensures var first := Tabs(depth) + Body(depth, vs[0]);
      Values(depth, vs) == if |vs| == 1 then first else first + END + Values(depth, vs[1..])
    ensures RereadValues(vs) == [RereadValue(vs[0])] + RereadValues(vs[1..])
    ensures |vs| == 1 ==> RereadValues(vs) == [RereadValue(vs[0])]
  {
    hide Body, RereadValue;
    if |vs| == 1 {
      assert vs[1..] == [];
    }
  }

  lemma {:induction false} ElementsReread(num: Reader, depth: nat, vs: seq<Json>, acc: seq<Json>, w: Text, e: Text,
                                          t: Text)
    requires ReadsNumbers(num) && Blank(w) && Blank(e)
    requires vs != [] && forall i :: 0 <= i < |vs| ==> Readable(vs[i])
    ensures Elements(num, w + Values(depth, vs) + (e + "]" + t), acc) == Ok(Arr(acc + RereadValues(vs)), t)
    decreases vs, 1
  {
    hide *;
    var first, v := Body(depth, vs[0]), RereadValue(vs[0]);
    var end := e + "]" + t;
    Blanks();
    TabsBlank(depth, w);
    ValuesOf(depth, vs);
    var s := w + Values(depth, vs) + end;
    if |vs| == 1 {
      ValueReread(num, depth, vs[0], w + Tabs(depth), end);
      Together3(w, Tabs(depth), first);
      EndOfArray(e, t, Arr(acc + [v]));
      ReadLast(num, s, acc, v, end, "]" + t);
    } else {
      var more := Values(depth, vs[1..]);
      ValueReread(num, depth, vs[0], w + Tabs(depth), END + (more + end));
      FirstOfMore(w, Tabs(depth), first, END, more, end);
      Comma(more + end);
      ReadMore(num, s, acc, v, END + (more + end), "\n" + (more + end));
      ElementsReread(num, depth, vs[1..], acc + [v], "\n", e, t);
      Together3("\n", more, end);
      assert acc + [v] + RereadValues(vs[1..]) == acc + ([v] + RereadValues(vs[1..]));
    }
  }

  lemma ReadLast(num: Reader, s: Text, acc: seq<Json>, v: Json, rest: Text, r: Text)
    requires ParseValue(num, s) == Ok(v, rest) && Match(",", rest) == NoMatch(r)
    ensures Elements(num, s, acc) == Closing("]", r, Arr(acc + [v]))
  {
    hide ParseValue, Match, Closing;
  }

  lemma ReadMore(num: Reader, s: Text, acc: seq<Json>, v: Json, rest: Text, r: Text)
    requires ParseValue(num, s) == Ok(v, rest) && Match(",", rest) == Yes(r)
    ensures Elements(num, s, acc) == Elements(num, r, acc + [v])
  {
    hide ParseValue, Match, Closing;
  }

  lemma {:induction false} ValueReread(num: Reader, depth: nat, v: Json, w: Text, t: Text)
    requires ReadsNumbers(num) && Blank(w) && Readable(v)
    ensures ParseValue(num, w + Body(depth, v) + t) == Ok(RereadValue(v), t)
    decreases v, 0
  {
    hide ParseValue, ParseObject, Elements, EscapeString, RereadString, RereadValues, RereadMembers, Blank, Values,
      Named;
    match v
    case Null => WordValue(num, w, WORD_NULL, t);
    case Bool(b) => WordValue(num, w, if b then WORD_TRUE else WORD_FALSE, t);
    case Str(s) =>
      StringValue(num, w, s, t);
      Quoted(w, EscapeString(s), t);
    case Arr(vs) =>
      var x := ArrayReread(num, depth, vs, t);
      ArrayValue(num, w, x, Arr(RereadValues(vs)), t);
      Opened(w, Body(depth, v), t, "[", x);
    case Obj(ms) =>
      var x := ObjectReread(num, depth, ms, t);
      ObjectValue(num, w, x, Obj(RereadMembers(ms, [])), t);
      Opened(w, Body(depth, v), t, "{", x);
  }

  lemma Quoted(w: Text, k: Text, t: Text)
    ensures w + ("\"" + k + "\"") + t == w + "\"" + k + "\"" + t
  {
    Together3(w, "\"" + k, "\"");
    Together3(w, "\"", k);
  }

  lemma Opened(w: Text, body: Text, t: Text, open: Text, x: Text)
    requires body + t == open + x
    ensures w + body + t == w + open + x
  {
    Together3(w, body, t);
    Together3(w, open, x);
  }

  /** The text behind the opening bracket. */
  lemma {:induction false} ArrayReread(num: Reader, depth: nat, vs: seq<Json>, t: Text) returns (x: Text)
    requires ReadsNumbers(num) && forall i :: 0 <= i < |vs| ==> Readable(vs[i])
    ensures Body(depth, Arr(vs)) + t == "[" + x
    ensures Elements(num, x, []) == Ok(Arr(RereadValues(vs)), t)
    decreases vs, 2
  {
    hide *;
    Blanks();
    TabsBlank(depth, "\n");
    TabsBlank(depth, LAST);
    BodyOfArray(depth, vs);
    if vs == [] {
      x := "\n" + Tabs(depth) + ("]" + t);
      EmptyArray(num, "\n" + Tabs(depth), t);
      Inside("[", "\n", [], Tabs(depth), "]", t);
    } else {
      var inner := Values(depth + 1, vs);
      x := "\n" + inner + ((LAST + Tabs(depth)) + "]" + t);
      ElementsReread(num, depth + 1, vs, [], "\n", LAST + Tabs(depth), t);
      assert [] + RereadValues(vs) == RereadValues(vs);
      Inside("[", "\n", inner, LAST + Tabs(depth), "]", t);
      Together3(inner, LAST, Tabs(depth));
    }
  }

  /** Brackets, a line end, what is inside, a blank, a bracket. */
  lemma Inside(open: Text, line: Text, inner: Text, blank: Text, close: Text, t: Text)
    ensures open + line + (inner + blank) + close + t == open + (line + inner + (blank + close + t))
    ensures inner == [] ==> open + line + blank + close + t == open + (line + blank + (close + t))
  {
    var all := open + line + (inner + blank) + close + t;
    Together3(open + line, inner, blank);
    Together3(open, line, inner);
    Together3(open + (line + inner), blank, close);
    Together3(open + (line + inner), blank + close, t);
    Together3(open, line + inner, blank + close + t);
    assert all == open + (line + inner + (blank + close + t));
    if inner == [] {
      assert inner + blank == blank;
      Together3(open, line, blank);
      Together3(open + (line + blank), close, t);
      Together3(open, line + blank, close + t);
    }
  }

  lemma BodyOfArray(depth: nat, vs: seq<Json>)
    ensures Body(depth, Arr(vs)) ==
      if vs == [] then "[" + "\n" + Tabs(depth) + "]"
      else "[" + "\n" + (Values(depth + 1, vs) + LAST + Tabs(depth)) + "]"
    ensures RereadValues([]) == []
  {
    hide Values;
    assert "[" + "\n" == "[\n";
    if vs == [] {
      assert "[\n" + [] == "[\n";
    } else {
      Together3("[\n", Values(depth + 1, vs) + LAST, Tabs(depth));
    }
  }

  lemma EmptyArray(num: Reader, w: Text, t: Text)
    requires ReadsNumbers(num) && Blank(w)
    ensures Elements(num, w + ("]" + t), []) == Ok(Arr([]), t)
  {
    hide Match, ParseValue, Closing;
    NoValue(num, w, "]" + t);
    EndOfArray([], t, Arr([]));
  }

  // ---- objects ----

  /** The members without the tabs of the first. */
  function Keyed(depth: nat, ms: seq<Member>): Text
    requires ms != []
  {
    var first := "\"" + EscapeString(ms[0].key) + "\"" + (":" + " " + Body(depth, ms[0].value));
    if |ms| == 1 then first else first + (END + Named(depth, ms[1..]))
  }

  lemma NamedIsKeyed(depth: nat, ms: seq<Member>)
    requires ms != [] && ms[0].key != []
    ensures Named(depth, ms) == Tabs(depth) + Keyed(depth, ms)
  {
    hide Body, EscapeString;
    var k, b := EscapeString(ms[0].key), Body(depth, ms[0].value);
    HeadThenBody(Tabs(depth), k, b);
    if |ms| > 1 {
      var first := "\"" + k + "\"" + (":" + " " + b);
      Together3(Tabs(depth) + first, END, Named(depth, ms[1..]));
      Together3(Tabs(depth), first, END + Named(depth, ms[1..]));
    }
  }

  lemma HeadThenBody(tabs: Text, k: Text, b: Text)
    ensures tabs + "\"" + k + "\"" + ":" + " " + b == tabs + ("\"" + k + "\"" + (":" + " " + b))
  {
    Together3(tabs, "\"", k);
    Together3(tabs, "\"" + k, "\"");
    Together3(tabs + "\"" + k + "\"", ":", " ");
    Together3(tabs + "\"" + k + "\"", ":" + " ", b);
    Together3(tabs, "\"" + k + "\"", ":" + " " + b);
  }

  lemma MemberLast(num: Reader, s: Text, to: seq<Member>, m: Member, r1: Text, r2: Text, r3: Text, r4: Text)
    requires ParseString(s) == Ok(m.key, r1) && Match(":", r1) == Yes(r2)
    requires ParseValue(num, r2) == Ok(m.value, r3) && Match(",", r3) == NoMatch(r4)
    ensures Members(num, s, to) == Closing("}", r4, Obj(Insert(to, m)))
  {
    hide ParseString, ParseValue, Match, Closing, Insert;
  }

  lemma MemberMore(num: Reader, s: Text, to: seq<Member>, m: Member, r1: Text, r2: Text, r3: Text, r4: Text)
    requires ParseString(s) == Ok(m.key, r1) && Match(":", r1) == Yes(r2)
    requires ParseValue(num, r2) == Ok(m.value, r3) && Match(",", r3) == Yes(r4)
    ensures Members(num, s, to) == Members(num, r4, Insert(to, m))
  {
    hide ParseString, ParseValue, Match, Closing, Insert;
  }

  /** The key and the colon of a member. */
  lemma KeyReread(k: Text, w: Text, after: Text)
    requires Blank(w)
    ensures ParseString(w + ("\"" + EscapeString(k) + "\"" + (":" + after))) == Ok(RereadString(k), ":" + after)
    ensures Match(":", ":" + after) == Yes(after)
  {
    hide *;
    var e := EscapeString(k);
    Blanks();
    QuotedString(w, k, ":" + after);
    Together3(w, "\"" + e + "\"", ":" + after);
    Quoted(w, e, ":" + after);
    Together3([], ":", after);
    assert [] + ":" + after == ":" + after;
    assert !IsSpace(':') by { Colon(); }
    MatchYes(":", [], after);
  }

  lemma Colon()
    ensures !IsSpace(':')
  {
  }

  lemma MembersOf(ms: seq<Member>, to: seq<Member>)
    requires ms != []
    ensures RereadMembers(ms, to) ==
      RereadMembers(ms[1..], Insert(to, Member(RereadString(ms[0].key), RereadValue(ms[0].value))))
    ensures |ms| == 1 ==>
      RereadMembers(ms, to) == Insert(to, Member(RereadString(ms[0].key), RereadValue(ms[0].value)))
  {
    hide Insert, RereadString, RereadValue;
    if |ms| == 1 {
      assert ms[1..] == [];
    }
  }

  /** The text of a member as a key, a value, and what follows. */
  lemma KeyedIs(depth: nat, ms: seq<Member>, w: Text, end: Text)
    requires ms != []
    ensures var k, b := EscapeString(ms[0].key), Body(depth, ms[0].value);
      var rest := if |ms| == 1 then end else END + (Named(depth, ms[1..]) + end);
      w + Keyed(depth, ms) + end == w + ("\"" + k + "\"" + (":" + (" " + b + rest)))
  {
    hide Body, EscapeString, Named;
    var k, b := EscapeString(ms[0].key), Body(depth, ms[0].value);
    var quoted := "\"" + k + "\"";
    if |ms| == 1 {
      OneKeyed(w, quoted, b, end);
    } else {
      var more := Named(depth, ms[1..]);
      Together3(w, quoted + (":" + " " + b), END + more);
      Together3(w + (quoted + (":" + " " + b)), END + more, end);
      Together3(END, more, end);
      OneKeyed(w, quoted, b, END + (more + end));
    }
  }

  lemma OneKeyed(w: Text, quoted: Text, b: Text, rest: Text)
    ensures w + (quoted + (":" + " " + b)) + rest == w + (quoted + (":" + (" " + b + rest)))
  {
    Together3(w, quoted + (":" + " " + b), rest);
    Together3(quoted, ":" + " " + b, rest);
    Together3(":" , " ", b);
    Together3(":", " " + b, rest);
  }

  lemma {:induction false} MembersReread(num: Reader, depth: nat, ms: seq<Member>, to: seq<Member>, w: Text, e: Text,
                                         t: Text)
    requires ReadsNumbers(num) && Blank(w) && Blank(e)
    requires ms != [] && forall i :: 0 <= i < |ms| ==> ms[i].key != [] && Readable(ms[i].value)
    ensures Members(num, w + Keyed(depth, ms) + (e + "}" + t), to) == Ok(Obj(RereadMembers(ms, to)), t)
    decreases ms, 1
  {
    hide *;
    var m := Member(RereadString(ms[0].key), RereadValue(ms[0].value));
    var end := e + "}" + t;
    var rest := if |ms| == 1 then end else END + (Named(depth, ms[1..]) + end);
    var body := Body(depth, ms[0].value);
    var s := w + Keyed(depth, ms) + end;
    Blanks();
    TabsBlank(depth, "\n");
    ValueReread(num, depth, ms[0].value, " ", rest);
    KeyedIs(depth, ms, w, end);
    KeyReread(ms[0].key, w, " " + body + rest);
    MembersOf(ms, to);
    if |ms| == 1 {
      EndOfObject(e, t, Obj(Insert(to, m)));
      MemberLast(num, s, to, m, ":" + (" " + body + rest), " " + body + rest, rest, "}" + t);
    } else {
      var more := Named(depth, ms[1..]);
      Comma(more + end);
      MemberMore(num, s, to, m, ":" + (" " + body + rest), " " + body + rest, rest, "\n" + (more + end));
      MembersReread(num, depth, ms[1..], Insert(to, m), "\n" + Tabs(depth), e, t);
      NamedIsKeyed(depth, ms[1..]);
      Together3("\n", more, end);
      Together3("\n", Tabs(depth), Keyed(depth, ms[1..]));
    }
  }

  /** An object with a first member: no closing brace follows the opening one. */
  lemma ObjectOpens(num: Reader, w: Text, s: Text)
    requires Blank(w) && s != [] && s[0] == '"'
    ensures ParseObject(num, "{" + (w + s)) == Members(num, s, [])
  {
    hide Match, Members;
    MatchYes("{", [], w + s);
    assert [] + "{" + (w + s) == "{" + (w + s);
    MatchNo("}", w, s);
  }

  lemma ObjectEmpty(num: Reader, w: Text, t: Text)
    requires Blank(w)
    ensures ParseObject(num, "{" + (w + "}" + t)) == Ok(Obj([]), t)
  {
    hide Match, Members;
    MatchYes("{", [], w + "}" + t);
    assert [] + "{" + (w + "}" + t) == "{" + (w + "}" + t);
    MatchYes("}", w, t);
  }

  lemma {:induction false} ObjectReread(num: Reader, depth: nat, ms: seq<Member>, t: Text) returns (x: Text)
    requires ReadsNumbers(num) && forall i :: 0 <= i < |ms| ==> ms[i].key != [] && Readable(ms[i].value)
    ensures Body(depth, Obj(ms)) + t == "{" + x
    ensures ParseObject(num, "{" + x) == Ok(Obj(RereadMembers(ms, [])), t)
    decreases ms, 2
  {
    hide *;
    Blanks();
    BodyOfObject(depth, ms);
    if ms == [] {
      TabsBlank(depth, "\n");
      x := "\n" + Tabs(depth) + ("}" + t);
      ObjectEmpty(num, "\n" + Tabs(depth), t);
      Together3("\n" + Tabs(depth), "}", t);
      Inside("{", "\n", [], Tabs(depth), "}", t);
    } else {
      TabsBlank(depth, LAST);
      TabsBlank(depth + 1, "\n");
      var end := LAST + Tabs(depth);
      var s := Keyed(depth + 1, ms) + (end + "}" + t);
      MembersReread(num, depth + 1, ms, [], [], end, t);
      assert [] + Keyed(depth + 1, ms) == Keyed(depth + 1, ms);
      KeyedQuote(depth + 1, ms);
      assert s[0] == Keyed(depth + 1, ms)[0];
      ObjectOpens(num, "\n" + Tabs(depth + 1), s);
      NamedIsKeyed(depth + 1, ms);
      x := "\n" + Tabs(depth + 1) + s;
      Inside("{", "\n", Named(depth + 1, ms), end, "}", t);
      Together3("\n", Tabs(depth + 1), Keyed(depth + 1, ms));
      Together3("\n" + Tabs(depth + 1), Keyed(depth + 1, ms), end + "}" + t);
      Together3(Named(depth + 1, ms), LAST, Tabs(depth));
    }
  }

  lemma BodyOfObject(depth: nat, ms: seq<Member>)
    ensures Body(depth, Obj(ms)) ==
      if ms == [] then "{" + "\n" + Tabs(depth) + "}"
      else "{" + "\n" + (Named(depth + 1, ms) + LAST + Tabs(depth)) + "}"
    ensures RereadMembers([], []) == []
  {
    hide Named;
    assert "{" + "\n" == "{\n";
    if ms == [] {
      assert "{\n" + [] == "{\n";
    } else {
      Together3("{\n", Named(depth + 1, ms) + LAST, Tabs(depth));
    }
  }

  lemma KeyedQuote(depth: nat, ms: seq<Member>)
    requires ms != []
    ensures Keyed(depth, ms) != [] && Keyed(depth, ms)[0] == '"'
  {
    hide Body, EscapeString;
  }

  // ---- the round trip ----

  lemma PrintIsBody(v: Json)
    requires Printable(v) && (v.Arr? || v.Obj?)
    ensures Print(v) == Body(0, v) + LAST
  {
    hide Body, Tag;
    TagIsBody(0, [], v);
    assert Head(0, []) + Body(0, v) == Body(0, v);
    BodyNotEmpty(v);
    CommaBlanked(Body(0, v), []);
  }

  lemma BodyNotEmpty(v: Json)
    requires v.Arr? || v.Obj?
    ensures Body(0, v) != []
  {
  }

  /** Parsing the text of an array or of an object gives the value, with its strings as they are
      read back, and leaves the end of the line. */
  lemma ParsePrint(num: Reader, v: Json)
    requires ReadsNumbers(num) && Readable(v)
    ensures v.Arr? ==> ParseArray(num, Print(v)) == Ok(RereadValue(v), LAST)
    ensures v.Obj? ==> ParseObject(num, Print(v)) == Ok(RereadValue(v), LAST)
  {
    hide Body, ParseArray, ParseObject, Elements, Match, Print;
    ReadableIsPrintable(v);
    match v
    case Arr(vs) =>
      PrintIsBody(v);
      var x := ArrayReread(num, 0, vs, LAST);
      ArrayValue(num, [], x, Arr(RereadValues(vs)), LAST);
      assert [] + "[" + x == "[" + x;
    case Obj(ms) =>
      PrintIsBody(v);
      var x := ObjectReread(num, 0, ms, LAST);
    case _ =>
  }

  // ---- empty keys ----

  /** An object with an empty key, which comes first in the order of keys, has a text that does
      not parse: the key is left out of it. */
  lemma EmptyKeyFails(num: Reader, ms: seq<Member>)
    requires ReadsNumbers(num) && Printable(Obj(ms)) && ms != [] && ms[0].key == []
    ensures ParseObject(num, Print(Obj(ms))).No?
  {
    hide *;
    Blanks();
    TabsBlank(1, "\n");
    var first := Body(1, ms[0].value);
    var rest := KeylessText(ms);
    FirstPrintable(ms);
    KeylessFails(num, "\n" + Tabs(1), ms[0].value, rest);
  }

  /** A comma, or the end of the object. */
  predicate FollowsFirst(rest: Text) {
    rest != [] && (rest[0] == ',' || (|rest| >= 3 && rest[..3] == " \n}"))
  }

  lemma Follows(x: Text)
    ensures FollowsFirst(END + x + LAST + "}" + LAST) && FollowsFirst(LAST + "}" + LAST)
  {
    assert (END + x + LAST + "}" + LAST)[0] == ',';
    assert (LAST + "}" + LAST)[..3] == " \n}";
  }

  lemma FirstPrintable(ms: seq<Member>)
    requires Printable(Obj(ms)) && ms != []
    ensures Printable(ms[0].value)
  {
  }

  /** The text of such an object, with what follows its first value. */
  lemma KeylessText(ms: seq<Member>) returns (rest: Text)
    requires Printable(Obj(ms)) && ms != [] && ms[0].key == []
    ensures FollowsFirst(rest)
    ensures Print(Obj(ms)) == "{" + (("\n" + Tabs(1)) + (Body(1, ms[0].value) + rest))
  {
    hide *;
    PrintIsBody(Obj(ms));
    BodyOfObject(0, ms);
    var first := Body(1, ms[0].value);
    KeylessNamed(ms);
    NoTabs();
    Follows(if |ms| == 1 then [] else Named(1, ms[1..]));
    if |ms| == 1 {
      rest := LAST + "}" + LAST;
      KeylessOne("\n", Tabs(1), first, [], "}");
    } else {
      var more := END + Named(1, ms[1..]);
      rest := more + LAST + "}" + LAST;
      KeylessOne("\n", Tabs(1), first, more, "}");
    }
  }

  lemma NoTabs()
    ensures Tabs(0) == []
  {
  }

  lemma KeylessNamed(ms: seq<Member>)
    requires ms != [] && ms[0].key == []
    ensures Named(1, ms) == Tabs(1) + Body(1, ms[0].value) + (if |ms| == 1 then [] else END + Named(1, ms[1..]))
  {
    hide Body;
    var first := Tabs(1) + Body(1, ms[0].value);
    if |ms| == 1 {
      assert first + [] == first;
    } else {
      Together3(first, END, Named(1, ms[1..]));
    }
  }

  lemma KeylessOne(line: Text, tabs: Text, first: Text, more: Text, close: Text)
    ensures "{" + line + (tabs + first + more + LAST + []) + close + LAST
      == "{" + ((line + tabs) + (first + (more + LAST + close + LAST)))
    ensures more == [] ==> more + LAST + close + LAST == LAST + close + LAST
  {
    assert tabs + first + more + LAST + [] == tabs + first + more + LAST;
    assert "{" + line + (tabs + first + more + LAST) == "{" + (line + tabs + (first + (more + LAST)));
    assert "{" + (line + tabs + (first + (more + LAST))) + close + LAST
      == "{" + ((line + tabs) + (first + (more + LAST + close + LAST)));
    if more == [] {
      assert more + LAST == LAST;
    }
  }

  lemma KeylessFails(num: Reader, w: Text, v: Json, rest: Text)
    requires ReadsNumbers(num) && Blank(w) && Printable(v)
    requires FollowsFirst(rest)
    ensures ParseObject(num, "{" + (w + (Body(1, v) + rest))).No?
  {
    hide Match, Members, Body;
    var s := Body(1, v) + rest;
    BodyBegins(1, v);
    assert s[0] == Body(1, v)[0];
    MatchYes("{", [], w + s);
    assert [] + "{" + (w + s) == "{" + (w + s);
    MatchNo("}", w, s);
    KeylessMember(num, v, rest);
  }

  lemma BodyBegins(depth: nat, v: Json)
    requires Printable(v)
    ensures var b := Body(depth, v);
      b != [] && (if v.Str? then b[0] == '"' else b[0] in {'t', 'f', 'n', '[', '{'})
  {
    hide Values, Named, EscapeString;
  }

  lemma KeylessMember(num: Reader, v: Json, rest: Text)
    requires Printable(v) && FollowsFirst(rest)
    ensures Members(num, Body(1, v) + rest, []).No?
  {
    hide *;
    var s := Body(1, v) + rest;
    Blanks();
    BodyBegins(1, v);
    assert s[0] == Body(1, v)[0];
    if v.Str? {
      StringBodyIs(v.s);
      QuotedString([], v.s, rest);
      assert s == [] + "\"" + EscapeString(v.s) + "\"" + rest;
      NoColon(rest);
      NotMember(num, s, RereadString(v.s), rest);
    } else {
      assert [] + s == s;
      LetterIsSolid(s);
      NoString([], s);
      NotKey(num, s);
    }
  }

  lemma LetterIsSolid(s: Text)
    requires s != [] && s[0] in {'t', 'f', 'n', '[', '{'}
    ensures Solid(s)
  {
  }

  lemma NoColon(rest: Text)
    requires FollowsFirst(rest)
    ensures Match(":", rest).NoMatch?
  {
    hide Match;
    if rest[0] == ',' {
      assert [] + rest == rest;
      MatchNo(":", [], rest);
    } else {
      assert rest[..3][..2] == " \n" && rest[2] == '}';
      assert rest == " \n" + rest[2..];
      MatchNo(":", " \n", rest[2..]);
    }
  }

  lemma NotMember(num: Reader, s: Text, k: Text, rest: Text)
    requires ParseString(s) == Ok(k, rest) && Match(":", rest).NoMatch?
    ensures Members(num, s, []).No?
  {
    hide ParseString, Match, ParseValue;
  }

  lemma NotKey(num: Reader, s: Text)
    requires ParseString(s) == No(s) && s != [] && s[0] != '}'
    ensures Members(num, s, []).No?
  {
    hide ParseString, Match, ParseValue;
  }

  lemma StringBodyIs(s: Text)
    ensures Body(1, Str(s)) == "\"" + EscapeString(s) + "\""
  {
  }

  /** An object under one key, with one member under the empty key. */
  function Nested(a: Text, b: Text): Json { Obj([Member(a, Inner(b))]) }

  function Inner(b: Text): Json { Obj([Member([], Str(b))]) }

  lemma InnerText(b: Text, rest: Text)
    ensures var s := "\"" + EscapeString(b) + "\"" + (LAST + Tabs(1) + ("}" + rest));
      " " + Body(1, Inner(b)) + rest == " " + ("{" + ("\n" + Tabs(2) + s))
  {
    hide EscapeString, Tabs, Body;
    var q := "\"" + EscapeString(b) + "\"";
    BodyOfObject(1, [Member([], Str(b))]);
    InnerNamed(b);
    Together3(Tabs(2), q, LAST);
    Together3(Tabs(2), q + LAST, Tabs(1));
    Together3(q, LAST, Tabs(1));
    Opening("\n", Tabs(2), q, LAST + Tabs(1), rest);
  }

  lemma InnerNamed(b: Text)
    ensures Named(2, [Member([], Str(b))]) == Tabs(2) + ("\"" + EscapeString(b) + "\"")
  {
    hide EscapeString, Tabs;
  }

  lemma Opening(line: Text, tabs: Text, q: Text, blank: Text, rest: Text)
    ensures " " + ("{" + line + (tabs + (q + blank)) + "}") + rest
      == " " + ("{" + (line + tabs + (q + (blank + ("}" + rest)))))
  {
    var s := q + blank;
    Together3(line, tabs, s);
    Together3("{", line, tabs + s);
    Together3("{" + (line + tabs + s), "}", rest);
    Together3("{", line + tabs + s, "}" + rest);
    Together3(line + tabs, s, "}" + rest);
    Together3(q, blank, "}" + rest);
    Together3(" ", "{" + line + (tabs + s) + "}", rest);
  }

  lemma InnerFails(num: Reader, b: Text, rest: Text)
    requires ReadsNumbers(num)
    ensures ParseValue(num, " " + Body(1, Inner(b)) + rest) == No("}" + rest)
  {
    hide *;
    var left := "}" + rest;
    var t := LAST + Tabs(1) + left;
    var s := "\"" + EscapeString(b) + "\"" + t;
    var x := "{" + ("\n" + Tabs(2) + s);
    Blanks();
    TabsBlank(2, "\n");
    TabsBlank(1, LAST);
    InnerText(b, rest);
    ObjectOpens(num, "\n" + Tabs(2), s);
    assert [] + "\"" + EscapeString(b) + "\"" + t == s;
    QuotedString([], b, t);
    Solids(left, x);
    MatchNo(":", LAST + Tabs(1), left);
    GivenUp(num, s, RereadString(b), t, left);
    ToWord(num, " ", x);
    NoWord(x);
    OnlyObject(num, " " + x, x);
  }

  lemma Solids(left: Text, x: Text)
    requires left != [] && left[0] == '}' && x != [] && x[0] == '{'
    ensures Solid(left) && BeginsValue(x)
  {
  }

  lemma GivenUp(num: Reader, s: Text, k: Text, t: Text, left: Text)
    requires ParseString(s) == Ok(k, t) && Match(":", t) == NoMatch(left)
    ensures Members(num, s, []) == No(left)
  {
    hide ParseString, Match, ParseValue;
  }

  lemma OnlyObject(num: Reader, s: Text, x: Text)
    requires ParseString(s) == No(x) && ParseNumber(num, x) == No(x) && ParseWord(x) == No(x)
    requires x != [] && x[0] == '{'
    ensures ParseValue(num, s) == ParseObject(num, x)
  {
    hide ParseString, ParseNumber, ParseWord, ParseArray, ParseObject;
  }

  lemma NoValueBehindKey(num: Reader, s: Text, k: Text, r: Text, r1: Text, left: Text)
    requires ParseString(s) == Ok(k, r) && Match(":", r) == Yes(r1) && ParseValue(num, r1) == No(left)
    ensures Members(num, s, []) == Closing("}", left, Obj([]))
  {
    hide ParseString, ParseValue, Match, Closing;
  }

  /** One object deeper the parse succeeds without the data: the inner object is given up behind
      its value, and the outer one takes the inner brace for its own. */
  lemma InnerEmptyKeyIsSilent(num: Reader, a: Text, b: Text)
    requires ReadsNumbers(num) && a != []
    ensures ParseObject(num, Print(Nested(a, b))) == Ok(Obj([]), " \n} \n")
  {
    hide *;
    var ms := [Member(a, Inner(b))];
    var k, end := EscapeString(a), LAST + Tabs(0) + "}" + LAST;
    var s := Keyed(1, ms) + end;
    var after := " " + Body(1, Inner(b)) + end;
    Blanks();
    TabsBlank(1, "\n");
    NestedPrinted(a, b);
    KeyedQuote(1, ms);
    assert s[0] == Keyed(1, ms)[0];
    ObjectOpens(num, "\n" + Tabs(1), s);
    KeyedIs(1, ms, [], end);
    assert [] + Keyed(1, ms) == Keyed(1, ms);
    KeyReread(a, [], after);
    assert [] + ("\"" + k + "\"" + (":" + after)) == "\"" + k + "\"" + (":" + after);
    InnerFails(num, b, end);
    NoValueBehindKey(num, s, RereadString(a), ":" + after, after, "}" + end);
    EndOfObject([], end, Obj([]));
    LastLines();
  }

  lemma LastLines()
    ensures LAST + Tabs(0) + "}" + LAST == " \n} \n"
  {
    NoTabs();
  }

  lemma NestedPrinted(a: Text, b: Text)
    requires a != []
    ensures var ms := [Member(a, Inner(b))];
      Print(Nested(a, b)) == "{" + ("\n" + Tabs(1) + (Keyed(1, ms) + (LAST + Tabs(0) + "}" + LAST)))
  {
    var ms := [Member(a, Inner(b))];
    NestedPrintable(a, b);
    hide *;
    var end := LAST + Tabs(0);
    NestedIs(a, b);
    PrintIsBody(Nested(a, b));
    BodyOfObject(0, ms);
    NamedIsKeyed(1, ms);
    Inside("{", "\n", Named(1, ms), end, "}", LAST);
    Together3(Named(1, ms), LAST, Tabs(0));
    Together3("\n", Tabs(1), Keyed(1, ms));
    Together3("\n" + Tabs(1), Keyed(1, ms), end + "}" + LAST);
  }

  lemma NestedIs(a: Text, b: Text)
    ensures Nested(a, b) == Obj([Member(a, Inner(b))])
  {
  }

  lemma NestedPrintable(a: Text, b: Text)
    ensures Printable(Nested(a, b))
  {
    assert Printable(Str(b));
    assert Printable(Inner(b));
  }
}
