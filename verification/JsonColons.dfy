/** An empty key is never read back: the text has a colon for every key that is not empty and for
    every colon of a string, and no reading of the text, whatever it recovers from, makes more
    members than it takes colons. */
module JsonColons {
  import opened CBytes
  import opened JsonText
  import opened JsonParse
  import opened JsonStrings
  import opened JsonRoundTrip

  // ---- colons ----

  function Colons(t: Text): nat {
    if t == [] then 0 else (if t[0] == ':' then 1 else 0) + Colons(t[1..])
  }

  lemma {:induction false} ColonsJoin(a: Text, b: Text)
    ensures Colons(a + b) == Colons(a) + Colons(b)
  {
    if a == [] {
      assert a + b == b;
    } else {
      assert (a + b)[1..] == a[1..] + b;
      ColonsJoin(a[1..], b);
    }
  }

  lemma {:induction false} NoColons(t: Text)
    requires ':' !in t
    ensures Colons(t) == 0
  {
    if t == [] {
    } else {
      NoColons(t[1..]);
    }
  }

  lemma OneEscaped(c: byte)
    ensures Colons(Escape(c)) == if c == ':' then 1 else 0
    ensures Reread(c) == ':' <==> c == ':'
  {
    if c == ':' {
      assert Escape(c) == [':'] && [':'][1..] == [];
    } else {
      NoColonInEscape(c);
      NoColons(Escape(c));
    }
  }

  lemma NoColonInEscape(c: byte)
    requires c != ':'
    ensures ':' !in Escape(c)
  {
  }

  lemma {:induction false} StringColons(s: Text)
    ensures Colons(EscapeString(s)) == Colons(s) == Colons(RereadString(s))
  {
    hide Escape, Reread;
    if s == [] {
    } else {
      OneEscaped(s[0]);
      ColonsJoin(Escape(s[0]), EscapeString(s[1..]));
      StringColons(s[1..]);
      assert RereadString(s)[1..] == RereadString(s[1..]);
    }
  }

  /** What a value costs in colons: one for each member, and those of its strings. */
  function Weight(v: Json): nat
    decreases v, 0
  {
    match v
    case Str(s) => Colons(s)
    case Arr(vs) => Weights(vs)
    case Obj(ms) => MemberWeights(ms)
    case _ => 0
  }

  function Weights(vs: seq<Json>): nat
    decreases vs, 1
  {
    if vs == [] then 0 else Weight(vs[0]) + Weights(vs[1..])
  }

  function MemberWeights(ms: seq<Member>): nat
    decreases ms, 1
  {
    if ms == [] then 0 else 1 + Colons(ms[0].key) + Weight(ms[0].value) + MemberWeights(ms[1..])
  }

  /** The members with an empty key, at any depth. */
  function EmptyKeys(v: Json): nat
    decreases v, 0
  {
    match v
    case Arr(vs) => EmptyKeysOf(vs)
    case Obj(ms) => EmptyKeysAmong(ms)
    case _ => 0
  }

  function EmptyKeysOf(vs: seq<Json>): nat
    decreases vs, 1
  {
    if vs == [] then 0 else EmptyKeys(vs[0]) + EmptyKeysOf(vs[1..])
  }

  function EmptyKeysAmong(ms: seq<Member>): nat
    decreases ms, 1
  {
    if ms == [] then 0 else (if ms[0].key == [] then 1 else 0) + EmptyKeys(ms[0].value) + EmptyKeysAmong(ms[1..])
  }

  lemma {:induction false} WeightsAppend(vs: seq<Json>, v: Json)
    ensures Weights(vs + [v]) == Weights(vs) + Weight(v)
  {
    hide Weight;
    if vs == [] {
      assert [] + [v] == [v] && [v][1..] == [];
    } else {
      assert (vs + [v])[1..] == vs[1..] + [v];
      WeightsAppend(vs[1..], v);
    }
  }

  lemma {:induction false} WeightsInsert(ms: seq<Member>, m: Member)
    ensures MemberWeights(Insert(ms, m)) <= MemberWeights(ms) + 1 + Colons(m.key) + Weight(m.value)
  {
    hide Weight, Colons, Less;
    if ms == [] {
      assert [m][1..] == [];
    } else if ms[0].key == m.key {
      assert ([m] + ms[1..])[1..] == ms[1..];
    } else if Less(m.key, ms[0].key) {
      assert ([m] + ms)[1..] == ms;
    } else {
      assert Insert(ms, m)[1..] == Insert(ms[1..], m);
      WeightsInsert(ms[1..], m);
    }
  }

  // ---- texts cut between tokens ----

  /** A character outside of strings. */
  predicate Outside(c: byte) {
    IsSpace(c) || c in {'[', ']', '{', '}', ',', ':', 't', 'r', 'u', 'e', 'f', 'a', 'l', 's', 'n'}
  }

  function InQuotes(k: Text): Text { "\"" + EscapeString(k) + "\"" }

  /** Characters outside of strings, and whole escaped strings. */
  ghost predicate Aligned(t: Text)
    decreases |t|
  {
    || t == []
    || (Outside(t[0]) && Aligned(t[1..]))
    || exists k, u :: |u| < |t| && t == InQuotes(k) + u && Aligned(u)
  }

  lemma AlignedFirst(t: Text)
    requires Aligned(t) && t != []
    ensures t[0] == '"' || Outside(t[0])
    ensures t[0] != '"' ==> Aligned(t[1..])
  {
  }

  lemma AlignedString(t: Text) returns (k: Text, u: Text)
    requires Aligned(t) && t != [] && t[0] == '"'
    ensures t == InQuotes(k) + u && Aligned(u)
  {
    k, u :| |u| < |t| && t == InQuotes(k) + u && Aligned(u);
  }

  lemma QuotedAligned(k: Text, u: Text)
    requires Aligned(u)
    ensures Aligned(InQuotes(k) + u)
  {
    hide EscapeString;
    assert |u| < |InQuotes(k) + u|;
  }

  lemma {:induction false} AlignedJoin(a: Text, b: Text)
    requires Aligned(a) && Aligned(b)
    ensures Aligned(a + b)
    decreases |a|
  {
    hide Outside, InQuotes;
    if a == [] {
      assert a + b == b;
    } else if a[0] == '"' {
      hide Aligned;
      var k, u := AlignedString(a);
      QuotesTake(k, u);
      AlignedJoin(u, b);
      Regrouped(InQuotes(k), u, b);
      QuotedAligned(k, u + b);
    } else {
      AlignedFirst(a);
      hide Aligned;
      AlignedJoin(a[1..], b);
      assert (a + b)[1..] == a[1..] + b;
      OutsideFirst(a + b);
    }
  }

  lemma QuotesTake(k: Text, u: Text)
    ensures |u| < |InQuotes(k) + u|
  {
    hide EscapeString;
  }

  lemma OutsideFirst(t: Text)
    requires t != [] && Outside(t[0]) && Aligned(t[1..])
    ensures Aligned(t)
  {
    hide Outside;
  }

  lemma {:induction false} OutsideAligned(t: Text)
    requires forall c :: c in t ==> Outside(c)
    ensures Aligned(t)
  {
    hide Outside;
    if t == [] {
    } else {
      OutsideAligned(t[1..]);
    }
  }

  /** A text that is put together keeps both. */
  lemma PutTogether(a: Text, b: Text)
    requires Aligned(a) && Aligned(b)
    ensures Aligned(a + b) && Colons(a + b) == Colons(a) + Colons(b)
  {
    AlignedJoin(a, b);
    ColonsJoin(a, b);
  }

  lemma StringText(k: Text)
    ensures Aligned(InQuotes(k)) && Colons(InQuotes(k)) == Colons(k)
  {
    hide EscapeString, Colons;
    QuotedAligned(k, []);
    assert InQuotes(k) + [] == InQuotes(k);
    StringColons(k);
    NoColons("\"");
    ColonsJoin("\"", EscapeString(k));
    ColonsJoin("\"" + EscapeString(k), "\"");
  }

  // ---- tokens ----

  lemma {:induction false} SkipAligned(s: Text)
    requires Aligned(s)
    ensures Aligned(SkipSpace(s)) && Colons(SkipSpace(s)) == Colons(s)
  {
    if s != [] && IsSpace(s[0]) {
      AlignedFirst(s);
      SkipAligned(s[1..]);
    }
  }

  /** What a token leaves when it is taken, and when it is not. */
  ghost predicate Taken(p: Text, s: Text, m: Matched) {
    && (m.Yes? ==> Aligned(m.rest) && Colons(s) == Colons(m.rest) + Colons(p))
    && (m.NoMatch? ==> Aligned(m.rest) && Colons(m.rest) == Colons(s))
  }

  /** A pattern of characters outside of strings. */
  predicate Pattern(p: Text) { forall c :: c in p ==> Outside(c) && !IsSpace(c) }

  lemma {:induction false} MatchFromAligned(p: Text, k: nat, s: Text)
    requires Pattern(p) && k <= |p| && Aligned(s)
    ensures var m := MatchFrom(p, k, s, true);
      && (m.Yes? ==> Aligned(m.rest) && Colons(s) == Colons(m.rest) + Colons(p[k..]))
      && (m.NoMatch? ==> Aligned(m.rest) && Colons(m.rest) == Colons(s) + Colons(p[..k]))
    decreases |p| - k
  {
    hide Aligned, Outside;
    if k < |p| && s != [] {
      AlignedFirst(s);
      NoSlash(s[0]);
      if s[0] == p[k] {
        assert p[k] in p;
        NoQuote(p[k]);
        MatchFromAligned(p, k + 1, s[1..]);
        assert p[k..][1..] == p[k + 1..];
        ColonsJoin(p[..k], [p[k]]);
        assert p[..k] + [p[k]] == p[..k + 1] && [p[k]][1..] == [];
      } else {
        OutsideAligned(p[..k]);
        PutTogether(p[..k], s);
        assert [] + s == s;
      }
    }
  }

  lemma NoSlash(c: byte)
    requires c == '"' || Outside(c)
    ensures c != '/' && c != '\'' && !IsNum(c) && c !in {'+', '-', '.'}
  {
  }

  lemma NoQuote(c: byte)
    requires Outside(c)
    ensures c != '"'
  {
  }

  lemma MatchAligned(p: Text, s: Text)
    requires Pattern(p) && Aligned(s)
    ensures Taken(p, s, Match(p, s))
  {
    hide Aligned, Pattern, MatchFrom;
    SkipAligned(s);
    MatchFromAligned(p, 0, SkipSpace(s));
    assert p[0..] == p && p[..0] == [];
  }

  lemma Patterns()
    ensures Pattern("true") && Pattern("false") && Pattern("null")
    ensures Pattern("[") && Pattern("]") && Pattern("{") && Pattern("}") && Pattern(",") && Pattern(":")
    ensures Colons("true") == 0 && Colons("false") == 0 && Colons("null") == 0
    ensures Colons("[") == 0 && Colons("]") == 0 && Colons("{") == 0 && Colons("}") == 0 && Colons(",") == 0
    ensures Colons(":") == 1
  {
    hide Colons;
    NoColons("true");
    NoColons("false");
    NoColons("null");
    NoColons("[");
    NoColons("]");
    NoColons("{");
    NoColons("}");
    NoColons(",");
    OneColon();
  }

  lemma OneColon()
    ensures Colons(":") == 1
  {
    assert ":"[1..] == [];
  }

  lemma StringAligned(s: Text)
    requires Aligned(s)
    ensures var p := ParseString(s);
      && !p.Lost? && Aligned(p.rest)
      && Colons(s) == Colons(p.rest) + if p.Ok? then Colons(p.value) else 0
  {
    hide Aligned, Outside, StringBody, SkipSpace;
    SkipAligned(s);
    var r := SkipSpace(s);
    if r != [] && r[0] == '"' {
      QuotedAlignedRead(s, r);
    } else if r != [] {
      AlignedFirst(r);
      NoSlash(r[0]);
    }
  }

  lemma QuotedAlignedRead(s: Text, r: Text)
    requires SkipSpace(s) == r && Aligned(r) && r != [] && r[0] == '"'
    ensures var p := ParseString(s);
      p.Ok? && Aligned(p.rest) && Colons(r) == Colons(p.rest) + Colons(p.value)
  {
    hide Aligned, Outside, StringBody, SkipSpace, Colons, EscapeString, MatchFrom;
    var k, u := AlignedString(r);
    StringText(k);
    ColonsJoin(InQuotes(k), u);
    StringColons(k);
    EscapedStringReread(k, u, []);
    assert [] + RereadString(k) == RereadString(k);
    assert r[1..] == EscapeString(k) + "\"" + u;
    QuoteTaken(r);
  }

  lemma QuoteTaken(r: Text)
    requires r != [] && r[0] == '"'
    ensures MatchFrom("\"", 0, r, true) == Yes(r[1..])
  {
  }

  lemma NumberAligned(num: Reader, s: Text)
    requires ReadsNumbers(num) && Aligned(s)
    ensures ParseNumber(num, s) == No(SkipSpace(s))
  {
    hide Aligned, Outside, SkipSpace, IsNum;
    SkipAligned(s);
    var r := SkipSpace(s);
    if r != [] {
      AlignedFirst(r);
      NoSlash(r[0]);
    }
    assert num(r) == (None, 0) by { NotANumber(num, r); }
    assert r[0..] == r;
  }

  lemma NotANumber(num: Reader, r: Text)
    requires ReadsNumbers(num) && (r != [] ==> !IsNum(r[0]) && r[0] !in {'+', '-', '.'})
    ensures num(r) == (None, 0)
  {
  }

  // ---- readings ----

  /** A reading of `s` that began with `extra` in hand pays for what it gives. */
  ghost predicate Paid(s: Text, p: Parsed<Json>, extra: nat) {
    && (p.Ok? ==> Aligned(p.rest) && Weight(p.value) + Colons(p.rest) <= Colons(s) + extra)
    && (p.No? ==> Aligned(p.rest) && Colons(p.rest) <= Colons(s))
  }

  lemma WordPaid(s: Text)
    requires Aligned(s)
    ensures Paid(s, ParseWord(s), 0)
  {
    hide Aligned, Match, Colons, Pattern;
    Patterns();
    MatchAligned("true", s);
    if Match("true", s).NoMatch? {
      var r1 := Match("true", s).rest;
      MatchAligned("false", r1);
      if Match("false", r1).NoMatch? {
        MatchAligned("null", Match("false", r1).rest);
      }
    }
  }

  lemma ClosingPaid(bracket: Text, s: Text, v: Json)
    requires Aligned(s) && (bracket == "]" || bracket == "}")
    ensures Paid(s, Closing(bracket, s, v), Weight(v))
  {
    hide Aligned, Match, Colons, Pattern, Weight;
    Patterns();
    MatchAligned(bracket, s);
  }

  lemma {:induction false} ValuePaid(num: Reader, s: Text)
    requires ReadsNumbers(num) && Aligned(s)
    ensures Paid(s, ParseValue(num, s), 0)
    decreases |s|, 3
  {
    hide Aligned, Colons, ParseString, ParseNumber, ParseWord, ParseArray, ParseObject, SkipSpace, Weights,
      MemberWeights, ReadsNumbers;
    StringAligned(s);
    var p := ParseString(s);
    if p.No? {
      NumberAligned(num, p.rest);
      SkipAligned(p.rest);
      var r2 := SkipSpace(p.rest);
      WordPaid(r2);
      var w := ParseWord(r2);
      if w.No? {
        if w.rest != [] && w.rest[0] == '[' {
          ArrayPaid(num, w.rest);
          if ParseArray(num, w.rest).No? {
            ObjectPaid(num, ParseArray(num, w.rest).rest);
          }
        } else {
          ObjectPaid(num, w.rest);
        }
      }
    }
  }

  lemma {:induction false} ArrayPaid(num: Reader, s: Text)
    requires ReadsNumbers(num) && Aligned(s)
    ensures Paid(s, ParseArray(num, s), 0)
    decreases |s|, 2
  {
    hide Aligned, Colons, Match, Elements, Weight, Pattern, ReadsNumbers;
    Patterns();
    MatchAligned("[", s);
    if Match("[", s).Yes? {
      NoWeights();
      ElementsPaid(num, Match("[", s).rest, []);
    }
  }

  lemma NoWeights()
    ensures Weights([]) == 0 && MemberWeights([]) == 0
  {
  }

  lemma ArrWeight(vs: seq<Json>)
    ensures Weight(Arr(vs)) == Weights(vs)
  {
  }

  lemma ObjWeight(ms: seq<Member>)
    ensures Weight(Obj(ms)) == MemberWeights(ms)
  {
  }

  lemma {:induction false} ElementsPaid(num: Reader, s: Text, vs: seq<Json>)
    requires ReadsNumbers(num) && Aligned(s)
    ensures Paid(s, Elements(num, s, vs), Weights(vs))
    decreases |s|, 4
  {
    hide Aligned, Colons, Match, ParseValue, Closing, Weight, Weights, Pattern, ReadsNumbers;
    Patterns();
    ValuePaid(num, s);
    match ParseValue(num, s)
    case Lost =>
    case No(r) =>
      ArrWeight(vs);
      ClosingPaid("]", r, Arr(vs));
    case Ok(v, r) =>
      MatchAligned(",", r);
      WeightsAppend(vs, v);
      ArrWeight(vs + [v]);
      match Match(",", r)
      case Yes(r1) => ElementsPaid(num, r1, vs + [v]);
      case NoMatch(r1) => ClosingPaid("]", r1, Arr(vs + [v]));
      case LostPlace =>
  }

  lemma {:induction false} ObjectPaid(num: Reader, s: Text)
    requires ReadsNumbers(num) && Aligned(s)
    ensures Paid(s, ParseObject(num, s), 0)
    decreases |s|, 2
  {
    hide Aligned, Colons, Match, Members, Weight, Pattern, ReadsNumbers;
    Patterns();
    NoWeights();
    ObjWeight([]);
    MatchAligned("{", s);
    if Match("{", s).Yes? {
      var r := Match("{", s).rest;
      MatchAligned("}", r);
      if Match("}", r).NoMatch? {
        MembersPaid(num, Match("}", r).rest, []);
      }
    }
  }

  lemma {:induction false} MembersPaid(num: Reader, s: Text, ms: seq<Member>)
    requires ReadsNumbers(num) && Aligned(s)
    ensures Paid(s, Members(num, s, ms), MemberWeights(ms))
    decreases |s|, 4
  {
    hide Aligned, Colons, Match, ParseString, ParseValue, Closing, Insert, Weight, MemberWeights, Pattern, ReadsNumbers;
    Patterns();
    StringAligned(s);
    ObjWeight(ms);
    match ParseString(s)
    case No(r) => ClosingPaid("}", r, Obj(ms));
    case Ok(key, r) =>
      MatchAligned(":", r);
      if Match(":", r).Yes? {
        MemberPaid(num, Match(":", r).rest, ms, key);
      }
    case Lost =>
  }

  /** The part of the loop behind a key and its colon. */
  lemma {:induction false} MemberPaid(num: Reader, r1: Text, ms: seq<Member>, key: Text)
    requires ReadsNumbers(num) && Aligned(r1)
    ensures var p := ParseValue(num, r1);
      var more := MemberWeights(ms) + 1 + Colons(key);
      && (p.No? ==> Paid(r1, Closing("}", p.rest, Obj(ms)), MemberWeights(ms)))
      && (p.Ok? ==> var m := Match(",", p.rest);
           && (m.Yes? ==> Paid(r1, Members(num, m.rest, Insert(ms, Member(key, p.value))), more))
           && (m.NoMatch? ==> Paid(r1, Closing("}", m.rest, Obj(Insert(ms, Member(key, p.value)))), more)))
    decreases |r1|, 5
  {
    hide Aligned, Colons, Match, ParseValue, Members, Closing, Insert, Weight, MemberWeights, Pattern, ReadsNumbers;
    Patterns();
    ValuePaid(num, r1);
    ObjWeight(ms);
    match ParseValue(num, r1)
    case Lost =>
    case No(r2) => ClosingPaid("}", r2, Obj(ms));
    case Ok(v, r2) =>
      MatchAligned(",", r2);
      var more := Insert(ms, Member(key, v));
      WeightsInsert(ms, Member(key, v));
      ObjWeight(more);
      match Match(",", r2)
      case Yes(r3) => MembersPaid(num, r3, more);
      case NoMatch(r3) => ClosingPaid("}", r3, Obj(more));
      case LostPlace =>
  }

  // ---- the printed text ----

  lemma OutsideText(t: Text)
    requires forall c :: c in t ==> Outside(c) && c != ':'
    ensures Aligned(t) && Colons(t) == 0
  {
    OutsideAligned(t);
    NoColons(t);
  }

  lemma TabsText(depth: nat)
    ensures Aligned(Tabs(depth)) && Colons(Tabs(depth)) == 0
  {
    OutsideText(Tabs(depth));
  }

  const FIXED: set<Text> := {END, LAST, "[\n", "{\n", "]", "}", "null", "true", "false", []}

  lemma FixedTexts()
    ensures forall t :: t in FIXED ==> Aligned(t) && Colons(t) == 0
    ensures Aligned(": ") && Colons(": ") == 1
  {
    hide Aligned, Colons;
    forall t | t in FIXED ensures Aligned(t) && Colons(t) == 0 {
      OutsideText(t);
    }
    OutsideAligned(": ");
    OneColon();
    NoColons(" ");
    ColonsJoin(":", " ");
    assert ":" + " " == ": ";
  }

  /** The text of a value lacks a colon for every empty key. */
  ghost predicate Lacks(t: Text, weight: nat, missing: nat) {
    Aligned(t) && Colons(t) + missing == weight
  }

  lemma {:induction false} BodyColons(depth: nat, v: Json)
    requires Printable(v)
    ensures Lacks(Body(depth, v), Weight(v), EmptyKeys(v))
    decreases v, 0
  {
    hide Aligned, Colons, EscapeString, Tabs, Values, Named, Weights, MemberWeights, EmptyKeysOf, EmptyKeysAmong;
    FixedTexts();
    match v
    case Str(s) => StringText(s);
    case Arr(vs) =>
      if vs == [] {
        NoneOf();
        InBrackets("[\n", [], depth, "]");
      } else {
        ValuesColons(depth + 1, vs);
        PutTogether(Values(depth + 1, vs), LAST);
        InBrackets("[\n", Values(depth + 1, vs) + LAST, depth, "]");
      }
    case Obj(ms) =>
      if ms == [] {
        NoneOf();
        InBrackets("{\n", [], depth, "}");
      } else {
        NamedColons(depth + 1, ms);
        PutTogether(Named(depth + 1, ms), LAST);
        InBrackets("{\n", Named(depth + 1, ms) + LAST, depth, "}");
      }
    case _ =>
  }

  lemma NoneOf()
    ensures Weights([]) == 0 && MemberWeights([]) == 0 && EmptyKeysOf([]) == 0 && EmptyKeysAmong([]) == 0
  {
  }

  lemma InBrackets(open: Text, inner: Text, depth: nat, close: Text)
    requires open in {"[\n", "{\n"} && close in {"]", "}"} && Aligned(inner)
    ensures Aligned(open + inner + Tabs(depth) + close)
    ensures Colons(open + inner + Tabs(depth) + close) == Colons(inner)
  {
    hide Aligned, Colons, Tabs;
    FixedTexts();
    TabsText(depth);
    PutTogether(open, inner);
    PutTogether(open + inner, Tabs(depth));
    PutTogether(open + inner + Tabs(depth), close);
  }

  lemma {:induction false} ValuesColons(depth: nat, vs: seq<Json>)
    requires vs != [] && forall i :: 0 <= i < |vs| ==> Printable(vs[i])
    ensures Lacks(Values(depth, vs), Weights(vs), EmptyKeysOf(vs))
    decreases vs, 1
  {
    hide Aligned, Colons, Tabs, Body, Weight, EmptyKeys, Printable;
    FixedTexts();
    TabsText(depth);
    BodyColons(depth, vs[0]);
    var first := Tabs(depth) + Body(depth, vs[0]);
    PutTogether(Tabs(depth), Body(depth, vs[0]));
    if |vs| == 1 {
      assert vs[1..] == [];
    } else {
      ValuesColons(depth, vs[1..]);
      PutTogether(first, END);
      PutTogether(first + END, Values(depth, vs[1..]));
    }
  }

  lemma HeadColons(depth: nat, name: Text)
    ensures Aligned(Head(depth, name)) && Colons(Head(depth, name)) == if name == [] then 0 else Colons(name) + 1
  {
    hide Aligned, Colons, Tabs, EscapeString;
    TabsText(depth);
    if name != [] {
      FixedTexts();
      StringText(name);
      PutTogether(Tabs(depth), InQuotes(name));
      PutTogether(Tabs(depth) + InQuotes(name), ": ");
      HeadTogether(Tabs(depth), EscapeString(name));
    }
  }

  lemma HeadTogether(tabs: Text, e: Text)
    ensures tabs + ("\"" + e + "\"") + ": " == tabs + "\"" + e + "\"" + ":" + " "
  {
    Together3(tabs, "\"" + e, "\"");
    Together3(tabs, "\"", e);
    Together3(tabs + "\"" + e + "\"", ":", " ");
    assert ":" + " " == ": ";
  }

  lemma {:induction false} NamedColons(depth: nat, ms: seq<Member>)
    requires ms != [] && forall i :: 0 <= i < |ms| ==> Printable(ms[i].value)
    ensures Lacks(Named(depth, ms), MemberWeights(ms), EmptyKeysAmong(ms))
    decreases ms, 1
  {
    hide Aligned, Colons, Tabs, Head, Body, Weight, EmptyKeys, Printable;
    FixedTexts();
    var key := ms[0].key;
    HeadColons(depth, key);
    BodyColons(depth, ms[0].value);
    var first := Head(depth, key) + Body(depth, ms[0].value);
    PutTogether(Head(depth, key), Body(depth, ms[0].value));
    if |ms| == 1 {
      assert ms[1..] == [];
    } else {
      NamedColons(depth, ms[1..]);
      PutTogether(first, END);
      PutTogether(first + END, Named(depth, ms[1..]));
    }
  }

  // ---- empty keys are lost ----

  /** Whatever is read of a text that lacks colons is not the value that was printed. */
  lemma EmptyKeysAreLost(num: Reader, v: Json, rest: Text)
    requires ReadsNumbers(num) && Printable(v) && (v.Arr? || v.Obj?) && EmptyKeys(v) > 0
    ensures (if v.Arr? then ParseArray(num, Print(v)) else ParseObject(num, Print(v))) != Ok(v, rest)
  {
    hide Aligned, Colons, Body, Weight, EmptyKeys, Printable, ParseArray, ParseObject, Print, ReadsNumbers;
    PrintIsBody(v);
    BodyColons(0, v);
    FixedTexts();
    PutTogether(Body(0, v), LAST);
    if v.Arr? {
      ArrayPaid(num, Print(v));
    } else {
      ObjectPaid(num, Print(v));
    }
  }
}
