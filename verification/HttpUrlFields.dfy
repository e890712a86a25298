/** Splitting a URL finds the parts of the grammar: which inputs are refused, and where each part is
    when one is not. */
module HttpUrlFields {
  import opened CBytes
  import opened HttpTypes
  import opened HttpTables
  import opened HttpStartLine
  import opened HttpUrlGrammar
  import opened HttpUrl
  import opened HttpHostGrammar

  // ---- where the parts are ----

  /** The number of '#' in front. */
  function Leading(s: seq<byte>): (n: nat)
    ensures n <= |s| && (n == |s| <==> Hashes(s))
  {
    if s == [] || s[0] != '#' then 0
    else
      var n := Leading(s[1..]);
      assert s == ['#'] + s[1..];
      1 + n
  }

  /** A part in the text of `t`: nothing, or a slice that is not empty. Further '#' in front of a
      fragment do not belong to it. */
  function PartOf(t: Target, f: UrlField): Span {
    var server := |SchemaText(t)|;
    var path := server + |t.server|;
    var query := path + |t.path|;
    var fragment := query + |QueryText(t)|;
    match f
    case Schema => if t.schema.Some? then Span(0, |t.schema.value|) else Span(0, 0)
    case Host => if t.server != [] then Span(server, |t.server|) else Span(0, 0)
    case Path => if t.path != [] then Span(path, |t.path|) else Span(0, 0)
    case Query => if t.query.Some? && t.query.value != [] then Span(query + 1, |t.query.value|) else Span(0, 0)
    case Fragment =>
      if t.fragment.Some? && !Hashes(t.fragment.value) then
        var n := Leading(t.fragment.value);
        Span(fragment + 1 + n, |t.fragment.value| - n)
      else Span(0, 0)
    case _ => Span(0, 0)
  }

  /** The main loop has written the parts of `t`. */
  ghost predicate Shows(u: UrlParts, t: Target) {
    u.port == 0 && forall f :: (f in u.fieldSet <==> PartOf(t, f).len > 0) && u.At(f) == PartOf(t, f)
  }

  function LastPart(t: Target): Option<UrlField> {
    if PartOf(t, Fragment).len > 0 then Some(Fragment)
    else if PartOf(t, Query).len > 0 then Some(Query)
    else if PartOf(t, Path).len > 0 then Some(Path)
    else if PartOf(t, Host).len > 0 then Some(Host)
    else if PartOf(t, Schema).len > 0 then Some(Schema)
    else None
  }

  ghost predicate Loop(f: Fold, t: Target) {
    f.s == StateBehind(t) && Shows(f.u, t) && f.last == LastPart(t) && (f.foundAt <==> '@' in t.server)
  }

  // ---- one byte more ----

  lemma HashesFront(s: seq<byte>)
    requires s != []
    ensures Hashes(s) <==> s[0] == '#' && Hashes(s[1..])
  {
    assert forall i :: 0 <= i < |s| ==> s[i] == if i == 0 then s[0] else s[1..][i - 1];
  }

  lemma {:induction false} LeadingMore(s: seq<byte>, ch: byte)
    ensures !Hashes(s) ==> Leading(s + [ch]) == Leading(s) && !Hashes(s + [ch])
    ensures Hashes(s) && ch != '#' ==> Leading(s + [ch]) == |s| && !Hashes(s + [ch])
    ensures Hashes(s) && ch == '#' ==> Hashes(s + [ch])
    decreases |s|
  {
    hide Hashes;
    HashesFront(s + [ch]);
    if s == [] {
      assert [] + [ch] == [ch] && [ch][1..] == [];
      assert Hashes([]) by { NoBytes(); }
    } else {
      HashesFront(s);
      assert (s + [ch])[0] == s[0] && (s + [ch])[1..] == s[1..] + [ch];
      if s[0] == '#' {
        LeadingMore(s[1..], ch);
      }
    }
  }

  /** The part `g` grows by one byte, and no other part changes; or none does. */
  ghost predicate Grows(t: Target, v: Target, g: Option<UrlField>) {
    && (forall f :: Some(f) != g ==> PartOf(v, f) == PartOf(t, f))
    && (g.Some? ==>
         var was, now := PartOf(t, g.value), PartOf(v, g.value);
         now == if was.len > 0 then Span(was.off, was.len + 1) else Span(|Text(t)|, 1))
  }

  lemma TextLength(t: Target)
    ensures |Text(t)| == |SchemaText(t)| + |t.server| + |t.path| + |QueryText(t)| + |FragmentText(t)|
  {
  }

  lemma SameFront(t: Target, ch: byte)
    ensures SchemaText(More(t, ch)) == SchemaText(t)
    ensures t.fragment.Some? || ch == '#' ==> QueryText(More(t, ch)) == QueryText(t)
  {
  }

  lemma FragmentGrows(t: Target, ch: byte)
    requires t.fragment.Some?
    ensures Grows(t, More(t, ch), FieldOf(StateBehind(More(t, ch))))
  {
    hide Hashes, Text, SchemaText, QueryText;
    TextLength(t);
    SameFront(t, ch);
    LeadingMore(t.fragment.value, ch);
  }

  lemma FragmentBegins(t: Target, ch: byte)
    requires t.fragment.None? && ch == '#'
    ensures Grows(t, More(t, ch), FieldOf(StateBehind(More(t, ch))))
  {
    hide Text, SchemaText, QueryText;
    SameFront(t, ch);
    assert Hashes([]) by { NoBytes(); }
  }

  lemma QueryGrows(t: Target, ch: byte)
    requires t.fragment.None? && ch != '#' && (t.query.Some? || ch == '?')
    ensures Grows(t, More(t, ch), FieldOf(StateBehind(More(t, ch))))
  {
    hide Hashes, Text, SchemaText;
    TextLength(t);
    SameFront(t, ch);
  }

  lemma PlainGrows(t: Target, ch: byte)
    requires t.fragment.None? && ch != '#' && t.query.None? && ch != '?'
    ensures Grows(t, More(t, ch), FieldOf(StateBehind(More(t, ch))))
  {
    hide Hashes, Text, SchemaText;
    TextLength(t);
    SameFront(t, ch);
  }

  lemma MoreGrows(t: Target, ch: byte)
    ensures Grows(t, More(t, ch), FieldOf(StateBehind(More(t, ch))))
  {
    hide Grows, More, FieldOf, StateBehind;
    if t.fragment.Some? {
      FragmentGrows(t, ch);
    } else if ch == '#' {
      FragmentBegins(t, ch);
    } else if t.query.Some? || ch == '?' {
      QueryGrows(t, ch);
    } else {
      PlainGrows(t, ch);
    }
  }

  /** The part that a byte belongs to is the last one that there is. */
  lemma LastGrows(t: Target, ch: byte)
    ensures var v, g := More(t, ch), FieldOf(StateBehind(More(t, ch)));
      && LastPart(v) == (if g.Some? then g else LastPart(t))
      && (g.Some? ==> (LastPart(t) == g <==> PartOf(t, g.value).len > 0))
  {
    hide Hashes, Text, SchemaText, QueryText;
    NoBytesHash();
    if t.fragment.Some? {
      LeadingMore(t.fragment.value, ch);
    }
  }

  lemma NoBytesHash()
    ensures Hashes([])
  {
  }

  lemma AtSeen(t: Target, ch: byte)
    ensures '@' in More(t, ch).server <==> '@' in t.server || StateBehind(More(t, ch)) == REQ_SERVER_WITH_AT
  {
    hide Hashes;
    var v := More(t, ch);
    if v.server != t.server {
      assert v.server == t.server + [ch];
    }
    if StateBehind(v) == REQ_SERVER_WITH_AT {
      assert v.server[|v.server| - 1] == '@';
    }
  }

  /** The loop writes a byte where the grammar puts it. */
  lemma WrittenShows(u: UrlParts, t: Target, v: Target, g: Option<UrlField>, s: State, last: Option<UrlField>)
    requires Shows(u, t) && Grows(t, v, g) && FieldOf(s) == g
    requires g.Some? ==> (last == g <==> PartOf(t, g.value).len > 0)
    ensures Shows(Written(u, s, last, |Text(t)|), v)
  {
    hide PartOf, Text, FieldOf, UrlParts.At, UrlParts.Grown, UrlParts.Set;
    if g.Some? {
      GrownAt(u, g.value);
      SetAt(u, g.value, Span(|Text(t)|, 1));
    }
  }

  lemma LoopStep(m: Method, f: Fold, t: Target, ch: byte)
    requires Shaped(m, t) && Shaped(m, More(t, ch)) && Loop(f, t)
    ensures Loop(NextFold(f, ch, |Text(t)|), More(t, ch))
  {
    hide ParseUrlChar, Shaped, More, StateBehind, Shows, Grows, PartOf, Text, FieldOf, Written, LastPart;
    OneMore(m, t, ch);
    MoreGrows(t, ch);
    LastGrows(t, ch);
    AtSeen(t, ch);
    var v := More(t, ch);
    WrittenShows(f.u, t, v, FieldOf(StateBehind(v)), StateBehind(v), f.last);
  }

  // ---- the loop over the whole text ----

  lemma {:induction false} FoldLast(front: seq<byte>, ch: byte, f: Fold, i: nat)
    requires i <= |front|
    ensures var g := FoldFrom(front, f, i);
      FoldFrom(front + [ch], f, i) == if g.s == DEAD then g else NextFold(g, ch, |front|)
    decreases |front| - i
  {
    hide NextFold;
    var all := front + [ch];
    if f.s != DEAD && i < |front| {
      FoldLast(front, ch, NextFold(f, front[i], i), i + 1);
      assert all[i] == front[i];
    } else if f.s != DEAD {
      assert all[i] == ch;
    }
  }

  function Connecting(m: Method): bool { m == CONNECT }

  function FoldOf(m: Method, url: seq<byte>): Fold { FoldFrom(url, InitialFold(Connecting(m)), 0) }

  lemma {:induction false} LettersShown(x: seq<byte>)
    requires Letters(x) && x != []
    ensures var f := FoldFrom(x, InitialFold(false), 0);
      f.s == REQ_SCHEMA && Shows(f.u, Target(Some(x), [], [], None, None)) && f.last == Some(Schema) && !f.foundAt
    decreases |x|
  {
    hide ParseUrlChar, Letter, NextFold;
    var front, ch := x[..|x| - 1], x[|x| - 1];
    assert x == front + [ch];
    FoldLast(front, ch, InitialFold(false), 0);
    if front == [] {
      SchemaStep(REQ_SPACES_BEFORE_URL, ch);
      FirstLetter(ch);
    } else {
      LettersShown(front);
      SchemaStep(REQ_SCHEMA, ch);
      NextLetter(FoldFrom(front, InitialFold(false), 0), front, ch);
    }
  }

  lemma FirstLetter(ch: byte)
    requires ParseUrlChar(REQ_SPACES_BEFORE_URL, ch) == REQ_SCHEMA
    ensures var f := NextFold(FoldFrom([], InitialFold(false), 0), ch, 0);
      f.s == REQ_SCHEMA && Shows(f.u, Target(Some([ch]), [], [], None, None)) && f.last == Some(Schema) && !f.foundAt
  {
    hide ParseUrlChar;
  }

  lemma NextLetter(f: Fold, front: seq<byte>, ch: byte)
    requires f.s == REQ_SCHEMA && Shows(f.u, Target(Some(front), [], [], None, None)) && f.last == Some(Schema)
    requires !f.foundAt && ParseUrlChar(REQ_SCHEMA, ch) == REQ_SCHEMA && front != []
    ensures var g := NextFold(f, ch, |front|);
      g.s == REQ_SCHEMA && Shows(g.u, Target(Some(front + [ch]), [], [], None, None)) && g.last == Some(Schema)
      && !g.foundAt
  {
    hide ParseUrlChar, UrlParts.At, UrlParts.Grown;
    GrownAt(f.u, Schema);
  }

  /** A byte of the mark behind the schema belongs to no part. */
  lemma MarkByte(f: Fold, x: seq<byte>, mark: seq<byte>, ch: byte)
    requires f == FoldFrom(x + mark, InitialFold(false), 0) && f.s != DEAD
    requires FieldOf(ParseUrlChar(f.s, ch)).None?
    ensures FoldFrom(x + (mark + [ch]), InitialFold(false), 0) == f.(s := ParseUrlChar(f.s, ch))
  {
    hide ParseUrlChar;
    Regrouped(x, mark, [ch]);
    FoldLast(x + mark, ch, InitialFold(false), 0);
  }

  const MARK: seq<byte> := "://"

  function MarkState(n: nat): State {
    if n == 0 then REQ_SCHEMA
    else if n == 1 then REQ_SCHEMA_SLASH
    else if n == 2 then REQ_SCHEMA_SLASH_SLASH
    else REQ_SERVER_START
  }

  /** Behind the letters of a schema and the first bytes of its mark. */
  lemma {:induction false} MarkShown(x: seq<byte>, n: nat)
    requires Letters(x) && x != [] && n <= 3
    ensures FoldFrom(x + MARK[..n], InitialFold(false), 0) ==
            FoldFrom(x, InitialFold(false), 0).(s := MarkState(n))
  {
    hide ParseUrlChar, FoldFrom, Letters, Shows;
    LettersShown(x);
    if n == 0 {
      assert x + MARK[..0] == x;
    } else {
      MarkShown(x, n - 1);
      SchemaStep(MarkState(n - 1), MARK[n - 1]);
      MarkByte(FoldFrom(x, InitialFold(false), 0).(s := MarkState(n - 1)), x, MARK[..n - 1], MARK[n - 1]);
      assert MARK[..n] == MARK[..n - 1] + [MARK[n - 1]];
    }
  }

  lemma EmptyShown(m: Method, t: Target)
    requires Shaped(m, t) && Empty(t)
    ensures Loop(FoldOf(m, Text(t)), t)
  {
    hide ParseUrlChar, FoldFrom, Letters, Shows;
    NothingBehind(t);
    if m == CONNECT {
      NothingShown();
    } else {
      var x := t.schema.value;
      LettersShown(x);
      MarkShown(x, 3);
      assert MARK[..3] == MARK;
      assert t == Target(Some(x), [], [], None, None);
    }
  }

  lemma NothingBehind(t: Target)
    requires Empty(t)
    ensures Text(t) == SchemaText(t) && StateBehind(t) == REQ_SERVER_START
    ensures LastPart(t) == if t.schema.Some? && t.schema.value != [] then Some(Schema) else None
  {
  }

  lemma NothingShown()
    ensures FoldFrom([], InitialFold(true), 0) == InitialFold(true)
    ensures Shows(ZEROED, Target(None, [], [], None, None))
  {
  }

  lemma FirstShown(m: Method, t: Target)
    requires Shaped(m, t) && FirstByte(t) && m != CONNECT
    ensures Loop(FoldOf(m, Text(t)), t)
  {
    hide ParseUrlChar;
    FirstByteFold(m, t);
    SchemaStep(REQ_SPACES_BEFORE_URL, t.path[0]);
    FoldLast([], t.path[0], InitialFold(false), 0);
    assert [] + [t.path[0]] == t.path;
  }

  /** After the text of every shape the main loop has its parts. */
  lemma {:induction false} ShapeShown(m: Method, t: Target)
    requires Shaped(m, t)
    ensures Loop(FoldOf(m, Text(t)), t)
    decreases |Text(t)|
  {
    hide ParseUrlChar, BytesOk, Text, More, Less, Last, Hierarchy, FoldFrom, Loop, NextFold;
    if Empty(t) {
      EmptyShown(m, t);
    } else if m != CONNECT && FirstByte(t) {
      FirstShown(m, t);
    } else {
      var u, ch := Less(t), Last(t);
      LessThenMore(m, t);
      MoreText(u, ch);
      ShapeShown(m, u);
      FoldLast(Text(u), ch, InitialFold(Connecting(m)), 0);
      LoopStep(m, FoldOf(m, Text(u)), u, ch);
      LoopAlive(FoldOf(m, Text(u)), u);
    }
  }

  lemma LoopAlive(f: Fold, t: Target)
    requires Loop(f, t)
    ensures f.s == StateBehind(t) != DEAD
  {
    hide Shows, LastPart;
  }

  // ---- the recogniser of the loop ----

  lemma {:induction false} SameRecogniser(m: Method, url: seq<byte>)
    ensures FoldOf(m, url).s == UrlFold(UrlStart(m), url)
    decreases |url|
  {
    hide ParseUrlChar;
    if url == [] {
    } else {
      var front, ch := url[..|url| - 1], url[|url| - 1];
      assert url == front + [ch];
      SameRecogniser(m, front);
      FoldLast(front, ch, InitialFold(Connecting(m)), 0);
      NeverBack(DEAD, ch);
    }
  }

  /** A text on which the recogniser goes on without accepting it begins with a schema, of which
      nothing but the mark, or a part of it, follows. */
  lemma NotAccepted(m: Method, url: seq<byte>) returns (x: seq<byte>, n: nat)
    requires url != [] && UrlFold(UrlStart(m), url) != DEAD && !UrlAccepted(m, url)
    ensures m != CONNECT && n <= 3 && Letters(x) && x != [] && url == x + MARK[..n]
  {
    hide ParseUrlChar, Letters;
    var front, ch := url[..|url| - 1], url[|url| - 1];
    NeverBack(UrlFold(UrlStart(m), front), ch);
    ServerFirst(url);
    SchemaRead(url);
    var s := UrlFold(UrlStart(m), url);
    n := if s == REQ_SCHEMA then 0 else if s == REQ_SCHEMA_SLASH then 1
         else if s == REQ_SCHEMA_SLASH_SLASH then 2 else 3;
    assert MARK[..0] == "" && MARK[..1] == ":" && MARK[..2] == ":/" && MARK[..3] == "://";
    x := url[..|url| - n];
    assert url == x + url[|url| - n..];
  }

  /** Then there is no host. */
  lemma OnlySchema(m: Method, url: seq<byte>)
    requires url != [] && UrlFold(UrlStart(m), url) != DEAD && !UrlAccepted(m, url)
    ensures var f := FoldOf(m, url);
      Schema in f.u.fieldSet && f.u.At(Host) == Span(0, 0) && !f.foundAt
  {
    hide ParseUrlChar, FoldFrom, UrlFold, Letters;
    var x, n := NotAccepted(m, url);
    MarkShown(x, n);
    LettersShown(x);
  }

  // ---- which inputs are URLs, and what their fields are ----

  function MethodOf(isConnect: bool): Method { if isConnect then CONNECT else GET }

  /** There is an authority to be taken apart. */
  predicate HasAuthority(t: Target) { t.schema.Some? || t.server != [] }

  /** A target, with the parts of its server when it has an authority. */
  predicate Analysed(m: Method, t: Target, h: HostParts) {
    Formed(m, t) && (HasAuthority(t) ==> HostFormed('@' in t.server, h) && AuthorityText(h) == t.server)
  }

  ghost predicate Splittable(isConnect: bool, buf: seq<byte>) {
    buf == [] || exists t, h :: Analysed(MethodOf(isConnect), t, h) && Text(t) == buf
  }

  /** Where the server is, there is its text. */
  lemma ServerSlice(t: Target)
    ensures var s := PartOf(t, Host);
      s.End() <= |Text(t)| && Text(t)[s.off..s.End()] == t.server
  {
    hide SchemaText, QueryText, FragmentText;
    TextLength(t);
    if t.server != [] {
      var a, rest := SchemaText(t), t.path + QueryText(t) + FragmentText(t);
      assert Text(t) == a + t.server + rest;
      assert (a + t.server + rest)[|a|..|a| + |t.server|] == t.server;
    }
  }

  lemma HostHasText(foundAt: bool, h: HostParts)
    requires HostFormed(foundAt, h)
    ensures AuthorityText(h) != []
  {
  }

  /** The loop on a text that the recogniser accepts, and its verdict. */
  lemma SplitsShaped(isConnect: bool, buf: seq<byte>, t: Target)
    requires Formed(MethodOf(isConnect), t) && Text(t) == buf
    ensures !Malformed(buf, isConnect) <==> (HasAuthority(t) ==> IsAuthority('@' in t.server, t.server))
  {
    hide ParseUrlChar, BytesOk, Text, FoldFrom, AuthorityText, HostFormed, ValidAuthority, PartOf;
    var f := FoldOf(MethodOf(isConnect), buf);
    ShapeShown(MethodOf(isConnect), t);
    LoopAlive(f, t);
    ServerSlice(t);
    AuthorityFields(f.u, t);
    ValidIffAuthority(buf, f.u.At(Host), f.foundAt);
  }

  lemma AuthorityFields(u: UrlParts, t: Target)
    requires Shows(u, t) && BytesOk(t)
    ensures HasAuthority(t) <==> Schema in u.fieldSet || Host in u.fieldSet
    ensures u.At(Host) == PartOf(t, Host)
  {
    hide Letters;
  }

  /** A split fails in its main part exactly on what is neither empty nor a URL of the grammar whose
      authority, if it has one, is one of the grammar. */
  lemma MalformedIff(buf: seq<byte>, isConnect: bool)
    ensures Malformed(buf, isConnect) <==> !Splittable(isConnect, buf)
  {
    hide ParseUrlChar, Text, UrlFold, FoldFrom, AuthorityText, HostFormed, ValidAuthority, Formed, Malformed,
         HasAuthority;
    var m := MethodOf(isConnect);
    if buf == [] {
      EmptyIsFine(isConnect);
    } else {
      AcceptedIffUrl(m, buf);
      if UrlAccepted(m, buf) {
        var t := Parts(m, buf);
        SplitsShaped(isConnect, buf, t);
        forall v, h | Analysed(m, v, h) && Text(v) == buf ensures v == t {
          OneTarget(m, t, v);
        }
        if HasAuthority(t) && IsAuthority('@' in t.server, t.server) {
          var h :| HostFormed('@' in t.server, h) && AuthorityText(h) == t.server;
          assert Analysed(m, t, h);
        } else if !HasAuthority(t) {
          assert Analysed(m, t, HostParts(None, false, [], None));
        }
      } else {
        NotUrl(buf, isConnect);
      }
    }
  }

  lemma OneTarget(m: Method, t: Target, v: Target)
    requires Formed(m, t) && Formed(m, v) && Text(t) == Text(v)
    ensures t == v
  {
    hide BytesOk, Text;
    OneReading(m, t, v);
  }

  lemma EmptyIsFine(isConnect: bool)
    ensures !Malformed([], isConnect) && FieldsOf([], isConnect) == ZEROED
  {
    hide ParseUrlChar, NextFold, ValidAuthority, FoldFrom, UrlParts.At;
    FoldDone([], InitialFold(isConnect));
  }

  lemma FoldDone(buf: seq<byte>, f: Fold)
    ensures FoldFrom(buf, f, |buf|) == f
  {
  }

  lemma NotUrl(buf: seq<byte>, isConnect: bool)
    requires buf != [] && !UrlAccepted(MethodOf(isConnect), buf)
    ensures Malformed(buf, isConnect)
    ensures forall t, h :: Analysed(MethodOf(isConnect), t, h) ==> Text(t) != buf
  {
    hide ParseUrlChar, Text, UrlFold, FoldFrom, AuthorityText, HostFormed, ValidAuthority, Formed, HasAuthority;
    var m := MethodOf(isConnect);
    AcceptedIffUrl(m, buf);
    SameRecogniser(m, buf);
    if UrlFold(UrlStart(m), buf) != DEAD {
      OnlySchema(m, buf);
      ValidIffAuthority(buf, Span(0, 0), false);
      if IsAuthority(false, buf[0..0]) {
        var h :| HostFormed(false, h) && AuthorityText(h) == buf[0..0];
        HostHasText(false, h);
      }
    }
  }

  // ---- the fields ----

  function Value(o: Option<seq<byte>>): seq<byte> { if o.Some? then o.value else [] }

  /** The text of a field; nothing when it is not set. */
  function Piece(buf: seq<byte>, u: UrlParts, f: UrlField): seq<byte> {
    if f in u.fieldSet && u.At(f).End() <= |buf| then buf[u.At(f).off..u.At(f).End()] else []
  }

  lemma Middle(a: seq<byte>, b: seq<byte>, c: seq<byte>)
    ensures (a + b + c)[|a|..|a| + |b|] == b
  {
  }

  lemma SchemaSlice(t: Target)
    ensures var s := PartOf(t, Schema); s.End() <= |Text(t)| && Text(t)[s.off..s.End()] == Value(t.schema)
  {
    hide QueryText, FragmentText;
    TextLength(t);
    if t.schema.Some? {
      var x := t.schema.value;
      assert Text(t)[..|x|] == x;
    }
  }

  lemma PathSlice(t: Target)
    ensures var s := PartOf(t, Path); s.End() <= |Text(t)| && Text(t)[s.off..s.End()] == t.path
  {
    hide SchemaText, QueryText, FragmentText;
    TextLength(t);
    var a := SchemaText(t) + t.server;
    Regrouped(a + t.path, QueryText(t), FragmentText(t));
    Middle(a, t.path, QueryText(t) + FragmentText(t));
  }

  lemma QuerySlice(t: Target)
    ensures var s := PartOf(t, Query); s.End() <= |Text(t)| && Text(t)[s.off..s.End()] == Value(t.query)
  {
    hide SchemaText, FragmentText, PartOf;
    TextLength(t);
    QueryPart(t);
    if t.query.Some? {
      var a := SchemaText(t) + t.server + t.path;
      Regrouped(a, "?", t.query.value);
      Middle(a + "?", t.query.value, FragmentText(t));
    }
  }

  lemma QueryPart(t: Target)
    ensures PartOf(t, Query) ==
      if Value(t.query) != [] then Span(|SchemaText(t)| + |t.server| + |t.path| + 1, |t.query.value|) else Span(0, 0)
  {
    hide Hashes;
  }

  lemma FragmentSlice(t: Target)
    ensures var s, x := PartOf(t, Fragment), Value(t.fragment);
      s.End() <= |Text(t)| && Text(t)[s.off..s.End()] == x[Leading(x)..]
  {
    hide SchemaText, QueryText, Hashes, PartOf, Leading, Text;
    var x := Value(t.fragment);
    TextLength(t);
    FragmentPart(t);
    if t.fragment.Some? {
      var a := SchemaText(t) + t.server + t.path + QueryText(t);
      TextEnds(t, a);
      FragmentTail(a, x, Leading(x));
    }
    if Leading(x) == |x| {
      assert x[|x|..] == [] && Text(t)[0..0] == [];
    }
  }

  lemma TextEnds(t: Target, a: seq<byte>)
    requires t.fragment.Some? && a == SchemaText(t) + t.server + t.path + QueryText(t)
    ensures Text(t) == a + ("#" + t.fragment.value)
  {
    hide SchemaText, QueryText;
  }

  lemma FragmentPart(t: Target)
    ensures var x := Value(t.fragment);
      PartOf(t, Fragment) ==
        if Leading(x) < |x| then
          Span(|SchemaText(t)| + |t.server| + |t.path| + |QueryText(t)| + 1 + Leading(x), |x| - Leading(x))
        else Span(0, 0)
  {
    hide SchemaText, QueryText, Hashes;
    NoBytesHash();
  }

  lemma FragmentTail(a: seq<byte>, x: seq<byte>, n: nat)
    requires n <= |x|
    ensures var s := a + ("#" + x); |s| == |a| + 1 + |x| && s[|a| + 1 + n..|s|] == x[n..]
  {
  }

  /** The slices of the parts outside of the authority. */
  lemma PlainSlices(t: Target)
    ensures var s := PartOf(t, Schema); s.End() <= |Text(t)| && Text(t)[s.off..s.End()] == Value(t.schema)
    ensures var s := PartOf(t, Path); s.End() <= |Text(t)| && Text(t)[s.off..s.End()] == t.path
    ensures var s := PartOf(t, Query); s.End() <= |Text(t)| && Text(t)[s.off..s.End()] == Value(t.query)
    ensures var s, x := PartOf(t, Fragment), Value(t.fragment);
      s.End() <= |Text(t)| && Text(t)[s.off..s.End()] == x[Leading(x)..]
  {
    hide Text, PartOf;
    SchemaSlice(t);
    PathSlice(t);
    QuerySlice(t);
    FragmentSlice(t);
  }

  /** What the main loop wrote, as text. */
  lemma PlainPieces(buf: seq<byte>, u: UrlParts, t: Target)
    requires Shows(u, t) && Text(t) == buf
    ensures Piece(buf, u, Schema) == Value(t.schema) && Piece(buf, u, Path) == t.path
    ensures Piece(buf, u, Query) == Value(t.query)
    ensures Piece(buf, u, Fragment) == Value(t.fragment)[Leading(Value(t.fragment))..]
    ensures Piece(buf, u, UserInfo) == [] && Piece(buf, u, Port) == []
    ensures t.server == [] ==> Piece(buf, u, Host) == []
  {
    hide Text, UrlParts.At, Leading, PartOf;
    PlainSlices(t);
    SpanlessIsEmpty(t);
  }

  lemma SpanlessIsEmpty(t: Target)
    ensures PartOf(t, UserInfo).len == 0 && PartOf(t, Port).len == 0
    ensures t.server == [] ==> PartOf(t, Host).len == 0
  {
  }

  /** The slices of the parts of an authority. */
  lemma HostSlices(h: HostParts, off: nat, buf: seq<byte>)
    requires off + |AuthorityText(h)| <= |buf| && buf[off..off + |AuthorityText(h)|] == AuthorityText(h)
    requires h.host != []
    ensures var a := SpansOf(h, off);
      && a.host.End() <= |buf| && buf[a.host.off..a.host.End()] == h.host
      && (a.user.len > 0 ==> a.user.End() <= |buf| && buf[a.user.off..a.user.End()] == Value(h.user))
      && (a.user.len == 0 ==> Value(h.user) == [])
      && (a.port.len > 0 ==> a.port.End() <= |buf| && buf[a.port.off..a.port.End()] == Value(h.port))
      && (a.port.len == 0 ==> Value(h.port) == [])
  {
    HostMiddle(h, off, buf);
    UserMiddle(h, off, buf);
    PortMiddle(h, off, buf);
  }

  lemma SliceOfSlice(buf: seq<byte>, off: nat, end: nat, i: nat, j: nat)
    requires off <= end <= |buf| && i <= j <= end - off
    ensures buf[off..end][i..j] == buf[off + i..off + j]
  {
    var a, b := buf[off..end][i..j], buf[off + i..off + j];
    forall k | 0 <= k < j - i ensures a[k] == b[k] {
      assert a[k] == buf[off..end][i + k];
    }
  }

  lemma InFront(a: seq<byte>, x: seq<byte>, y: seq<byte>, z: seq<byte>)
    ensures (a + x + y + z)[0..|a|] == a
  {
  }

  lemma InBrackets(a: seq<byte>, h: seq<byte>, z: seq<byte>)
    ensures (a + ("[" + h + "]") + z)[|a| + 1..|a| + 1 + |h|] == h
  {
  }

  lemma BehindMark(a: seq<byte>, p: seq<byte>)
    ensures var s := a + (":" + p); |s| == |a| + 1 + |p| && s[|a| + 1..|s|] == p
  {
  }

  lemma HostIn(h: HostParts)
    ensures var t, k := AuthorityText(h), |UserText(h)| + if h.bracketed then 1 else 0;
      k + |h.host| <= |t| && t[k..k + |h.host|] == h.host
  {
    hide UserText, PortText;
    if h.bracketed {
      InBrackets(UserText(h), h.host, PortText(h));
    } else {
      Middle(UserText(h), h.host, PortText(h));
    }
  }

  lemma UserIn(h: HostParts)
    requires h.user.Some?
    ensures var t := AuthorityText(h); |h.user.value| <= |t| && t[0..|h.user.value|] == h.user.value
  {
    hide HostText, PortText;
    InFront(h.user.value, "@", HostText(h), PortText(h));
  }

  lemma PortIn(h: HostParts)
    requires h.port.Some?
    ensures var t, k := AuthorityText(h), |UserText(h)| + |HostText(h)| + 1;
      k + |h.port.value| == |t| && t[k..|t|] == h.port.value
  {
    hide HostText, UserText;
    BehindMark(UserText(h) + HostText(h), h.port.value);
  }

  lemma SliceIn(buf: seq<byte>, off: nat, text: seq<byte>, i: nat, j: nat)
    requires off + |text| <= |buf| && buf[off..off + |text|] == text && i <= j <= |text|
    ensures buf[off + i..off + j] == text[i..j]
  {
    SliceOfSlice(buf, off, off + |text|, i, j);
  }

  lemma HostMiddle(h: HostParts, off: nat, buf: seq<byte>)
    requires off + |AuthorityText(h)| <= |buf| && buf[off..off + |AuthorityText(h)|] == AuthorityText(h)
    requires h.host != []
    ensures var s := SpansOf(h, off).host; s.End() <= |buf| && buf[s.off..s.End()] == h.host
  {
    hide AuthorityText, UserText, HostText, PortText;
    var k := |UserText(h)| + if h.bracketed then 1 else 0;
    HostIn(h);
    SliceIn(buf, off, AuthorityText(h), k, k + |h.host|);
  }

  lemma UserMiddle(h: HostParts, off: nat, buf: seq<byte>)
    requires off + |AuthorityText(h)| <= |buf| && buf[off..off + |AuthorityText(h)|] == AuthorityText(h)
    ensures var s := SpansOf(h, off).user;
      && (s.len > 0 ==> s.End() <= |buf| && buf[s.off..s.End()] == Value(h.user))
      && (s.len == 0 ==> Value(h.user) == [])
  {
    hide AuthorityText, UserText, HostText, PortText;
    if h.user.Some? {
      UserIn(h);
      SliceIn(buf, off, AuthorityText(h), 0, |h.user.value|);
    }
  }

  lemma PortMiddle(h: HostParts, off: nat, buf: seq<byte>)
    requires off + |AuthorityText(h)| <= |buf| && buf[off..off + |AuthorityText(h)|] == AuthorityText(h)
    ensures var s := SpansOf(h, off).port;
      && (s.len > 0 ==> s.End() <= |buf| && buf[s.off..s.End()] == Value(h.port))
      && (s.len == 0 ==> Value(h.port) == [])
  {
    hide AuthorityText, UserText, HostText, PortText;
    if h.port.Some? {
      PortIn(h);
      SliceIn(buf, off, AuthorityText(h), |UserText(h)| + |HostText(h)| + 1, |AuthorityText(h)|);
    }
  }

  /** Writing the authority changes no other part. */
  lemma MergedPieces(buf: seq<byte>, u: UrlParts, a: Authority)
    requires UserInfo !in u.fieldSet && Port !in u.fieldSet && Host in u.fieldSet
    ensures forall f :: f != Host && f != UserInfo && f != Port ==> Piece(buf, Merged(u, a), f) == Piece(buf, u, f)
    ensures a.host.End() <= |buf| ==> Piece(buf, Merged(u, a), Host) == buf[a.host.off..a.host.End()]
    ensures a.user.len == 0 ==> Piece(buf, Merged(u, a), UserInfo) == []
    ensures a.user.len > 0 && a.user.End() <= |buf| ==>
      Piece(buf, Merged(u, a), UserInfo) == buf[a.user.off..a.user.End()]
    ensures a.port.len == 0 ==> Piece(buf, Merged(u, a), Port) == []
    ensures a.port.len > 0 && a.port.End() <= |buf| ==> Piece(buf, Merged(u, a), Port) == buf[a.port.off..a.port.End()]
  {
    hide Merged, UrlParts.At;
    MergedAt(u, a);
  }

  /** Splitting the text of a target gives its parts: schema, path, query and fragment, and of its
      authority the user, the host and the port. Further '#' in front of a fragment are dropped. */
  lemma FieldsAreParts(buf: seq<byte>, isConnect: bool, t: Target, h: HostParts)
    requires Analysed(MethodOf(isConnect), t, h) && Text(t) == buf
    ensures !Malformed(buf, isConnect)
    ensures var u := FieldsOf(buf, isConnect);
      && Piece(buf, u, Schema) == Value(t.schema) && Piece(buf, u, Path) == t.path
      && Piece(buf, u, Query) == Value(t.query)
      && Piece(buf, u, Fragment) == Value(t.fragment)[Leading(Value(t.fragment))..]
      && (if HasAuthority(t) then
            Piece(buf, u, UserInfo) == Value(h.user) && Piece(buf, u, Host) == h.host
            && Piece(buf, u, Port) == Value(h.port)
          else Piece(buf, u, UserInfo) == [] && Piece(buf, u, Host) == [] && Piece(buf, u, Port) == [])
  {
    hide ParseUrlChar, Text, FoldFrom, HostFormed, ValidAuthority, AuthorityOf, PartOf, Merged, Leading, SpansOf,
         AuthorityText, Piece;
    var m := MethodOf(isConnect);
    var f := FoldOf(m, buf);
    ShapeShown(m, t);
    PlainPieces(buf, f.u, t);
    AuthorityFields(f.u, t);
    MalformedIff(buf, isConnect);
    if HasAuthority(t) {
      HostNotEmpty('@' in t.server, h);
      HostHasText('@' in t.server, h);
      ServerSlice(t);
      ServerSpan(t);
      ValidIffAuthority(buf, f.u.At(Host), f.foundAt);
      HostSlices(h, |SchemaText(t)|, buf);
      HostShown(f.u, t);
      MergedPieces(buf, f.u, SpansOf(h, |SchemaText(t)|));
    }
  }

  lemma HostNotEmpty(foundAt: bool, h: HostParts)
    requires HostFormed(foundAt, h)
    ensures h.host != []
  {
  }

  lemma ServerSpan(t: Target)
    requires t.server != []
    ensures PartOf(t, Host) == Span(|SchemaText(t)|, |t.server|)
  {
  }

  lemma HostShown(u: UrlParts, t: Target)
    requires Shows(u, t) && t.server != []
    ensures Host in u.fieldSet && UserInfo !in u.fieldSet && Port !in u.fieldSet
  {
    ServerSpan(t);
    SpanlessIsEmpty(t);
  }

  // ---- which splits are refused nevertheless ----

  /** A field that the main loop writes is set when its part is not empty. */
  predicate PlainSet(fields: set<UrlField>, t: Target) {
    && (Schema in fields <==> PartOf(t, Schema).len > 0) && (Path in fields <==> PartOf(t, Path).len > 0)
    && (Query in fields <==> PartOf(t, Query).len > 0) && (Fragment in fields <==> PartOf(t, Fragment).len > 0)
  }

  predicate AuthoritySet(fields: set<UrlField>, t: Target, h: HostParts) {
    && (Host in fields <==> HasAuthority(t))
    && (UserInfo in fields <==> HasAuthority(t) && Value(h.user) != [])
    && (Port in fields <==> HasAuthority(t) && h.port.Some?)
  }

  lemma ShownSet(u: UrlParts, t: Target)
    requires Shows(u, t)
    ensures PlainSet(u.fieldSet, t) && UserInfo !in u.fieldSet && Port !in u.fieldSet
  {
    SpanlessIsEmpty(t);
    hide PartOf, UrlParts.At;
  }

  lemma MergedSet(u: UrlParts, t: Target, h: HostParts, off: nat)
    requires Shows(u, t) && t.server != [] && (h.port.Some? ==> h.port.value != []) && h.host != []
    ensures var v := Merged(u, SpansOf(h, off));
      && PlainSet(v.fieldSet, t) && AuthoritySet(v.fieldSet, t, h)
      && (Port in v.fieldSet ==> v.At(Port) == SpansOf(h, off).port)
  {
    ShownSet(u, t);
    HostShown(u, t);
    MergedAt(u, SpansOf(h, off));
    hide Merged, UrlParts.At, PartOf, Shows, UserText, HostText;
  }

  /** Which fields are set: those with a text. */
  lemma SetFields(buf: seq<byte>, isConnect: bool, t: Target, h: HostParts)
    requires Analysed(MethodOf(isConnect), t, h) && Text(t) == buf && !Malformed(buf, isConnect)
    ensures var u := FieldsOf(buf, isConnect);
      && PlainSet(u.fieldSet, t) && AuthoritySet(u.fieldSet, t, h)
      && (Port in u.fieldSet ==> u.At(Port) == SpansOf(h, |SchemaText(t)|).port)
  {
    hide ParseUrlChar, Text, FoldFrom, ValidAuthority, AuthorityOf, PartOf, Merged, AuthorityText, UrlParts.At,
         HostFormed, BytesOk, SpansOf, PlainSet;
    var m := MethodOf(isConnect);
    var f := FoldOf(m, buf);
    ShapeShown(m, t);
    AuthorityFields(f.u, t);
    ShownSet(f.u, t);
    if HasAuthority(t) {
      HostNotEmpty('@' in t.server, h);
      HostHasText('@' in t.server, h);
      PortNotEmpty('@' in t.server, h);
      ServerSlice(t);
      ServerSpan(t);
      ValidIffAuthority(buf, f.u.At(Host), f.foundAt);
      MergedSet(f.u, t, h, |SchemaText(t)|);
    }
  }

  lemma PortNotEmpty(foundAt: bool, h: HostParts)
    requires HostFormed(foundAt, h)
    ensures h.port.Some? ==> h.port.value != [] && PortBytes(h.port.value)
  {
  }

  /** CONNECT asks for a host and a port, and for nothing else that has a text. */
  predicate HostAndPortOnly(t: Target, h: HostParts) {
    && t.schema.None? && HasAuthority(t) && Value(h.user) == [] && h.port.Some?
    && t.path == [] && Value(t.query) == [] && Hashes(Value(t.fragment))
  }

  predicate PortTooLarge(t: Target, h: HostParts) {
    HasAuthority(t) && h.port.Some? && PortBytes(h.port.value) && DecValue(h.port.value) > 65535
  }

  /** The text of the port, and what follows it in memory. */
  lemma PortInMemory(buf: seq<byte>, beyond: seq<byte>, t: Target, h: HostParts)
    requires Text(t) == buf && AuthorityText(h) == t.server && h.port.Some? && h.port.value != []
    ensures var s := SpansOf(h, |SchemaText(t)|).port;
      s.off <= |buf| && buf[s.off..] + beyond == h.port.value + (t.path + QueryText(t) + FragmentText(t) + beyond)
  {
    hide SchemaText, QueryText, FragmentText;
    var front := UserText(h) + HostText(h) + ":";
    var a, p, rest := SchemaText(t) + front, h.port.value, t.path + QueryText(t) + FragmentText(t);
    PortLast(h);
    Behind(SchemaText(t), front, p, t.path, QueryText(t), FragmentText(t));
    Regrouped(p, rest, beyond);
    Drop(a, p + rest);
  }

  lemma PortLast(h: HostParts)
    requires h.port.Some? && h.port.value != []
    ensures AuthorityText(h) == UserText(h) + HostText(h) + ":" + h.port.value
    ensures forall off: nat :: SpansOf(h, off).port.off == off + |UserText(h) + HostText(h) + ":"|
  {
    hide UserText, HostText;
    Regrouped(UserText(h) + HostText(h), ":", h.port.value);
  }

  lemma Behind(a: seq<byte>, b: seq<byte>, p: seq<byte>, x: seq<byte>, y: seq<byte>, z: seq<byte>)
    ensures a + (b + p) + x + y + z == (a + b) + (p + (x + y + z))
  {
    Regrouped(a, b, p);
    Regrouped(a + b + p + x, y, z);
    Regrouped(a + b + p, x, y + z);
    Regrouped(x, y, z);
    Regrouped(a + b, p, x + (y + z));
  }

  lemma Drop(a: seq<byte>, b: seq<byte>)
    ensures (a + b)[|a|..] == b
  {
  }

  /** No digit follows the authority. */
  lemma NoDigitBehind(t: Target, beyond: seq<byte>)
    requires Hierarchy(t) && (beyond == [] || !IsNum(beyond[0]))
    ensures var rest := t.path + QueryText(t) + FragmentText(t) + beyond; rest == [] || !IsNum(rest[0])
  {
    var rest := t.path + QueryText(t) + FragmentText(t) + beyond;
    if t.path != [] {
      assert rest[0] == t.path[0];
    } else if t.query.Some? {
      assert rest[0] == '?';
    } else {
      assert rest == beyond;
    }
  }

  lemma PortValue(port: seq<byte>, rest: seq<byte>)
    requires PortBytes(port) && (rest == [] || !IsNum(rest[0]))
    ensures Strtoul(port + rest) > 65535 <==> DecValue(port) > 65535
  {
    hide DecValue;
    StrtoulExact(port + rest, |port|);
    assert (port + rest)[..|port|] == port;
  }

  lemma PortRefused(buf: seq<byte>, beyond: seq<byte>, m: Method, t: Target, h: HostParts)
    requires Analysed(m, t, h) && Text(t) == buf && HasAuthority(t) && h.port.Some?
    requires beyond == [] || !IsNum(beyond[0])
    ensures var s := SpansOf(h, |SchemaText(t)|).port;
      && s.off <= |buf| && PortBytes(h.port.value)
      && (Strtoul(buf[s.off..] + beyond) > 0xFFFF <==> DecValue(h.port.value) > 65535)
  {
    hide Text, HostFormed, SpansOf, AuthorityText, Strtoul, DecValue, BytesOk, PortBytes;
    PortNotEmpty('@' in t.server, h);
    PortInMemory(buf, beyond, t, h);
    AuthorityHierarchy(m, t);
    NoDigitBehind(t, beyond);
    PortValue(h.port.value, t.path + QueryText(t) + FragmentText(t) + beyond);
  }

  /** A URL of the grammar is refused exactly when CONNECT asks for anything but a host and a port,
      or the port is above 65535, unless a digit follows the input in memory. */
  lemma RefusedIff(buf: seq<byte>, beyond: seq<byte>, isConnect: bool, t: Target, h: HostParts)
    requires Analysed(MethodOf(isConnect), t, h) && Text(t) == buf && (beyond == [] || !IsNum(beyond[0]))
    ensures !Malformed(buf, isConnect)
    ensures Rejected(buf, beyond, isConnect, FieldsOf(buf, isConnect)) <==>
      (isConnect && !HostAndPortOnly(t, h)) || PortTooLarge(t, h)
  {
    FieldsAreParts(buf, isConnect, t, h);
    SetFields(buf, isConnect, t, h);
    FormedOf(MethodOf(isConnect), t, h);
    ConnectFields(t, h, FieldsOf(buf, isConnect).fieldSet, isConnect);
    hide Text, Strtoul, FieldsOf, DecValue, UrlParts.At, SpansOf, Analysed, Malformed, HostAndPortOnly, PlainSet,
         PortBytes, Piece;
    if HasAuthority(t) && h.port.Some? {
      PortRefused(buf, beyond, MethodOf(isConnect), t, h);
    }
  }

  lemma FormedOf(m: Method, t: Target, h: HostParts)
    requires Analysed(m, t, h)
    ensures Formed(m, t)
  {
  }

  lemma AuthorityHierarchy(m: Method, t: Target)
    requires Formed(m, t) && HasAuthority(t)
    ensures Hierarchy(t)
  {
  }

  lemma ConnectFields(t: Target, h: HostParts, fields: set<UrlField>, isConnect: bool)
    requires Formed(MethodOf(isConnect), t) && PlainSet(fields, t) && AuthoritySet(fields, t, h)
    ensures isConnect ==> (fields == {Host, Port} <==> HostAndPortOnly(t, h))
  {
    hide Letters, ServerBytes, PathBytes, QueryBytes, FragmentBytes;
    FragmentPart(t);
    QueryPart(t);
    if fields == {Host, Port} {
      assert Path !in fields && Query !in fields && Fragment !in fields && UserInfo !in fields;
    }
    if isConnect && HostAndPortOnly(t, h) {
      forall f ensures f in fields <==> f == Host || f == Port {
        match f
        case Schema =>
        case Host =>
        case Port =>
        case Path =>
        case Query =>
        case Fragment =>
        case UserInfo =>
      }
    }
  }
}
