/** The URLs of a request line as a grammar, which does not speak of the recogniser, and the proof
    that the recogniser accepts exactly these. */
module HttpUrlGrammar {
  import opened CBytes
  import opened HttpTypes
  import opened HttpTables
  import opened HttpSwitch
  import opened HttpRun
  import opened HttpBodies
  import opened HttpStartLine

  // ---- the grammar ----

  predicate ServerByte(c: byte) { LetterOrDigit(c) || c in "-_.!~*'()%;:&=+$,[]@" }

  /** Every visible character but the two that begin a query and a fragment. */
  predicate PathByte(c: byte) { '!' <= c <= '~' && c != '?' && c != '#' }

  predicate QueryByte(c: byte) { '!' <= c <= '~' && c != '#' }

  predicate FragmentByte(c: byte) { '!' <= c <= '~' }

  predicate Letters(s: seq<byte>) { forall i :: 0 <= i < |s| ==> Letter(s[i]) }

  /** No '@' follows another one. */
  predicate ServerBytes(s: seq<byte>) {
    forall i :: 0 <= i < |s| ==> ServerByte(s[i]) && (s[i] == '@' && i > 0 ==> s[i - 1] != '@')
  }

  predicate PathBytes(s: seq<byte>) { forall i :: 0 <= i < |s| ==> PathByte(s[i]) }

  predicate QueryBytes(s: seq<byte>) { forall i :: 0 <= i < |s| ==> QueryByte(s[i]) }

  predicate FragmentBytes(s: seq<byte>) { forall i :: 0 <= i < |s| ==> FragmentByte(s[i]) }

  datatype Target = Target(
    schema: Option<seq<byte>>, server: seq<byte>, path: seq<byte>,
    query: Option<seq<byte>>, fragment: Option<seq<byte>>)

  function SchemaText(t: Target): seq<byte> { if t.schema.Some? then t.schema.value + "://" else "" }

  function QueryText(t: Target): seq<byte> { if t.query.Some? then "?" + t.query.value else "" }

  function FragmentText(t: Target): seq<byte> { if t.fragment.Some? then "#" + t.fragment.value else "" }

  /** schema://server/path?query#fragment */
  function Text(t: Target): seq<byte> {
    SchemaText(t) + t.server + t.path + QueryText(t) + FragmentText(t)
  }

  predicate BytesOk(t: Target) {
    && (t.schema.Some? ==> t.schema.value != [] && Letters(t.schema.value))
    && ServerBytes(t.server) && PathBytes(t.path)
    && (t.query.Some? ==> QueryBytes(t.query.value))
    && (t.fragment.Some? ==> FragmentBytes(t.fragment.value))
  }

  /** A path from '/' or '*'. */
  predicate OriginForm(t: Target) {
    t.schema.None? && t.server == [] && t.path != [] && (t.path[0] == '/' || t.path[0] == '*')
  }

  /** A server, perhaps empty, with what may follow it; a fragment does not follow it at once. */
  predicate Hierarchy(t: Target) {
    (t.path != [] ==> t.path[0] == '/') && (t.fragment.Some? ==> t.path != [] || t.query.Some?)
  }

  predicate Empty(t: Target) { t.server == [] && t.path == [] && t.query.None? && t.fragment.None? }

  /** What CONNECT asks for begins with the server; other methods name a path, or give a schema
      before the server. */
  predicate Formed(m: Method, t: Target) {
    && BytesOk(t)
    && (if m == CONNECT then t.schema.None? && Hierarchy(t) && !Empty(t)
        else OriginForm(t) || (t.schema.Some? && Hierarchy(t) && !Empty(t)))
  }

  ghost predicate IsUrl(m: Method, url: seq<byte>) { exists t :: Formed(m, t) && Text(t) == url }

  // ---- one byte more ----

  /** As `Formed`, but the part behind the schema may still be to come. */
  predicate Shaped(m: Method, t: Target) {
    && BytesOk(t)
    && (if m == CONNECT then t.schema.None? && Hierarchy(t) else OriginForm(t) || (t.schema.Some? && Hierarchy(t)))
  }

  /** The parts when the text goes on with a byte. */
  function More(t: Target, ch: byte): Target {
    if t.fragment.Some? then t.(fragment := Some(t.fragment.value + [ch]))
    else if ch == '#' then t.(fragment := Some([]))
    else if t.query.Some? then t.(query := Some(t.query.value + [ch]))
    else if ch == '?' then t.(query := Some([]))
    else if t.path != [] || ch == '/' then t.(path := t.path + [ch])
    else t.(server := t.server + [ch])
  }

  predicate Hashes(s: seq<byte>) { forall i :: 0 <= i < |s| ==> s[i] == '#' }

  /** The state of the recogniser behind the parts. */
  function StateBehind(t: Target): State {
    if t.fragment.Some? then (if Hashes(t.fragment.value) then REQ_FRAGMENT_START else REQ_FRAGMENT)
    else if t.query.Some? then (if t.query.value == [] then REQ_QUERY_STRING_START else REQ_QUERY_STRING)
    else if t.path != [] then REQ_PATH
    else if t.server == [] then REQ_SERVER_START
    else if t.server[|t.server| - 1] == '@' then REQ_SERVER_WITH_AT
    else REQ_SERVER
  }

  lemma MoreText(t: Target, ch: byte)
    ensures Text(More(t, ch)) == Text(t) + [ch]
  {
    if t.fragment.Some? || ch == '#' {
      MoreInFragment(t, ch);
    } else if t.query.Some? || ch == '?' {
      MoreInQuery(t, ch);
    } else {
      assert QueryText(t) == [] && FragmentText(t) == [];
    }
  }

  lemma MoreInFragment(t: Target, ch: byte)
    requires t.fragment.Some? || ch == '#'
    ensures Text(More(t, ch)) == Text(t) + [ch]
  {
    var a := SchemaText(t) + t.server + t.path + QueryText(t);
    if t.fragment.Some? {
      Regrouped("#", t.fragment.value, [ch]);
      Regrouped(a, FragmentText(t), [ch]);
    } else {
      assert a + [] == a;
      assert "#" + [] == [ch];
    }
  }

  lemma MoreInQuery(t: Target, ch: byte)
    requires t.fragment.None? && ch != '#' && (t.query.Some? || ch == '?')
    ensures Text(More(t, ch)) == Text(t) + [ch]
  {
    var a := SchemaText(t) + t.server + t.path;
    assert forall b :: a + b + [] == a + b;
    if t.query.Some? {
      Regrouped("?", t.query.value, [ch]);
      Regrouped(a, QueryText(t), [ch]);
    } else {
      assert a + [] == a;
      assert "?" + [] == [ch];
    }
  }

  /** Which bytes the recogniser takes behind the server, in ranges of the grammar. */
  lemma ServerStep(s: State, ch: byte)
    requires s == REQ_SERVER_START || s == REQ_SERVER || s == REQ_SERVER_WITH_AT
    ensures ParseUrlChar(s, ch) ==
      if ch == '/' then REQ_PATH
      else if ch == '?' then REQ_QUERY_STRING_START
      else if !ServerByte(ch) || (ch == '@' && s == REQ_SERVER_WITH_AT) then DEAD
      else if ch == '@' then REQ_SERVER_WITH_AT
      else REQ_SERVER
  {
  }

  lemma PathStep(ch: byte)
    ensures ParseUrlChar(REQ_PATH, ch) ==
      if ch == '?' then REQ_QUERY_STRING_START
      else if ch == '#' then REQ_FRAGMENT_START
      else if PathByte(ch) then REQ_PATH
      else DEAD
  {
  }

  lemma QueryStep(s: State, ch: byte)
    requires s == REQ_QUERY_STRING_START || s == REQ_QUERY_STRING
    ensures ParseUrlChar(s, ch) ==
      if ch == '#' then REQ_FRAGMENT_START else if QueryByte(ch) then REQ_QUERY_STRING else DEAD
  {
  }

  lemma FragmentStep(s: State, ch: byte)
    requires s == REQ_FRAGMENT_START || s == REQ_FRAGMENT
    ensures ParseUrlChar(s, ch) ==
      if !FragmentByte(ch) then DEAD
      else if ch == '#' then s
      else REQ_FRAGMENT
  {
  }

  lemma MoreServer(s: seq<byte>, ch: byte)
    requires ServerBytes(s)
    ensures ServerBytes(s + [ch]) <==> ServerByte(ch) && !(ch == '@' && s != [] && s[|s| - 1] == '@')
  {
    hide ServerByte;
    var t := s + [ch];
    assert t[|s|] == ch;
    assert s != [] ==> t[|s| - 1] == s[|s| - 1];
    forall i | 0 <= i < |s| ensures ServerByte(t[i]) && (t[i] == '@' && i > 0 ==> t[i - 1] != '@') {
      assert t[i] == s[i];
    }
  }

  lemma MorePath(s: seq<byte>, ch: byte)
    requires PathBytes(s)
    ensures PathBytes(s + [ch]) <==> PathByte(ch)
  {
    assert (s + [ch])[|s|] == ch;
  }

  lemma MoreQuery(s: seq<byte>, ch: byte)
    requires QueryBytes(s)
    ensures QueryBytes(s + [ch]) <==> QueryByte(ch)
  {
    assert (s + [ch])[|s|] == ch;
  }

  lemma MoreFragment(s: seq<byte>, ch: byte)
    requires FragmentBytes(s)
    ensures FragmentBytes(s + [ch]) <==> FragmentByte(ch)
    ensures Hashes(s + [ch]) <==> Hashes(s) && ch == '#'
  {
    var t := s + [ch];
    assert t[|s|] == ch;
    assert forall i :: 0 <= i < |s| ==> t[i] == s[i];
  }

  /** The recogniser takes a byte exactly when the grammar does, and is then behind the parts. */
  lemma OneMore(m: Method, t: Target, ch: byte)
    requires Shaped(m, t)
    ensures ParseUrlChar(StateBehind(t), ch) == if Shaped(m, More(t, ch)) then StateBehind(More(t, ch)) else DEAD
  {
    hide ParseUrlChar, ServerByte, PathByte, QueryByte, FragmentByte, ServerBytes, PathBytes, QueryBytes,
         FragmentBytes, Hashes, Letters;
    NoBytes();
    if t.fragment.Some? {
      FragmentStep(StateBehind(t), ch);
      MoreFragment(t.fragment.value, ch);
    } else if t.query.Some? {
      QueryStep(StateBehind(t), ch);
      MoreQuery(t.query.value, ch);
    } else if t.path != [] {
      PathStep(ch);
      MorePath(t.path, ch);
    } else {
      ServerStep(StateBehind(t), ch);
      MoreServer(t.server, ch);
      MorePath([], '/');
    }
  }

  lemma NoBytes()
    ensures ServerBytes([]) && PathBytes([]) && QueryBytes([]) && FragmentBytes([]) && Hashes([])
    ensures PathByte('/') && !ServerByte('#')
    ensures PathBytes(['/'])
  {
  }

  // ---- the recogniser and the grammar ----

  /** The text is letters and then the mark. */
  predicate SchemaThen(url: seq<byte>, mark: seq<byte>) {
    |url| > |mark| && Letters(url[..|url| - |mark|]) && url[|url| - |mark|..] == mark
  }

  /** What the recogniser has read before the part behind a schema. */
  predicate BeforeServer(s: State, url: seq<byte>) {
    && (s == REQ_SPACES_BEFORE_URL ==> url == [])
    && (s == REQ_SCHEMA ==> SchemaThen(url, ""))
    && (s == REQ_SCHEMA_SLASH ==> SchemaThen(url, ":"))
    && (s == REQ_SCHEMA_SLASH_SLASH ==> SchemaThen(url, ":/"))
    && (s == REQ_SERVER_START ==> SchemaThen(url, "://"))
  }

  lemma SchemaStep(s: State, ch: byte)
    ensures ParseUrlChar(s, ch) == REQ_SCHEMA <==> (s == REQ_SPACES_BEFORE_URL || s == REQ_SCHEMA) && Letter(ch)
    ensures ParseUrlChar(s, ch) == REQ_SCHEMA_SLASH <==> s == REQ_SCHEMA && ch == ':'
    ensures ParseUrlChar(s, ch) == REQ_SCHEMA_SLASH_SLASH <==> s == REQ_SCHEMA_SLASH && ch == '/'
    ensures ParseUrlChar(s, ch) == REQ_SERVER_START <==> s == REQ_SCHEMA_SLASH_SLASH && ch == '/'
    ensures ParseUrlChar(s, ch) != REQ_SPACES_BEFORE_URL
    ensures s == REQ_SPACES_BEFORE_URL ==>
      (ParseUrlChar(s, ch) == if ch == '/' || ch == '*' then REQ_PATH else if Letter(ch) then REQ_SCHEMA else DEAD)
    ensures UrlEnds(ParseUrlChar(s, ch)) ==> s == REQ_SPACES_BEFORE_URL || s == REQ_SERVER_START || UrlEnds(s)
  {
  }

  lemma SchemaMore(front: seq<byte>, mark: seq<byte>, ch: byte)
    ensures SchemaThen(front, mark) ==> SchemaThen(front + [ch], mark + [ch])
    ensures (front == [] || SchemaThen(front, "")) && Letter(ch) ==> SchemaThen(front + [ch], "")
  {
    hide Letter;
    var url := front + [ch];
    if SchemaThen(front, mark) {
      assert url[..|url| - |mark + [ch]|] == front[..|front| - |mark|];
      assert url[|url| - |mark + [ch]|..] == front[|front| - |mark|..] + [ch];
    }
    if SchemaThen(front, "") {
      assert front[..|front| - 0] == front;
    }
  }

  lemma {:induction false} SchemaRead(url: seq<byte>)
    ensures BeforeServer(UrlFold(REQ_SPACES_BEFORE_URL, url), url)
    decreases |url|
  {
    hide ParseUrlChar, Letter;
    if url == [] {
    } else {
      var front, ch := url[..|url| - 1], url[|url| - 1];
      SchemaRead(front);
      assert url == front + [ch];
      SchemaStep(UrlFold(REQ_SPACES_BEFORE_URL, front), ch);
      SchemaMore(front, "", ch);
      SchemaMore(front, ":", ch);
      SchemaMore(front, ":/", ch);
      assert "" + ":" == ":" && ":" + "/" == ":/" && ":/" + "/" == "://";
    }
  }

  lemma {:induction false} ServerFirst(url: seq<byte>)
    ensures UrlFold(REQ_SERVER_START, url) == REQ_SERVER_START <==> url == []
    ensures UrlFold(REQ_SERVER_START, url) != REQ_SPACES_BEFORE_URL
    ensures UrlFold(REQ_SERVER_START, url) != REQ_SCHEMA_SLASH_SLASH
    ensures UrlFold(REQ_SERVER_START, url) != REQ_SCHEMA_SLASH && UrlFold(REQ_SERVER_START, url) != REQ_SCHEMA
    decreases |url|
  {
    hide ParseUrlChar;
    if url == [] {
    } else {
      var front, ch := url[..|url| - 1], url[|url| - 1];
      ServerFirst(front);
      SchemaStep(UrlFold(REQ_SERVER_START, front), ch);
    }
  }

  /** The parts of what precedes the server. */
  function Begun(m: Method, url: seq<byte>): Target
    requires m == CONNECT || |url| >= 3
  {
    Target(if m == CONNECT then None else Some(url[..|url| - 3]), [], [], None, None)
  }

  lemma BegunRead(m: Method, url: seq<byte>)
    requires UrlFold(UrlStart(m), url) == REQ_SERVER_START
    ensures m == CONNECT || |url| >= 3
    ensures var t := Begun(m, url); Shaped(m, t) && Empty(t) && Text(t) == url
  {
    hide ParseUrlChar, UrlFold, Letters, Text;
    if m == CONNECT {
      ServerFirst(url);
      NoText();
    } else {
      SchemaRead(url);
      SchemaText3(url);
    }
    BegunShaped(m, url);
  }

  lemma NoText()
    ensures Text(Target(None, [], [], None, None)) == []
  {
  }

  lemma BegunShaped(m: Method, url: seq<byte>)
    requires m == CONNECT || (|url| > 3 && Letters(url[..|url| - 3]))
    ensures var t := Begun(m, url); Shaped(m, t) && Empty(t)
  {
    hide Letters;
    NoBytes();
  }

  lemma SchemaText3(url: seq<byte>)
    requires SchemaThen(url, "://")
    ensures url == url[..|url| - 3] + "://"
    ensures var x := url[..|url| - 3]; x != [] && Letters(x) && Text(Target(Some(x), [], [], None, None)) == url
  {
    hide Letter;
    var x := url[..|url| - 3];
    assert x + "://" + [] + [] + [] + [] == x + "://";
  }

  lemma EmptyIsStart(t: Target)
    requires Empty(t)
    ensures StateBehind(t) == REQ_SERVER_START
  {
  }

  lemma MoreFormed(m: Method, t: Target, ch: byte)
    requires Shaped(m, t)
    ensures !Empty(More(t, ch)) && (Shaped(m, More(t, ch)) <==> Formed(m, More(t, ch)))
    ensures More(t, ch).schema == t.schema
  {
    hide BytesOk;
  }

  lemma FirstOfPath(m: Method, front: seq<byte>, ch: byte) returns (t: Target)
    requires UrlFold(UrlStart(m), front) == REQ_SPACES_BEFORE_URL && (ch == '/' || ch == '*')
    ensures Formed(m, t) && Text(t) == front + [ch] && StateBehind(t) == REQ_PATH
  {
    hide ParseUrlChar, UrlFold;
    ServerFirst(front);
    SchemaRead(front);
    t := Target(None, [], [ch], None, None);
    NoBytes();
  }

  /** What is accepted has the parts of the grammar. */
  lemma {:induction false} Parts(m: Method, url: seq<byte>) returns (t: Target)
    requires UrlAccepted(m, url)
    ensures Formed(m, t) && Text(t) == url && StateBehind(t) == UrlFold(UrlStart(m), url)
    decreases |url|
  {
    hide ParseUrlChar, BytesOk, Text, More, Hierarchy, OriginForm, StateBehind;
    var front, ch := url[..|url| - 1], url[|url| - 1];
    var s := UrlFold(UrlStart(m), front);
    assert url == front + [ch];
    SchemaStep(s, ch);
    if s == REQ_SPACES_BEFORE_URL {
      t := FirstOfPath(m, front, ch);
    } else {
      var t0;
      if s == REQ_SERVER_START {
        BegunRead(m, front);
        t0 := Begun(m, front);
        EmptyIsStart(t0);
      } else {
        t0 := Parts(m, front);
      }
      OneMore(m, t0, ch);
      MoreText(t0, ch);
      MoreFormed(m, t0, ch);
      t := More(t0, ch);
    }
  }

  /** The parts without their last byte. */
  function Less(t: Target): Target
    requires !Empty(t)
  {
    if t.fragment.Some? then
      var f := t.fragment.value;
      t.(fragment := if f == [] then None else Some(f[..|f| - 1]))
    else if t.query.Some? then
      var q := t.query.value;
      t.(query := if q == [] then None else Some(q[..|q| - 1]))
    else if t.path != [] then t.(path := t.path[..|t.path| - 1])
    else t.(server := t.server[..|t.server| - 1])
  }

  function Last(t: Target): byte
    requires !Empty(t)
  {
    if t.fragment.Some? then
      var f := t.fragment.value;
      if f == [] then '#' else f[|f| - 1]
    else if t.query.Some? then
      var q := t.query.value;
      if q == [] then '?' else q[|q| - 1]
    else if t.path != [] then t.path[|t.path| - 1]
    else t.server[|t.server| - 1]
  }

  lemma FrontBytes(s: seq<byte>)
    requires s != []
    ensures s == s[..|s| - 1] + [s[|s| - 1]]
    ensures ServerBytes(s) ==> ServerBytes(s[..|s| - 1]) && s[|s| - 1] != '/' && s[|s| - 1] != '?' && s[|s| - 1] != '#'
    ensures PathBytes(s) ==> PathBytes(s[..|s| - 1]) && s[|s| - 1] != '?' && s[|s| - 1] != '#'
    ensures QueryBytes(s) ==> QueryBytes(s[..|s| - 1]) && s[|s| - 1] != '#'
    ensures FragmentBytes(s) ==> FragmentBytes(s[..|s| - 1])
  {
  }

  /** A path of one byte, before which there is nothing. */
  predicate FirstByte(t: Target) { OriginForm(t) && |t.path| == 1 && t.query.None? && t.fragment.None? }

  /** Taking the last byte off and putting it back. */
  lemma LessThenMore(m: Method, t: Target)
    requires Shaped(m, t) && !Empty(t) && (m == CONNECT || !FirstByte(t))
    ensures Shaped(m, Less(t)) && More(Less(t), Last(t)) == t
  {
    hide ServerBytes, PathBytes, QueryBytes, FragmentBytes, Letters;
    if t.fragment.Some? {
      if t.fragment.value != [] {
        FrontBytes(t.fragment.value);
      }
    } else if t.query.Some? {
      if t.query.value != [] {
        FrontBytes(t.query.value);
      }
    } else {
      LessOfPlain(m, t);
    }
  }

  lemma LessOfPlain(m: Method, t: Target)
    requires Shaped(m, t) && !Empty(t) && (m == CONNECT || !FirstByte(t)) && t.fragment.None? && t.query.None?
    ensures Shaped(m, Less(t)) && More(Less(t), Last(t)) == t
  {
    hide ServerBytes, PathBytes, QueryBytes, FragmentBytes, Letters;
    NoBytes();
    if t.path != [] {
      FrontBytes(t.path);
    } else {
      FrontBytes(t.server);
    }
  }

  lemma {:induction false} LettersFold(x: seq<byte>)
    requires Letters(x)
    ensures UrlFold(REQ_SPACES_BEFORE_URL, x) == if x == [] then REQ_SPACES_BEFORE_URL else REQ_SCHEMA
    decreases |x|
  {
    hide ParseUrlChar, Letter;
    if x == [] {
    } else {
      var front, ch := x[..|x| - 1], x[|x| - 1];
      LettersFold(front);
      SchemaStep(UrlFold(REQ_SPACES_BEFORE_URL, front), ch);
    }
  }

  lemma FoldOne(s: State, front: seq<byte>, ch: byte)
    ensures UrlFold(s, front + [ch]) == ParseUrlChar(UrlFold(s, front), ch)
  {
    hide ParseUrlChar;
    assert (front + [ch])[..|front|] == front;
  }

  lemma EmptyFold(m: Method, t: Target)
    requires Shaped(m, t) && Empty(t)
    ensures UrlFold(UrlStart(m), Text(t)) == REQ_SERVER_START
  {
    hide ParseUrlChar, Letter, UrlFold;
    assert Text(t) == SchemaText(t);
    if m == CONNECT {
      ServerFirst([]);
    } else {
      var x := t.schema.value;
      LettersFold(x);
      FoldOne(REQ_SPACES_BEFORE_URL, x, ':');
      FoldOne(REQ_SPACES_BEFORE_URL, x + ":", '/');
      FoldOne(REQ_SPACES_BEFORE_URL, x + ":" + "/", '/');
      SchemaStep(REQ_SCHEMA, ':');
      SchemaStep(REQ_SCHEMA_SLASH, '/');
      SchemaStep(REQ_SCHEMA_SLASH_SLASH, '/');
      assert x + ":" + "/" + "/" == x + "://";
    }
  }

  lemma FirstByteFold(m: Method, t: Target)
    requires Shaped(m, t) && FirstByte(t)
    ensures m != CONNECT ==> Text(t) == t.path && UrlFold(UrlStart(m), t.path) == REQ_PATH
  {
    hide ParseUrlChar;
    FoldOne(REQ_SPACES_BEFORE_URL, [], t.path[0]);
    SchemaStep(REQ_SPACES_BEFORE_URL, t.path[0]);
    assert [] + [t.path[0]] == t.path;
  }

  /** The recogniser reads the text of every shape, and is then behind its parts. */
  lemma {:induction false} ShapeRead(m: Method, t: Target)
    requires Shaped(m, t)
    ensures UrlFold(UrlStart(m), Text(t)) == StateBehind(t)
    decreases |Text(t)|
  {
    hide ParseUrlChar, BytesOk, Text, More, Less, Last, Hierarchy, UrlFold;
    if Empty(t) {
      EmptyFold(m, t);
    } else if m != CONNECT && FirstByte(t) {
      FirstByteFold(m, t);
    } else {
      var u, ch := Less(t), Last(t);
      LessThenMore(m, t);
      MoreText(u, ch);
      ShapeRead(m, u);
      FoldOne(UrlStart(m), Text(u), ch);
      OneMore(m, u, ch);
    }
  }

  /** The parts of a text are the only ones. */
  lemma {:induction false} OneReading(m: Method, t: Target, u: Target)
    requires Shaped(m, t) && Shaped(m, u) && Text(t) == Text(u)
    ensures t == u
    decreases |Text(t)|
  {
    hide ParseUrlChar, BytesOk, Text, More, Less, Last, Hierarchy, UrlFold;
    ShapeRead(m, t);
    ShapeRead(m, u);
    if Empty(t) {
      EmptyOnes(m, t, u);
    } else if m != CONNECT && FirstByte(t) {
      FirstOnes(m, t, u);
    } else if m != CONNECT && FirstByte(u) {
      FirstOnes(m, u, t);
    } else {
      NotStart(t);
      LessThenMore(m, t);
      LessThenMore(m, u);
      MoreText(Less(t), Last(t));
      MoreText(Less(u), Last(u));
      SameFront(Text(Less(t)), Last(t), Text(Less(u)), Last(u));
      OneReading(m, Less(t), Less(u));
    }
  }

  lemma NotStart(t: Target)
    ensures Empty(t) <==> StateBehind(t) == REQ_SERVER_START
  {
  }

  lemma SameFront(a: seq<byte>, x: byte, b: seq<byte>, y: byte)
    requires a + [x] == b + [y]
    ensures a == b && x == y
  {
    assert (a + [x])[|a|] == x && (b + [y])[|b|] == y;
    assert (a + [x])[..|a|] == a && (b + [y])[..|b|] == b;
  }

  lemma EmptyOnes(m: Method, t: Target, u: Target)
    requires Shaped(m, t) && Shaped(m, u) && Text(t) == Text(u) && Empty(t) && StateBehind(t) == StateBehind(u)
    ensures t == u
  {
    hide ServerBytes, PathBytes, QueryBytes, FragmentBytes, Letters;
    NotStart(t);
    NotStart(u);
    assert Text(t) == SchemaText(t) && Text(u) == SchemaText(u);
    if m != CONNECT {
      var x, y := t.schema.value, u.schema.value;
      assert |x| == |y| && (x + "://")[..|x|] == x && (y + "://")[..|y|] == y;
    }
  }

  lemma FirstOnes(m: Method, t: Target, u: Target)
    requires m != CONNECT && Shaped(m, t) && Shaped(m, u) && Text(t) == Text(u) && FirstByte(t)
    ensures t == u
  {
    hide ServerBytes, PathBytes, QueryBytes, FragmentBytes, Letters;
    FirstByteFold(m, t);
    assert |Text(u)| == |SchemaText(u)| + |u.server| + |u.path| + |QueryText(u)| + |FragmentText(u)|;
    assert Text(u) == u.path;
  }

  /** Which URLs a request line may have: those of the grammar, and no others. */
  lemma AcceptedIffUrl(m: Method, url: seq<byte>)
    ensures UrlAccepted(m, url) <==> IsUrl(m, url)
  {
    hide UrlFold, Text, StateBehind, BytesOk;
    if UrlAccepted(m, url) {
      var t := Parts(m, url);
    }
    if IsUrl(m, url) {
      var t :| Formed(m, t) && Text(t) == url;
      ShapeRead(m, t);
      FormedEnds(m, t);
    }
  }

  lemma FormedEnds(m: Method, t: Target)
    requires Formed(m, t)
    ensures UrlEnds(StateBehind(t)) && Text(t) != []
  {
    hide BytesOk;
    assert |Text(t)| == |SchemaText(t)| + |t.server| + |t.path| + |QueryText(t)| + |FragmentText(t)|;
  }

  // ---- the parser and the grammar ----

  ghost predicate Refuses(p: Parser, data: seq<byte>, hc: HeadersAnswer) {
    Run(p, data, hc).status == Failed && Run(p, data, hc).parser.errno == INVALID_URL
  }

  lemma FirstRefused(p: Parser, ch: byte, hc: HeadersAnswer)
    requires p.state == REQ_SPACES_BEFORE_URL && p.nread < MAX_HEADER_SIZE && ch != ' '
    requires ParseUrlChar(UrlStart(p.verb), ch) == DEAD
    ensures Refuses(p, [ch], hc)
  {
    hide ParseUrlChar;
    var q := CountHeaderByte(p);
    assert Switch(q, ch, 1, hc) == AtSpacesBeforeUrl(q, ch);
    hide Step;
    assert Step(p, ch, hc).status == Failed && Step(p, ch, hc).parser.errno == INVALID_URL by {
      StepInLine(p, ch, hc);
    }
    RunOne(p, ch, hc);
  }

  lemma NextRefused(p: Parser, ch: byte, hc: HeadersAnswer)
    requires UrlState(p.state) && p.nread < MAX_HEADER_SIZE
    requires if ch == ' ' then !UrlEnds(p.state) else ParseUrlChar(p.state, ch) == DEAD && ch != CR && ch != LF
    ensures Refuses(p, [ch], hc)
  {
    hide ParseUrlChar;
    var q := CountHeaderByte(p);
    assert Switch(q, ch, 1, hc) == UrlLine(q, ch);
    hide Step;
    assert Step(p, ch, hc).status == Failed && Step(p, ch, hc).parser.errno == INVALID_URL by {
      StepInLine(p, ch, hc);
    }
    RunOne(p, ch, hc);
  }

  lemma RefusedSooner(p: Parser, a: seq<byte>, b: seq<byte>, hc: HeadersAnswer)
    requires Refuses(p, a, hc)
    ensures Refuses(p, a + b, hc)
  {
    hide Step, Run;
    RunSplit(p, a, b, hc);
  }

  lemma RefusedLater(p: Parser, a: seq<byte>, q: Parser, atoms: seq<Atom>, b: seq<byte>, hc: HeadersAnswer)
    requires Reaches(p, a, q, atoms, hc) && Refuses(q, b, hc)
    ensures Refuses(p, a + b, hc)
  {
    hide Step, Run;
    RunSplit(p, a, b, hc);
  }

  predicate OneWord(text: seq<byte>) {
    forall i :: 0 <= i < |text| ==> text[i] != ' ' && text[i] != CR && text[i] != LF
  }

  /** A text on which the recogniser dies is refused. */
  lemma {:induction false} DeadIsRefused(p: Parser, text: seq<byte>, hc: HeadersAnswer)
    requires p.state == REQ_SPACES_BEFORE_URL && text != [] && p.nread + |text| <= MAX_HEADER_SIZE && OneWord(text)
    requires UrlFold(UrlStart(p.verb), text) == DEAD
    ensures Refuses(p, text, hc)
    decreases |text|
  {
    hide ParseUrlChar, Refuses, Reaches, Run, Step;
    var front, ch := text[..|text| - 1], text[|text| - 1];
    assert text == front + [ch];
    var s := UrlFold(UrlStart(p.verb), front);
    if front == [] {
      FirstRefused(p, ch, hc);
      assert text == [ch];
    } else if s == DEAD {
      DeadIsRefused(p, front, hc);
      RefusedSooner(p, front, [ch], hc);
    } else {
      UrlRun(p, front, hc);
      var q := p.(state := s, nread := p.nread + |front|);
      NextRefused(q, ch, hc);
      RefusedLater(p, front, q, Bytes(Url, front), [ch], hc);
    }
  }

  /** A word and a space where a URL is due: a URL of the grammar is delivered and the version is
      next; anything else is refused as an invalid URL. */
  lemma TakenIffUrl(p: Parser, word: seq<byte>, hc: HeadersAnswer)
    requires p.state == REQ_SPACES_BEFORE_URL && word != [] && p.nread + |word| < MAX_HEADER_SIZE && OneWord(word)
    ensures IsUrl(p.verb, word) ==>
      Reaches(p, word + " ", p.(state := REQ_HTTP_START, nread := p.nread + |word| + 1), Bytes(Url, word), hc)
    ensures !IsUrl(p.verb, word) ==> Refuses(p, word + " ", hc)
  {
    hide ParseUrlChar, UrlFold, Refuses, Reaches, Run, Step, IsUrl;
    AcceptedIffUrl(p.verb, word);
    var s := UrlFold(UrlStart(p.verb), word);
    if s == DEAD {
      DeadIsRefused(p, word, hc);
      RefusedSooner(p, word, " ", hc);
    } else {
      UrlRun(p, word, hc);
      var q := p.(state := s, nread := p.nread + |word|);
      if UrlEnds(s) {
        UrlEnd(q, hc);
        NothingJoined();
        ReachesThen(p, word, q, Bytes(Url, word), " ", p.(state := REQ_HTTP_START, nread := q.nread + 1), [], hc);
      } else {
        NextRefused(q, ' ', hc);
        RefusedLater(p, word, q, Bytes(Url, word), " ", hc);
      }
    }
  }
}
