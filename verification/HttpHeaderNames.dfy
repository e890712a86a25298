/** Header names: the name recogniser is exact. */
module HttpHeaderNames {
  import opened CBytes
  import opened HttpTypes
  import opened HttpSwitch
  import opened HttpRun
  import opened HttpBodies

  // ---- the name recogniser is exact ----

  /** A name as the token table spells it. */
  function Tokens(name: seq<byte>): string {
    seq(|name|, i requires 0 <= i < |name| => Token(name[i]))
  }

  predicate IsName(name: seq<byte>) {
    name != [] && forall i :: 0 <= i < |name| ==> Token(name[i]) != '\0'
  }

  /** The start of no name that means something to the parser. */
  predicate Unknown(t: string) {
    && !(t <= CONNECTION) && !(t <= PROXY_CONNECTION) && !(t <= CONTENT_LENGTH)
    && !(t <= TRANSFER_ENCODING) && !(t <= UPGRADE)
  }

  predicate PartOf(t: string, word: string, index: nat) {
    0 < |t| < |word| && t <= word && index == |t| - 1
  }

  /** What the matcher says of the part `t` of a name that was read. */
  predicate NameAt(h: HeaderMatch, index: nat, t: string) {
    match h
    case General => t != [] && Unknown(t)
    case C => t == "c" && index == 0
    case CO => t == "co" && index == 1
    case CON => t == "con" && index == 2
    case MatchingConnection => PartOf(t, CONNECTION, index) && |t| >= 4
    case MatchingProxyConnection => PartOf(t, PROXY_CONNECTION, index)
    case MatchingContentLength => PartOf(t, CONTENT_LENGTH, index) && |t| >= 4
    case MatchingTransferEncoding => PartOf(t, TRANSFER_ENCODING, index)
    case MatchingUpgrade => PartOf(t, UPGRADE, index)
    case Connection => t == CONNECTION || t == PROXY_CONNECTION
    case ContentLength => t == CONTENT_LENGTH
    case TransferEncoding => t == TRANSFER_ENCODING
    case Upgrade => t == UPGRADE
    case _ => false
  }

  const WORDS: set<string> := {CONNECTION, PROXY_CONNECTION, CONTENT_LENGTH, TRANSFER_ENCODING, UPGRADE}

  lemma Differs(t: string, word: string, i: nat)
    requires i < |t| && (i < |word| ==> t[i] != word[i])
    ensures !(t <= word)
  {
  }

  lemma Shorter(t: string, u: string, word: string)
    requires t <= u && u <= word
    ensures t <= word
  {
  }

  /** The known names start with `conn`, `cont`, `p`, `t` and `u`. */
  lemma Initials(t: string)
    requires t != []
    ensures t[0] != 'c' || (|t| >= 4 && t[3] != 'n') ==> !(t <= CONNECTION)
    ensures t[0] != 'c' || (|t| >= 4 && t[3] != 't') ==> !(t <= CONTENT_LENGTH)
    ensures t[0] != 'p' ==> !(t <= PROXY_CONNECTION)
    ensures t[0] != 't' ==> !(t <= TRANSFER_ENCODING)
    ensures t[0] != 'u' ==> !(t <= UPGRADE)
  {
  }

  lemma FirstName(c: char)
    ensures NameAt(FirstNameMatch(c), 0, [c])
  {
    Initials([c]);
  }

  lemma Letter(word: string, t: string)
    requires word in WORDS && 0 < |t| && t <= word && (word[0] == 'c' ==> |t| >= 4)
    ensures t[0] == word[0] && (word[0] == 'c' ==> t[3] == word[3])
    ensures word == CONNECTION ==> word[0] == 'c' && word[3] == 'n'
    ensures word == CONTENT_LENGTH ==> word[0] == 'c' && word[3] == 't'
    ensures word == PROXY_CONNECTION ==> word[0] == 'p'
    ensures word == TRANSFER_ENCODING ==> word[0] == 't'
    ensures word == UPGRADE ==> word[0] == 'u'
  {
  }

  /** Part of a known name, and a character that does not go on with it. */
  lemma OneWord(t: string, c: char, word: string)
    requires word in WORDS && t <= word && 0 < |t| && (word[0] == 'c' ==> |t| >= 4)
    requires |t| < |word| ==> c != word[|t|]
    ensures Unknown(t + [c])
  {
    var u := t + [c];
    Letter(word, t);
    assert u[0] == t[0] && (|t| >= 4 ==> u[3] == t[3]) && u[|t|] == c;
    Differs(u, word, |t|);
    Initials(u);
  }

  lemma MatchWordIs(p: Parser, word: string, c: char, found: HeaderMatch, n: nat)
    requires p.index + 1 == n < |word|
    ensures MatchWord(p, word, c, found) ==
      if c != word[n] then p.(index := n, headerState := General)
      else if n + 1 == |word| then p.(index := n, headerState := found)
      else p.(index := n)
  {
  }

  lemma MatchWordAt(p: Parser, word: string, c: char, found: HeaderMatch, t: string)
    requires word in WORDS && PartOf(t, word, p.index) && (word[0] == 'c' ==> |t| >= 4)
    ensures var q := MatchWord(p, word, c, found);
      && q == p.(headerState := q.headerState, index := q.index)
      && if c != word[|t|] then q.headerState == General && Unknown(t + [c])
         else if |t| + 1 == |word| then q.headerState == found && t + [c] == word
         else q.headerState == p.headerState && PartOf(t + [c], word, q.index)
  {
    hide Unknown, MatchWord, WORDS;
    MatchWordIs(p, word, c, found, |t|);
    if c != word[|t|] {
      OneWord(t, c, word);
    } else {
      assert word[..|t| + 1] == word[..|t|] + [word[|t|]];
    }
  }

  lemma Letters(t: string, c: char)
    requires t == "c" || t == "co" || t == "con"
    ensures t == "c" ==> if c == 'o' then t + [c] == "co" else Unknown(t + [c])
    ensures t == "co" ==> if c == 'n' then t + [c] == "con" else Unknown(t + [c])
    ensures t == "con" && c == 'n' ==> PartOf(t + [c], CONNECTION, 3)
    ensures t == "con" && c == 't' ==> PartOf(t + [c], CONTENT_LENGTH, 3)
    ensures t == "con" && c != 'n' && c != 't' ==> Unknown(t + [c])
  {
    var u := t + [c];
    assert u[|t|] == c && u[0] == 'c';
    Initials(u);
    if (|t| == 1 && c != 'o') || (|t| == 2 && c != 'n') {
      Differs(u, CONNECTION, |t|);
      Differs(u, CONTENT_LENGTH, |t|);
    }
  }

  lemma LongerIsUnknown(t: string, c: char)
    requires t in WORDS || Unknown(t)
    ensures Unknown(t + [c])
  {
    var u := t + [c];
    if t in WORDS {
      OneWord(t, c, t);
    } else {
      assert t <= u;
      forall w | w in WORDS && u <= w ensures t <= w {
        Shorter(t, u, w);
      }
    }
  }

  lemma NextInWord(p: Parser, ch: byte, c: char, t: string)
    requires NameAt(p.headerState, p.index, t) && InsideWord(p.headerState)
    ensures var q := NameStep(p, ch, c);
      q.Some? && q.value == p.(headerState := q.value.headerState, index := q.value.index)
      && NameAt(q.value.headerState, q.value.index, t + [c])
  {
    hide MatchWord, Unknown, PartOf;
    match p.headerState
    case MatchingConnection => MatchWordAt(p, CONNECTION, c, Connection, t);
    case MatchingProxyConnection => MatchWordAt(p, PROXY_CONNECTION, c, Connection, t);
    case MatchingContentLength => MatchWordAt(p, CONTENT_LENGTH, c, ContentLength, t);
    case MatchingTransferEncoding => MatchWordAt(p, TRANSFER_ENCODING, c, TransferEncoding, t);
    case MatchingUpgrade => MatchWordAt(p, UPGRADE, c, Upgrade, t);
  }

  lemma NextOutside(p: Parser, ch: byte, c: char, t: string)
    requires NameAt(p.headerState, p.index, t) && !InsideWord(p.headerState) && ch != ' '
    ensures var q := NameStep(p, ch, c);
      q.Some? && q.value == p.(headerState := q.value.headerState, index := q.value.index)
      && NameAt(q.value.headerState, q.value.index, t + [c])
  {
    hide MatchWord, Unknown, PartOf;
    match p.headerState
    case C => Letters(t, c);
    case CO => Letters(t, c);
    case CON => Letters(t, c);
    case _ => LongerIsUnknown(t, c);
  }

  /** A token character takes the matcher to what it should say of the longer name. */
  lemma NextName(p: Parser, ch: byte, t: string)
    requires NameAt(p.headerState, p.index, t) && Token(ch) != '\0'
    ensures var q := NameStep(p, ch, Token(ch));
      q.Some? && q.value == p.(headerState := q.value.headerState, index := q.value.index)
      && NameAt(q.value.headerState, q.value.index, t + [Token(ch)])
  {
    hide Token, NameStep, NameAt;
    SpaceIsNoToken();
    if InsideWord(p.headerState) {
      NextInWord(p, ch, Token(ch), t);
    } else {
      NextOutside(p, ch, Token(ch), t);
    }
  }

  lemma SpaceIsNoToken()
    ensures Token(' ') == '\0'
  {
  }

  /** What a whole name means: the headers the parser knows, in any case of their letters. */
  function Meaning(name: seq<byte>): HeaderMatch {
    var t := Tokens(name);
    if t == CONNECTION || t == PROXY_CONNECTION then Connection
    else if t == CONTENT_LENGTH then ContentLength
    else if t == TRANSFER_ENCODING then TransferEncoding
    else if t == UPGRADE then Upgrade
    else General
  }

  /** A matcher that has not found a name by its end has found none. */
  function Found(h: HeaderMatch): HeaderMatch {
    if h == Connection || h == ContentLength || h == TransferEncoding || h == Upgrade then h else General
  }

  lemma UnknownIsNoWord(t: string)
    ensures Unknown(t) ==> t !in WORDS
  {
    assert t <= t;
  }

  /** A proper part of a known name is none of them. */
  lemma PartIsNoWord(t: string, word: string, index: nat)
    requires word in WORDS && PartOf(t, word, index) && (word[0] == 'c' ==> |t| >= 4)
    ensures t !in WORDS
  {
    Letter(word, t);
    forall w | w in WORDS ensures t != w {
      Letter(w, w);
    }
  }

  /** At the end of a name the matcher says exactly what the name means. */
  lemma NameIsExact(h: HeaderMatch, index: nat, name: seq<byte>)
    requires NameAt(h, index, Tokens(name))
    ensures Found(h) == Meaning(name)
  {
    hide Tokens, Unknown, PartOf;
    var t := Tokens(name);
    match h
    case General => UnknownIsNoWord(t);
    case MatchingConnection => PartIsNoWord(t, CONNECTION, index);
    case MatchingProxyConnection => PartIsNoWord(t, PROXY_CONNECTION, index);
    case MatchingContentLength => PartIsNoWord(t, CONTENT_LENGTH, index);
    case MatchingTransferEncoding => PartIsNoWord(t, TRANSFER_ENCODING, index);
    case MatchingUpgrade => PartIsNoWord(t, UPGRADE, index);
    case _ =>
  }

  // ---- names ----

  lemma FirstNameStep(p: Parser, ch: byte, hc: HeadersAnswer)
    requires p.state == HEADER_FIELD_START && p.nread < MAX_HEADER_SIZE && Token(ch) != '\0'
    ensures Step(p, ch, hc) == Outcome(
      p.(state := HEADER_FIELD, headerState := FirstNameMatch(Token(ch)), index := 0, nread := p.nread + 1),
      [Byte(Field, ch)], 1, Going)
  {
    hide Token, FirstNameMatch;
    TokenIsNotBreak(ch);
    var q := CountHeaderByte(p);
    assert Switch(q, ch, 1, hc) == AtHeaderFieldStart(q, ch);
  }

  lemma TokenIsNotBreak(ch: byte)
    ensures Token(ch) != '\0' ==> ch != CR && ch != LF && ch != ':' && ch != ' ' && ch != '\t'
  {
  }

  lemma NextNameStep(p: Parser, ch: byte, hc: HeadersAnswer)
    requires p.state == HEADER_FIELD && p.nread < MAX_HEADER_SIZE && Token(ch) != '\0'
    requires NameStep(p, ch, Token(ch)).Some?
    requires var q := NameStep(p, ch, Token(ch)).value; q == p.(headerState := q.headerState, index := q.index)
    ensures Step(p, ch, hc) ==
      Outcome(NameStep(p, ch, Token(ch)).value.(nread := p.nread + 1), [Byte(Field, ch)], 1, Going)
  {
    hide Token, NameStep, Step;
    CountedName(p, ch, Token(ch), p.nread + 1);
    NamePass(CountHeaderByte(p), ch, hc);
    NameByte(p, ch, NameStep(p, ch, Token(ch)).value.(nread := p.nread + 1), hc);
  }

  lemma NamePass(p: Parser, ch: byte, hc: HeadersAnswer)
    requires p.state == HEADER_FIELD && Token(ch) != '\0' && NameStep(p, ch, Token(ch)).Some?
    ensures Switch(p, ch, 1, hc) == Go(NameStep(p, ch, Token(ch)).value)
  {
    hide Token, NameStep;
    assert Switch(p, ch, 1, hc) == AtHeaderField(p, ch);
  }

  /** A byte that takes one pass, announces nothing and is part of a name. */
  lemma NameByte(p: Parser, ch: byte, q: Parser, hc: HeadersAnswer)
    requires ParsingHeader(p.state) && p.nread < MAX_HEADER_SIZE && q.state == HEADER_FIELD
    requires Switch(CountHeaderByte(p), ch, 1, hc) == Go(q)
    ensures Step(p, ch, hc) == Outcome(q, [Byte(Field, ch)], 1, Going)
  {
    hide Switch;
  }

  lemma CountedName(p: Parser, ch: byte, c: char, n: nat)
    requires NameStep(p, ch, c).Some?
    ensures NameStep(p.(nread := n), ch, c) == Some(NameStep(p, ch, c).value.(nread := n))
  {
    hide MatchWord;
    match p.headerState
    case MatchingConnection => CountedWord(p, CONNECTION, c, Connection, n);
    case MatchingProxyConnection => CountedWord(p, PROXY_CONNECTION, c, Connection, n);
    case MatchingContentLength => CountedWord(p, CONTENT_LENGTH, c, ContentLength, n);
    case MatchingTransferEncoding => CountedWord(p, TRANSFER_ENCODING, c, TransferEncoding, n);
    case MatchingUpgrade => CountedWord(p, UPGRADE, c, Upgrade, n);
    case _ =>
  }

  lemma CountedWord(p: Parser, word: string, c: char, found: HeaderMatch, n: nat)
    ensures MatchWord(p.(nread := n), word, c, found) == MatchWord(p, word, c, found).(nread := n)
  {
  }

  /** The same but for the matcher, of which only the name or value at hand depends. */
  predicate SameBut(p: Parser, q: Parser) {
    p.(headerState := General, index := 0) == q.(headerState := General, index := 0)
  }

  lemma {:induction false} NameRun(p: Parser, name: seq<byte>, hc: HeadersAnswer) returns (q: Parser)
    requires p.state == HEADER_FIELD_START && IsName(name) && p.nread + |name| <= MAX_HEADER_SIZE
    ensures Reaches(p, name, q, Bytes(Field, name), hc)
    ensures SameBut(q, p.(state := HEADER_FIELD, nread := p.nread + |name|))
    ensures NameAt(q.headerState, q.index, Tokens(name))
    decreases |name|
  {
    hide Token, Reaches, Step, Bytes, NameStep, NameAt;
    var front, last := name[..|name| - 1], name[|name| - 1];
    assert name == front + [last];
    BytesJoin(Field, front, [last]);
    SingleByte(Field, last);
    if front == [] {
      FirstNameStep(p, last, hc);
      FirstName(Token(last));
      q := Step(p, last, hc).parser;
      ReachesByte(p, last, q, [Byte(Field, last)], hc);
      assert name == [last] && Tokens(name) == [Token(last)];
    } else {
      var r := NameRun(p, front, hc);
      NextName(r, last, Tokens(front));
      NextNameStep(r, last, hc);
      q := Step(r, last, hc).parser;
      ReachesByte(r, last, q, [Byte(Field, last)], hc);
      ReachesThen(p, front, r, Bytes(Field, front), [last], q, [Byte(Field, last)], hc);
      assert Tokens(name) == Tokens(front) + [Token(last)];
    }
  }
}
