/** The parser as it runs: its functions advance one stream in place and fill lists in loops. Each
    method is proved to do what the parser of the model does on what is left of the stream. */
module JsonReader {
  import opened CBytes
  import opened JsonText
  import opened JsonParse

  class InputStream {
    var rest: Text
    /** The stream is of no more use. */
    var lost: bool

    constructor (s: Text)
      ensures rest == s && !lost
    {
      rest, lost := s, false;
    }

    /** The stream and a result stand for an outcome of the model. */
    ghost predicate Shows<T>(p: Parsed<T>, ok: bool, value: T)
      reads this
    {
      match p
      case Ok(v, r) => ok && value == v && rest == r && !lost
      case No(r) => !ok && rest == r && !lost
      case Lost => !ok && lost
    }

    ghost predicate ShowsMatch(m: Matched, ok: bool)
      reads this
    {
      match m
      case Yes(r) => ok && rest == r && !lost
      case NoMatch(r) => !ok && rest == r && !lost
      case LostPlace => !ok && lost
    }

    /** `>> ws`. */
    method SkipWhite()
      modifies this`rest
      ensures rest == SkipSpace(old(rest))
    {
      while rest != [] && IsSpace(rest[0])
        invariant SkipSpace(rest) == SkipSpace(old(rest))
        decreases |rest|
      {
        rest := rest[1..];
      }
    }

    method TryComment() returns (found: bool)
      modifies this`rest
      ensures found == Comment(old(rest)).Some?
      ensures rest == if found then Comment(old(rest)).value else old(rest)
    {
      found := |rest| >= 2 && rest[0] == '/' && rest[1] == '/';
      if found {
        rest := rest[2..];
        ghost var line := rest;
        while rest != [] && rest[0] != '\r' && rest[0] != '\n'
          invariant SkipLine(rest) == SkipLine(line)
          decreases |rest|
        {
          rest := rest[1..];
        }
        SkipWhite();
      }
    }

    /** Takes the pattern from the stream, or puts what matched of it back. */
    method TakeToken(pattern: Text) returns (ok: bool)
      requires !lost
      modifies this
      ensures ShowsMatch(Match(pattern, old(rest)), ok)
    {
      hide Comment;
      SkipWhite();
      ghost var start := rest;
      var k := 0;
      var clean := true;
      ok := false;
      while rest != [] && k < |pattern|
        invariant 0 <= k <= |pattern| && !lost && !ok
        invariant MatchFrom(pattern, k, rest, clean) == MatchFrom(pattern, 0, start, true)
        decreases |rest|
      {
        if rest[0] == pattern[k] {
          rest := rest[1..];
          k := k + 1;
        } else {
          var comment := TryComment();
          if comment {
            clean := clean && k == 0;
          } else {
            if clean || k == 0 {
              assert k == 0 ==> pattern[..k] + rest == rest;
              rest := pattern[..k] + rest;
            } else {
              lost := true;
            }
            return;
          }
        }
      }
      ok := k == |pattern|;
      if !ok && k > 0 {
        lost := true;
      }
    }

    method TakeString() returns (ok: bool, value: Text)
      requires !lost
      modifies this
      ensures Shows(ParseString(old(rest)), ok, value)
    {
      hide Match, StringBody;
      value := [];
      ok := TakeToken("\"");
      if ok {
        ok, value := TakeBody('"');
      } else if !lost && rest != [] && rest[0] == '\'' {
        rest := rest[1..];
        ok, value := TakeBody('\'');
      }
    }

    method TakeBody(delimiter: byte) returns (ok: bool, value: Text)
      requires !lost
      modifies this
      ensures Shows(StringBody(old(rest), delimiter, []), ok, value)
    {
      hide Unescape;
      ok, value := false, [];
      while rest != []
        invariant !lost && !ok
        invariant StringBody(rest, delimiter, value) == StringBody(old(rest), delimiter, [])
        decreases |rest|
      {
        var c := rest[0];
        if c == delimiter {
          rest := rest[1..];
          ok := true;
          return;
        }
        if c == '\\' {
          if |rest| == 1 {
            lost := true;
            return;
          }
          var e := Unescape(rest[1..], delimiter);
          if e.Cut? {
            lost := true;
            return;
          }
          value := value + e.value;
          rest := rest[1 + e.length..];
        } else {
          value := value + [c];
          rest := rest[1..];
        }
      }
      lost := true;
    }

    method TakeNumber(num: Reader) returns (ok: bool, value: Json)
      requires !lost
      modifies this
      ensures Shows(ParseNumber(num, old(rest)), ok, value)
    {
      SkipWhite();
      var (v, n) := num(rest);
      rest := if n <= |rest| then rest[n..] else [];
      ok, value := v.Some?, if v.Some? then Number(v.value) else Null;
    }

    method TakeWord() returns (ok: bool, value: Json)
      requires !lost
      modifies this
      ensures Shows(ParseWord(old(rest)), ok, value)
    {
      hide Match;
      ok := TakeToken("true");
      value := Bool(true);
      if !ok && !lost {
        ok := TakeToken("false");
        value := Bool(false);
        if !ok && !lost {
          ok := TakeToken("null");
          value := Null;
          if !ok && !lost && rest != [] && rest[0] == ',' {
            ok := true;
          }
        }
      }
    }

    method TakeValue(num: Reader) returns (ok: bool, value: Json)
      requires !lost
      modifies this
      ensures Shows(ParseValue(num, old(rest)), ok, value)
      decreases |rest|, 3
    {
      hide ParseString, ParseNumber, ParseWord, ParseArray, ParseObject;
      value := Null;
      var isString, text := TakeString();
      if isString {
        return true, Str(text);
      }
      if lost {
        return false, Null;
      }
      ok, value := TakeNumber(num);
      if ok {
        return;
      }
      ok, value := TakeWord();
      if ok || lost {
        return;
      }
      if rest != [] && rest[0] == '[' {
        ok, value := TakeArray(num);
        if ok || lost {
          return;
        }
      }
      ok, value := TakeObject(num);
    }

    method TakeArray(num: Reader) returns (ok: bool, value: Json)
      requires !lost
      modifies this
      ensures Shows(ParseArray(num, old(rest)), ok, value)
      decreases |rest|, 2
    {
      hide Match, ParseValue, Closing;
      value := Null;
      ok := TakeToken("[");
      if !ok {
        return;
      }
      ghost var start := rest;
      var vs := [];
      var more := true;
      while more
        invariant !lost && ok && |rest| <= |start| < |old(rest)|
        invariant more ==> Elements(num, rest, vs) == Elements(num, start, [])
        invariant !more ==> Closing("]", rest, Arr(vs)) == Elements(num, start, [])
        decreases more, |rest|
      {
        var got, v := TakeValue(num);
        if lost {
          return false, Null;
        }
        if !got {
          more := false;
        } else {
          vs := vs + [v];
          more := TakeToken(",");
          if lost {
            return false, Null;
          }
        }
      }
      ok := CloseWith("]", Arr(vs));
      value := Arr(vs);
    }

    method CloseWith(bracket: Text, ghost v: Json) returns (ok: bool)
      requires !lost
      modifies this
      ensures Shows(Closing(bracket, old(rest), v), ok, v)
    {
      hide Match;
      ok := TakeToken(bracket);
    }

    method TakeObject(num: Reader) returns (ok: bool, value: Json)
      requires !lost
      modifies this
      ensures Shows(ParseObject(num, old(rest)), ok, value)
      decreases |rest|, 2
    {
      hide Match, Members;
      value := Null;
      ok := TakeToken("{");
      if !ok {
        return;
      }
      var empty := TakeToken("}");
      if lost {
        return false, Null;
      }
      if empty {
        return true, Obj([]);
      }
      ok, value := TakeMembers(num);
    }

    method TakeMembers(num: Reader) returns (ok: bool, value: Json)
      requires !lost
      modifies this
      ensures Shows(Members(num, old(rest), []), ok, value)
      decreases |rest|, 4
    {
      hide Match, ParseValue, ParseString, Closing, Insert;
      ok, value := false, Null;
      ghost var start := rest;
      var ms := [];
      var more := true;
      while more
        invariant !lost && !ok && |rest| <= |start| == |old(rest)|
        invariant more ==> Members(num, rest, ms) == Members(num, start, [])
        invariant !more ==> Closing("}", rest, Obj(ms)) == Members(num, start, [])
        decreases more, |rest|
      {
        var gotKey, key := TakeString();
        if lost {
          return;
        }
        if !gotKey {
          if rest == [] || rest[0] != '}' {
            return;
          }
          more := false;
        } else {
          var colon := TakeToken(":");
          if !colon {
            return;
          }
          var got, v := TakeValue(num);
          if lost {
            return;
          }
          if !got {
            more := false;
          } else {
            ms := Insert(ms, Member(key, v));
            more := TakeToken(",");
            if lost {
              return;
            }
          }
        }
      }
      ok := CloseWith("}", Obj(ms));
      value := Obj(ms);
    }
  }
}
