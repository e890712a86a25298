/** The permissive JSON parser, on what is left of its stream. */
module JsonParse {
  import opened CBytes
  import opened JsonText

  /** A parser succeeds; or it fails, with this left in the stream; or it comes to the end of the
      input inside of something, or puts a token back over a comment inside of it: then the stream
      is of no more use, and everything fails. */
  datatype Parsed<T> = Ok(value: T, rest: Text) | No(rest: Text) | Lost

  /** How the stream reads a number: what it reads, if anything, and how many characters it takes. */
  type Reader = Text -> (Option<int>, nat)

  /** It takes nothing where no number can begin. */
  ghost predicate ReadsNumbers(num: Reader) {
    forall s: Text :: (s == [] || !(IsNum(s[0]) || s[0] in {'+', '-', '.'})) ==> num(s) == (None, 0)
  }

  function SkipSpace(s: Text): (r: Text)
    ensures |r| <= |s| && (r == [] || !IsSpace(r[0]))
  {
    if s != [] && IsSpace(s[0]) then SkipSpace(s[1..]) else s
  }

  function SkipLine(s: Text): (r: Text)
    ensures |r| <= |s|
  {
    if s == [] || s[0] == '\r' || s[0] == '\n' then s else SkipLine(s[1..])
  }

  /** A comment, with the space behind it. */
  function Comment(s: Text): (r: Option<Text>)
    ensures r.Some? ==> |r.value| < |s|
  {
    if |s| >= 2 && s[0] == '/' && s[1] == '/' then Some(SkipSpace(SkipLine(s[2..]))) else None
  }

  datatype Matched = Yes(rest: Text) | NoMatch(rest: Text) | LostPlace

  /** The loop of `match`, with `k` characters of the pattern matched; `clean` while no comment
      stands between them. */
  function MatchFrom(p: Text, k: nat, s: Text, clean: bool): (m: Matched)
    requires k <= |p|
    ensures m.Yes? ==> |m.rest| + (|p| - k) <= |s|
    ensures m.NoMatch? ==> |m.rest| <= |s| + k
    decreases |s|
  {
    if k == |p| then Yes(s)
    else if s == [] then (if k == 0 then NoMatch(s) else LostPlace)
    else if s[0] == p[k] then MatchFrom(p, k + 1, s[1..], clean)
    else if Comment(s).Some? then MatchFrom(p, k, Comment(s).value, clean && k == 0)
    else if k == 0 then NoMatch(s)
    else if clean then NoMatch(p[..k] + s)
    else LostPlace
  }

  function Match(p: Text, s: Text): (m: Matched)
    ensures m.Yes? ==> |m.rest| + |p| <= |s|
    ensures m.NoMatch? ==> |m.rest| <= |s|
  {
    MatchFrom(p, 0, SkipSpace(s), true)
  }

  // ---- strings ----

  /** `stream >> i`: space, a sign, decimal digits. */
  function IntOf(w: Text): Option<int> {
    var s := SkipSpace(w);
    if s == [] then None
    else
      var d := DigitPrefix(if s[0] == '-' || s[0] == '+' then s[1..] else s);
      if d == [] then None else Some(if s[0] == '-' then 0 - DecValue(d) else DecValue(d))
  }

  /** What an escape stands for, and how many characters it takes. */
  datatype Escaped = Escaped(value: Text, length: nat) | Cut

  /** An escape behind its backslash. The four characters behind `u` are read as a decimal number. */
  function Unescape(s: Text, delimiter: byte): (r: Escaped)
    requires s != []
    ensures r.Escaped? ==> 1 <= r.length <= |s|
  {
    match s[0]
    case '\\' => Escaped([s[0]], 1)
    case '/' => Escaped([s[0]], 1)
    case 'b' => Escaped(['\U{0008}'], 1)
    case 'f' => Escaped(['\U{000C}'], 1)
    case 'n' => Escaped(['\n'], 1)
    case 'r' => Escaped(['\r'], 1)
    case 't' => Escaped(['\t'], 1)
    case 'u' =>
      if |s| < 5 then Cut
      else
        var i := IntOf(s[1..5]);
        Escaped(if i.Some? then [(i.value % 256) as char] else [], 5)
    case c => Escaped(if c != delimiter then ['\\', c] else [c], 1)
  }

  /** The characters up to the delimiter. */
  function StringBody(s: Text, delimiter: byte, value: Text): (p: Parsed<Text>)
    ensures p.Ok? ==> |p.rest| < |s|
    ensures !p.No?
    decreases |s|
  {
    if s == [] then Lost
    else if s[0] == delimiter then Ok(value, s[1..])
    else if s[0] == '\\' then
      if |s| == 1 then Lost
      else
        var e := Unescape(s[1..], delimiter);
        if e.Cut? then Lost else StringBody(s[1 + e.length..], delimiter, value + e.value)
    else StringBody(s[1..], delimiter, value + [s[0]])
  }

  function ParseString(s: Text): (p: Parsed<Text>)
    ensures p.Ok? ==> |p.rest| < |s|
    ensures p.No? ==> |p.rest| <= |s|
  {
    match Match("\"", s)
    case Yes(r) => StringBody(r, '"', [])
    case NoMatch(r) => if r != [] && r[0] == '\'' then StringBody(r[1..], '\'', []) else No(r)
    case LostPlace => Lost
  }

  // ---- simple values ----

  function ParseNumber(num: Reader, s: Text): (p: Parsed<Json>)
    ensures !p.Lost? && |p.rest| <= |s|
  {
    var r := SkipSpace(s);
    var (v, n) := num(r);
    var rest := if n <= |r| then r[n..] else [];
    if v.Some? then Ok(Number(v.value), rest) else No(rest)
  }

  /** true, false, null; and null where a comma follows. */
  function ParseWord(s: Text): (p: Parsed<Json>)
    ensures p.Ok? ==> |p.rest| <= |s|
    ensures p.No? ==> |p.rest| <= |s|
  {
    match Match("true", s)
    case Yes(r) => Ok(Bool(true), r)
    case LostPlace => Lost
    case NoMatch(r1) =>
      match Match("false", r1)
      case Yes(r) => Ok(Bool(false), r)
      case LostPlace => Lost
      case NoMatch(r2) =>
        match Match("null", r2)
        case Yes(r) => Ok(Null, r)
        case LostPlace => Lost
        case NoMatch(r3) => if r3 != [] && r3[0] == ',' then Ok(Null, r3) else No(r3)
  }

  // ---- values ----

  function ParseValue(num: Reader, s: Text): (p: Parsed<Json>)
    ensures !p.Lost? ==> |p.rest| <= |s|
    decreases |s|, 3
  {
    match ParseString(s)
    case Ok(t, r) => Ok(Str(t), r)
    case Lost => Lost
    case No(r1) =>
      match ParseNumber(num, r1)
      case Ok(v, r) => Ok(v, r)
      case No(r2) =>
        match ParseWord(r2)
        case Ok(v, r) => Ok(v, r)
        case Lost => Lost
        case No(r3) =>
          if r3 != [] && r3[0] == '[' then
            match ParseArray(num, r3)
            case Ok(v, r) => Ok(v, r)
            case Lost => Lost
            case No(r4) => ParseObject(num, r4)
          else ParseObject(num, r3)
  }

  function ParseArray(num: Reader, s: Text): (p: Parsed<Json>)
    ensures p.Ok? ==> |p.rest| < |s|
    ensures p.No? ==> |p.rest| <= |s|
    decreases |s|, 2
  {
    match Match("[", s)
    case Yes(r) => Elements(num, r, [])
    case NoMatch(r) => No(r)
    case LostPlace => Lost
  }

  /** The loop of an array; it ends where no value or no comma follows. */
  function Elements(num: Reader, s: Text, vs: seq<Json>): (p: Parsed<Json>)
    ensures !p.Lost? ==> |p.rest| <= |s|
    decreases |s|, 4
  {
    match ParseValue(num, s)
    case Lost => Lost
    case No(r) => Closing("]", r, Arr(vs))
    case Ok(v, r) =>
      match Match(",", r)
      case Yes(r1) => Elements(num, r1, vs + [v])
      case NoMatch(r1) => Closing("]", r1, Arr(vs + [v]))
      case LostPlace => Lost
  }

  function Closing(bracket: Text, s: Text, v: Json): (p: Parsed<Json>)
    ensures !p.Lost? ==> |p.rest| <= |s|
  {
    match Match(bracket, s)
    case Yes(r) => Ok(v, r)
    case NoMatch(r) => No(r)
    case LostPlace => Lost
  }

  function ParseObject(num: Reader, s: Text): (p: Parsed<Json>)
    ensures p.Ok? ==> |p.rest| < |s|
    ensures p.No? ==> |p.rest| <= |s|
    decreases |s|, 2
  {
    match Match("{", s)
    case NoMatch(r) => No(r)
    case LostPlace => Lost
    case Yes(r) =>
      match Match("}", r)
      case Yes(r1) => Ok(Obj([]), r1)
      case NoMatch(r1) => Members(num, r1, [])
      case LostPlace => Lost
  }

  /** The loop of an object; a closing brace may follow a comma, or a key without a value. */
  function Members(num: Reader, s: Text, ms: seq<Member>): (p: Parsed<Json>)
    ensures !p.Lost? ==> |p.rest| <= |s|
    decreases |s|, 4
  {
    match ParseString(s)
    case Lost => Lost
    case No(r) => if r != [] && r[0] == '}' then Closing("}", r, Obj(ms)) else No(r)
    case Ok(key, r) =>
      match Match(":", r)
      case NoMatch(r1) => No(r1)
      case LostPlace => Lost
      case Yes(r1) =>
        match ParseValue(num, r1)
        case Lost => Lost
        case No(r2) => Closing("}", r2, Obj(ms))
        case Ok(v, r2) =>
          match Match(",", r2)
          case Yes(r3) => Members(num, r3, Insert(ms, Member(key, v)))
          case NoMatch(r3) => Closing("}", r3, Obj(Insert(ms, Member(key, v))))
          case LostPlace => Lost
  }
}
