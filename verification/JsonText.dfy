/** JSON values of the message server's library, and how they are printed. */
module JsonText {
  import opened CBytes

  type Text = seq<byte>

  /** An object is a `std::map`: its members are ordered by their keys, which differ. Numbers are
      left as what the stream reads for them. */
  datatype Json =
    | Null
    | Bool(b: bool)
    | Number(n: int)
    | Str(s: Text)
    | Arr(values: seq<Json>)
    | Obj(members: seq<Member>)

  datatype Member = Member(key: Text, value: Json)

  // ---- the order of std::string ----

  predicate Less(a: Text, b: Text) {
    if b == [] then false
    else if a == [] then true
    else a[0] < b[0] || (a[0] == b[0] && Less(a[1..], b[1..]))
  }

  /** `m[key] = value`. */
  function Insert(ms: seq<Member>, m: Member): seq<Member> {
    if ms == [] then [m]
    else if ms[0].key == m.key then [m] + ms[1..]
    else if Less(m.key, ms[0].key) then [m] + ms
    else [ms[0]] + Insert(ms[1..], m)
  }

  predicate Sorted(ms: seq<Member>) {
    forall i, j :: 0 <= i < j < |ms| ==> Less(ms[i].key, ms[j].key)
  }

  // ---- printing ----

  function HexDigitOf(n: nat): byte
    requires n < 16
  {
    if n < 10 then '0' + n as char else 'a' + (n - 10) as char
  }

  /** One entry of the table of escapes. */
  function Escape(c: byte): (e: Text)
    ensures 1 <= |e| <= 6
  {
    if c == '"' then "\\\""
    else if c == '\\' then "\\\\"
    else if c == '/' then "\\/"
    else if c == '\U{0008}' then "\\b"
    else if c == '\U{000C}' then "\\f"
    else if c == '\n' then "\\n"
    else if c == '\r' then "\\r"
    else if c == '\t' then "\\t"
    else if c < ' ' then "\\u00" + [HexDigitOf(c as int / 16), HexDigitOf(c as int % 16)]
    else [c]
  }

  function EscapeString(s: Text): Text {
    if s == [] then [] else Escape(s[0]) + EscapeString(s[1..])
  }

  /** The comma before the last character is blanked. */
  function RemoveLastComma(t: Text): (r: Text)
    ensures |r| == |t|
  {
    if |t| > 2 && t[|t| - 2] == ',' then t[|t| - 2 := ' '] else t
  }

  function Tabs(depth: nat): (t: Text)
    ensures |t| == depth
  {
    seq(depth, _ => '\t')
  }

  const END: Text := ",\n"

  function Head(depth: nat, name: Text): Text {
    if name != [] then Tabs(depth) + "\"" + EscapeString(name) + "\"" + ":" + " " else Tabs(depth)
  }

  /** Brackets around what is inside of an array or an object, without its last comma. */
  function Bracket(head: Text, open: Text, inside: Text, depth: nat, close: Text): Text {
    RemoveLastComma(head + open + inside) + Tabs(depth) + close + END
  }

  /** The text of a value under a name; numbers are not part of this model of printing. */
  function Tag(depth: nat, name: Text, v: Json): Text
    decreases v, 0
  {
    match v
    case Null => Head(depth, name) + "null" + END
    case Bool(b) => Head(depth, name) + (if b then "true" else "false") + END
    case Number(_) => Head(depth, name) + END
    case Str(s) => Head(depth, name) + "\"" + EscapeString(s) + "\"" + END
    case Arr(vs) => Bracket(Head(depth, name), "[\n", TagValues(depth + 1, vs), depth, "]")
    case Obj(ms) => Bracket(Head(depth, name), "{\n", TagMembers(depth + 1, ms), depth, "}")
  }

  function TagValues(depth: nat, vs: seq<Json>): Text
    decreases vs, 1
  {
    if vs == [] then [] else Tag(depth, [], vs[0]) + TagValues(depth, vs[1..])
  }

  function TagMembers(depth: nat, ms: seq<Member>): Text
    decreases ms, 1
  {
    if ms == [] then [] else Tag(depth, ms[0].key, ms[0].value) + TagMembers(depth, ms[1..])
  }

  /** `json()` of an array or of an object. */
  function Print(v: Json): Text { RemoveLastComma(Tag(0, [], v)) }
}
