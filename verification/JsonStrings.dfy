/** Strings of JSON text: what is read back of an escaped string. */
module JsonStrings {
  import opened CBytes
  import opened JsonText
  import opened JsonParse

  /** What is read back of a character: itself, but for the control characters that are written
      with four hexadecimal digits and read as a decimal number. */
  function Reread(c: byte): byte {
    if c >= ' ' || c in {'\U{0008}', '\t', '\n', '\U{000C}', '\r'} then c
    else if c as int % 16 < 10 then (c as int / 16 * 10 + c as int % 16) as char
    else (c as int / 16) as char
  }

  function RereadString(s: Text): (r: Text)
    ensures |r| == |s|
  {
    if s == [] then [] else [Reread(s[0])] + RereadString(s[1..])
  }

  /** The characters that come back: no control characters but 0 to 10, form feed and carriage return. */
  predicate ComesBack(c: byte) { c >= ' ' || c <= '\n' || c == '\U{000C}' || c == '\r' }

  lemma RereadOne(c: byte)
    ensures Reread(c) == c <==> ComesBack(c)
    ensures Reread(c) <= c
  {
  }

  /** A string comes back exactly when all of its characters do. */
  lemma {:induction false} StringComesBack(s: Text)
    ensures RereadString(s) == s <==> forall c :: c in s ==> ComesBack(c)
  {
    if s == [] {
    } else {
      RereadOne(s[0]);
      StringComesBack(s[1..]);
      var r := RereadString(s);
      assert r[0] == Reread(s[0]) && r[1..] == RereadString(s[1..]);
      assert s == [s[0]] + s[1..];
      if r == s {
        assert r[1..] == s[1..];
      }
    }
  }

  /** The characters with an escape of two characters, and the letters of these. */
  const ESCAPED: seq<byte> := ['"', '\\', '/', '\U{0008}', '\U{000C}', '\n', '\r', '\t']
  const ESCAPE_LETTERS: seq<byte> := ['"', '\\', '/', 'b', 'f', 'n', 'r', 't']

  const HEX_LETTERS: seq<byte> := "0123456789abcdef"

  /** The escapes of section 7 of RFC 8259 that have a letter, written and read. */
  lemma StandardEscapes(i: nat)
    requires i < 8
    ensures Escape(ESCAPED[i]) == ['\\', ESCAPE_LETTERS[i]]
    ensures Unescape([ESCAPE_LETTERS[i]], '"') == Escaped([ESCAPED[i]], 1)
  {
  }

  /** Four hexadecimal digits are written for every other control character, and every other
      character is written as it is. */
  lemma OtherCharacters(c: byte)
    requires c !in ESCAPED
    ensures Escape(c) == if c < ' ' then "\\u00" + [HEX_LETTERS[c as int / 16], HEX_LETTERS[c as int % 16]] else [c]
  {
    assert c != '"' && c != '\\' && c != '/' && c != '\U{0008}' by {
      assert ESCAPED[0] == '"' && ESCAPED[1] == '\\' && ESCAPED[2] == '/' && ESCAPED[3] == '\U{0008}';
    }
    assert c != '\U{000C}' && c != '\n' && c != '\r' && c != '\t' by {
      assert ESCAPED[4] == '\U{000C}' && ESCAPED[5] == '\n' && ESCAPED[6] == '\r' && ESCAPED[7] == '\t';
    }
    if c < ' ' {
      HexLetter(c as int / 16);
      HexLetter(c as int % 16);
    }
  }

  lemma HexLetter(n: nat)
    requires n < 16
    ensures HexDigitOf(n) == HEX_LETTERS[n]
  {
  }

  predicate HexText(w: Text, h: nat, l: nat) {
    h < 2 && l < 16 && w == "00" + [HexDigitOf(h), HexDigitOf(l)]
  }

  lemma FourDigits(w: Text, h: nat, l: nat)
    requires HexText(w, h, l)
    ensures IntOf(w) == Some(if l < 10 then h * 10 + l else h)
  {
    var d := if l < 10 then w else w[..3];
    PrefixIs(w, d);
    if l < 10 {
      assert w[..3] == "00" + [HexDigitOf(h)];
      assert DecValue(w) == DecValue(w[..3]) * 10 + l;
    }
    assert w[..3][..2] == "00" && DecValue("00") == 0 by {
      assert "00"[..1] == "0" && "0"[..0] == [];
    }
    assert DecValue(w[..3]) == DecValue(w[..3][..2]) * 10 + h;
  }

  /** The longest prefix of digits. */
  lemma {:induction false} PrefixIs(w: Text, d: Text)
    requires d <= w && (forall i :: 0 <= i < |d| ==> IsNum(d[i])) && (|d| < |w| ==> !IsNum(w[|d|]))
    ensures DigitPrefix(w) == d
  {
    if d == [] {
    } else {
      PrefixIs(w[1..], d[1..]);
    }
  }

  /** Of a character that stands for itself, and of one with an escape of two characters. */
  lemma ShortEscape(c: byte, s: Text)
    requires |Escape(c)| <= 2 && s != [] && s[0] == Escape(c)[|Escape(c)| - 1]
    ensures |Escape(c)| == 1 ==> Escape(c) == [c] && Reread(c) == c && c != '"' && c != '\\'
    ensures |Escape(c)| == 2 ==> Escape(c)[0] == '\\' && Unescape(s, '"') == Escaped([Reread(c)], 1)
  {
  }

  lemma LongEscape(c: byte, s: Text)
    requires |Escape(c)| > 2 && Escape(c)[1..] <= s
    ensures |Escape(c)| == 6 && Escape(c)[0] == '\\' && Unescape(s, '"') == Escaped([Reread(c)], 5)
  {
    hide IntOf;
    var h, l := c as int / 16, c as int % 16;
    var e := Escape(c);
    assert e == "\\u00" + [HexDigitOf(h), HexDigitOf(l)];
    assert s[1..5] == e[2..6] == "00" + [HexDigitOf(h), HexDigitOf(l)];
    FourDigits(s[1..5], h, l);
  }

  /** Reading one escaped character, inside of double quotes. */
  lemma EscapeReread(c: byte, t: Text, value: Text)
    ensures StringBody(Escape(c) + t, '"', value) == StringBody(t, '"', value + [Reread(c)])
  {
    hide Escape, Reread, Unescape, StringBody;
    var e := Escape(c);
    var s := e + t;
    if |e| <= 2 {
      ShortEscape(c, s[|e| - 1..]);
      assert s[|e|..] == t;
      if |e| == 1 {
        OnePlain(s, value);
      } else {
        OneEscape(s, value, [Reread(c)], 1);
      }
    } else {
      LongEscape(c, s[1..]);
      assert s[6..] == t;
      OneEscape(s, value, [Reread(c)], 5);
    }
  }

  lemma OnePlain(s: Text, value: Text)
    requires s != [] && s[0] != '"' && s[0] != '\\'
    ensures StringBody(s, '"', value) == StringBody(s[1..], '"', value + [s[0]])
  {
  }

  lemma OneEscape(s: Text, value: Text, e: Text, n: nat)
    requires |s| > 1 && s[0] == '\\' && Unescape(s[1..], '"') == Escaped(e, n)
    ensures 1 + n <= |s| && StringBody(s, '"', value) == StringBody(s[1 + n..], '"', value + e)
  {
    hide Unescape;
  }

  lemma QuoteEnds(t: Text, value: Text)
    ensures StringBody("\"" + t, '"', value) == Ok(value, t) && value + [] == value
  {
    assert ("\"" + t)[1..] == t;
  }

  lemma {:induction false} EscapedStringReread(s: Text, t: Text, value: Text)
    ensures StringBody(EscapeString(s) + "\"" + t, '"', value) == Ok(value + RereadString(s), t)
  {
    hide Escape, Reread, StringBody;
    if s == [] {
      assert EscapeString(s) + "\"" + t == "\"" + t;
      QuoteEnds(t, value);
    } else {
      var e := EscapeString(s[1..]);
      EscapedStringReread(s[1..], t, value + [Reread(s[0])]);
      hide EscapeString, RereadString;
      EscapesInFront(s);
      Regrouped(Escape(s[0]), e, "\"");
      Regrouped(Escape(s[0]), e + "\"", t);
      EscapeReread(s[0], e + "\"" + t, value);
      Regrouped(value, [Reread(s[0])], RereadString(s[1..]));
    }
  }

  lemma EscapesInFront(s: Text)
    requires s != []
    ensures EscapeString(s) == Escape(s[0]) + EscapeString(s[1..])
    ensures RereadString(s) == [Reread(s[0])] + RereadString(s[1..])
  {
    hide Escape, Reread;
  }
}
