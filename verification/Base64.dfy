/** Base 64: section 4 of RFC 4648, and the accumulator loops. */
module Base64 {
  import opened CBytes

  type Sextet = n: int | 0 <= n < 64

  const PAD: byte := '='

  /** The character of a value (table 1 of RFC 4648). */
  function Symbol(v: Sextet): (c: byte)
    ensures c != PAD && !IsSpace(c)
  {
    if v < 26 then 'A' + v as char
    else if v < 52 then 'a' + (v - 26) as char
    else if v < 62 then '0' + (v - 52) as char
    else if v == 62 then '+' else '/'
  }

  /** The reverse table: 64 for a character that is none of them. */
  function Value(c: byte): (v: int)
    ensures 0 <= v <= 64
    ensures v < 64 ==> Symbol(v) == c
  {
    if 'A' <= c <= 'Z' then c as int - 'A' as int
    else if 'a' <= c <= 'z' then c as int - 'a' as int + 26
    else if '0' <= c <= '9' then c as int - '0' as int + 52
    else if c == '+' then 62
    else if c == '/' then 63 else 64
  }

  lemma ValueOfSymbol(v: Sextet)
    ensures Value(Symbol(v)) == v
  {
  }

  // ---- RFC 4648 ----

  /** Groups of 24 bits; the last may have 8 or 16, which are padded. */
  function Encoded(s: seq<byte>): (t: seq<byte>)
    ensures |t| == (|s| + 2) / 3 * 4
  {
    if s == [] then []
    else
      var a := s[0] as int;
      if |s| == 1 then [Symbol(a / 4), Symbol(a % 4 * 16), PAD, PAD]
      else
        var b := s[1] as int;
        if |s| == 2 then [Symbol(a / 4), Symbol(a % 4 * 16 + b / 16), Symbol(b % 16 * 4), PAD]
        else
          var c := s[2] as int;
          [Symbol(a / 4), Symbol(a % 4 * 16 + b / 16), Symbol(b % 16 * 4 + c / 64), Symbol(c % 64)] + Encoded(s[3..])
  }

  // ---- the loops, as folds over the input ----

  const WRAP: nat := 0x1_0000_0000

  /** An accumulator of 32 bits, and how many of its low bits are collected. */
  datatype Bits = Bits(acc: nat, count: nat)

  /** `(acc >> bits) & mask`, for a mask below `size`. */
  function Field(acc: nat, shift: nat, size: nat): (n: nat)
    requires size > 0
    ensures n < size
  {
    acc / Power2(shift) % size
  }

  /** The symbols that leave the accumulator while it has six bits. */
  function Emit(x: Bits): (r: (seq<byte>, Bits))
    ensures r.1.count < 6 && r.1.acc == x.acc
    decreases x.count
  {
    if x.count < 6 then ([], x)
    else
      var (out, y) := Emit(x.(count := x.count - 6));
      ([Symbol(Field(x.acc, x.count - 6, 64))] + out, y)
  }

  function Shifted(acc: nat, c: byte): nat { acc * 256 % WRAP + c as int }

  function Push(x: Bits, c: byte): Bits { Bits(Shifted(x.acc, c), x.count + 8) }

  /** The symbol of the bits that are left, followed by zeros. */
  function Last(x: Bits): seq<byte>
    requires x.count < 6
  {
    if x.count > 0 then [Symbol(Field(x.acc * Power2(6 - x.count) % WRAP, 0, 64))] else []
  }

  /** The symbols of the whole input, without padding. */
  function EncodeFrom(x: Bits, s: seq<byte>): seq<byte>
    requires x.count < 6
    decreases |s|
  {
    if s == [] then Last(x)
    else
      var (out, y) := Emit(Push(x, s[0]));
      out + EncodeFrom(y, s[1..])
  }

  lemma Powers()
    ensures Power2(0) == 1 && Power2(2) == 4 && Power2(4) == 16 && Power2(6) == 64
  {
    assert Power2(1) == 2;
    assert Power2(3) == 8;
    assert Power2(5) == 32;
  }

  /** The accumulator after a byte: what was below, and the byte. */
  lemma ShiftedParts(acc: nat, c: byte) returns (x: nat)
    ensures Shifted(acc, c) == 256 * x + c as int && x % 16 == acc % 16 && x % 4 == acc % 4
  {
    x := acc % 0x100_0000;
    var q := acc / 0x100_0000;
    assert acc * 256 == q * WRAP + x * 256;
    ModOf(q, x * 256);
    assert acc == 16 * (q * 0x10_0000) + x;
    SameResidue(q * 0x10_0000, x);
  }

  lemma ModOf(q: nat, r: nat)
    requires r < WRAP
    ensures (q * WRAP + r) % WRAP == r
  {
  }

  lemma SameResidue(q: nat, x: nat)
    ensures (16 * q + x) % 16 == x % 16 && (16 * q + x) % 4 == x % 4
  {
    assert 16 * q + x == 16 * (q + x / 16) + x % 16;
    Mod16(q + x / 16, x % 16);
    assert 16 * q + x == 4 * (4 * q + x / 4) + x % 4;
    Mod4(4 * q + x / 4, x % 4);
  }

  lemma Mod16(k: int, r: nat)
    requires r < 16
    ensures (16 * k + r) % 16 == r
  {
  }

  lemma Mod4(k: int, r: nat)
    requires r < 4
    ensures (4 * k + r) % 4 == r
  {
  }

  lemma Mod64(k: int, r: nat)
    requires r < 64
    ensures (64 * k + r) % 64 == r
  {
  }

  /** Where the bits of a byte are, after `x`. */
  lemma Windows(x: nat, c: nat)
    requires c < 256
    ensures (256 * x + c) / 4 % 64 == c / 4 && (256 * x + c) % 4 == c % 4
    ensures (256 * x + c) / 16 % 64 == x % 4 * 16 + c / 16 && (256 * x + c) % 16 == c % 16
    ensures (256 * x + c) / 64 % 64 == x % 16 * 4 + c / 64 && (256 * x + c) % 64 == c % 64
  {
    assert (256 * x + c) / 4 == 64 * x + c / 4;
    Mod64(x, c / 4);
    assert (256 * x + c) / 16 == 16 * x + c / 16;
    assert 16 * x + c / 16 == 64 * (x / 4) + (x % 4 * 16 + c / 16);
    Mod64(x / 4, x % 4 * 16 + c / 16);
    assert (256 * x + c) / 64 == 4 * x + c / 64;
    assert 4 * x + c / 64 == 64 * (x / 16) + (x % 16 * 4 + c / 64);
    Mod64(x / 16, x % 16 * 4 + c / 64);
    assert 256 * x + c == 64 * (4 * x + c / 64) + c % 64;
    Mod64(4 * x + c / 64, c % 64);
  }

  /** With nothing collected a byte gives its upper six bits, and two are left. */
  lemma PushFirst(acc: nat, c: byte)
    ensures Emit(Push(Bits(acc, 0), c)) == ([Symbol(c as int / 4)], Bits(Shifted(acc, c), 2))
    ensures Shifted(acc, c) % 4 == c as int % 4
  {
    hide Shifted, Symbol, Emit;
    Powers();
    var x := ShiftedParts(acc, c);
    Windows(x, c as int);
    EmitOne(Push(Bits(acc, 0), c));
  }

  /** With two collected: these and the upper four bits. */
  lemma PushSecond(acc: nat, c: byte)
    ensures Emit(Push(Bits(acc, 2), c)) == ([Symbol(acc % 4 * 16 + c as int / 16)], Bits(Shifted(acc, c), 4))
    ensures Shifted(acc, c) % 16 == c as int % 16
  {
    hide Shifted, Symbol, Emit;
    Powers();
    var x := ShiftedParts(acc, c);
    Windows(x, c as int);
    EmitOne(Push(Bits(acc, 2), c));
  }

  /** With four collected: these and the upper two bits, and then the rest. */
  lemma PushThird(acc: nat, c: byte)
    ensures Emit(Push(Bits(acc, 4), c)) ==
      ([Symbol(acc % 16 * 4 + c as int / 64), Symbol(c as int % 64)], Bits(Shifted(acc, c), 0))
  {
    hide Shifted, Symbol, Emit;
    Powers();
    var x := ShiftedParts(acc, c);
    Windows(x, c as int);
    EmitTwo(Shifted(acc, c));
  }

  lemma EmitOne(x: Bits)
    requires 6 <= x.count < 12
    ensures Emit(x) == ([Symbol(Field(x.acc, x.count - 6, 64))], x.(count := x.count - 6))
  {
    hide Symbol, Field;
    var s := [Symbol(Field(x.acc, x.count - 6, 64))];
    assert s + [] == s;
  }

  lemma EmitTwo(acc: nat)
    ensures Emit(Bits(acc, 12)) == ([Symbol(Field(acc, 6, 64)), Symbol(Field(acc, 0, 64))], Bits(acc, 0))
  {
    hide Symbol, Field;
    EmitOne(Bits(acc, 6));
    var x, y := Bits(acc, 12), Bits(acc, 6);
    assert x.(count := x.count - 6) == y;
    assert Emit(x).0 == [Symbol(Field(acc, 6, 64))] + Emit(y).0
      == [Symbol(Field(acc, 6, 64)), Symbol(Field(acc, 0, 64))];
  }

  function Pads(n: nat): (p: seq<byte>) { if n % 3 == 0 then [] else if n % 3 == 1 then [PAD, PAD] else [PAD] }

  lemma LastOf(acc: nat)
    ensures Last(Bits(acc, 0)) == []
    ensures Last(Bits(acc, 2)) == [Symbol(acc % 4 * 16)]
    ensures Last(Bits(acc, 4)) == [Symbol(acc % 16 * 4)]
  {
    hide Symbol;
    Powers();
    LowBits(acc);
  }

  /** Six low bits of a shifted accumulator. */
  lemma LowBits(acc: nat)
    ensures acc * 4 % WRAP % 64 == acc % 16 * 4 && acc * 16 % WRAP % 64 == acc % 4 * 16
  {
    var p, q := acc * 4 / WRAP, acc * 16 / WRAP;
    assert acc * 4 % WRAP == 64 * (acc / 16 - p * 0x400_0000) + acc % 16 * 4;
    Mod64(acc / 16 - p * 0x400_0000, acc % 16 * 4);
    assert acc * 16 % WRAP == 64 * (acc / 4 - q * 0x400_0000) + acc % 4 * 16;
    Mod64(acc / 4 - q * 0x400_0000, acc % 4 * 16);
  }

  lemma EncodeStep(x: Bits, s: seq<byte>)
    requires x.count < 6 && s != []
    ensures var (out, y) := Emit(Push(x, s[0])); EncodeFrom(x, s) == out + EncodeFrom(y, s[1..])
  {
  }

  /** One byte, two bytes, three bytes, from nothing collected. */
  lemma OneByte(acc: nat, s: seq<byte>)
    requires s != []
    ensures EncodeFrom(Bits(acc, 0), s) == [Symbol(s[0] as int / 4)] + EncodeFrom(Bits(Shifted(acc, s[0]), 2), s[1..])
  {
    hide Emit, Push, Shifted, Symbol, EncodeFrom;
    PushFirst(acc, s[0]);
    EncodeStep(Bits(acc, 0), s);
  }

  lemma TwoBytes(acc: nat, s: seq<byte>) returns (next: nat)
    requires |s| >= 2
    ensures EncodeFrom(Bits(acc, 0), s) ==
      [Symbol(s[0] as int / 4), Symbol(s[0] as int % 4 * 16 + s[1] as int / 16)] + EncodeFrom(Bits(next, 4), s[2..])
    ensures next % 16 == s[1] as int % 16
  {
    hide Emit, Push, Shifted, Symbol, EncodeFrom;
    OneByte(acc, s);
    var a1 := Shifted(acc, s[0]);
    PushFirst(acc, s[0]);
    PushSecond(a1, s[1]);
    EncodeStep(Bits(a1, 2), s[1..]);
    next := Shifted(a1, s[1]);
    assert s[1..][1..] == s[2..];
  }

  lemma ThreeBytes(acc: nat, s: seq<byte>) returns (next: nat)
    requires |s| >= 3
    ensures EncodeFrom(Bits(acc, 0), s) ==
      [Symbol(s[0] as int / 4), Symbol(s[0] as int % 4 * 16 + s[1] as int / 16),
       Symbol(s[1] as int % 16 * 4 + s[2] as int / 64), Symbol(s[2] as int % 64)] + EncodeFrom(Bits(next, 0), s[3..])
  {
    hide Emit, Push, Shifted, Symbol, EncodeFrom;
    var a2 := TwoBytes(acc, s);
    PushThird(a2, s[2]);
    EncodeStep(Bits(a2, 4), s[2..]);
    next := Shifted(a2, s[2]);
    assert s[2..][1..] == s[3..];
  }

  /** The loop, from any accumulator with nothing collected, gives the symbols of the RFC. */
  lemma {:induction false} LoopIsRfc(acc: nat, s: seq<byte>)
    ensures Encoded(s) == EncodeFrom(Bits(acc, 0), s) + Pads(|s|)
    decreases |s|
  {
    hide *;
    PadsAre();
    if |s| == 0 {
      LoopNone(acc);
    } else if |s| == 1 {
      LoopOne(acc, s);
    } else if |s| == 2 {
      LoopTwo(acc, s);
    } else {
      var next := ThreeBytes(acc, s);
      LoopIsRfc(next, s[3..]);
      EncodedGroup(s);
      PadsOf(|s|);
      GroupThenRest(Encoded(s), EncodeFrom(Bits(acc, 0), s), Encoded(s[3..]), EncodeFrom(Bits(next, 0), s[3..]),
                    Pads(|s|), Encoded(s)[..4]);
    }
  }

  lemma PadsOf(n: nat)
    requires n >= 3
    ensures Pads(n) == Pads(n - 3)
  {
  }

  lemma GroupThenRest(e: seq<byte>, f: seq<byte>, e1: seq<byte>, f1: seq<byte>, p: seq<byte>, g: seq<byte>)
    requires e == g + e1 && f == g + f1 && e1 == f1 + p
    ensures e == f + p
  {
  }

  lemma LoopNone(acc: nat)
    ensures Encoded([]) == [] && EncodeFrom(Bits(acc, 0), []) == []
  {
    hide EncodeFrom;
    LastOf(acc);
    EncodeNothing(Bits(acc, 0));
  }

  lemma LoopOne(acc: nat, s: seq<byte>)
    requires |s| == 1
    ensures Encoded(s) == EncodeFrom(Bits(acc, 0), s) + [PAD, PAD]
  {
    hide *;
    EncodedOne(s);
    OneByte(acc, s);
    PushFirst(acc, s[0]);
    LastOf(Shifted(acc, s[0]));
    EncodeNothing(Bits(Shifted(acc, s[0]), 2));
    assert s[1..] == [];
    Joined([Symbol(s[0] as int / 4)], [Symbol(s[0] as int % 4 * 16)]);
  }

  lemma LoopTwo(acc: nat, s: seq<byte>)
    requires |s| == 2
    ensures Encoded(s) == EncodeFrom(Bits(acc, 0), s) + [PAD]
  {
    hide *;
    EncodedTwo(s);
    var next := TwoBytes(acc, s);
    LastOf(next);
    EncodeNothing(Bits(next, 4));
    assert s[2..] == [];
    Joined([Symbol(s[0] as int / 4), Symbol(s[0] as int % 4 * 16 + s[1] as int / 16)], [Symbol(s[1] as int % 16 * 4)]);
  }

  lemma Joined(a: seq<byte>, b: seq<byte>)
    requires |b| == 1 && 1 <= |a| <= 2
    ensures a + b == if |a| == 1 then [a[0], b[0]] else [a[0], a[1], b[0]]
  {
  }

  lemma EncodedOne(s: seq<byte>)
    requires |s| == 1
    ensures Encoded(s) == [Symbol(s[0] as int / 4), Symbol(s[0] as int % 4 * 16)] + [PAD, PAD]
  {
    hide Symbol;
  }

  lemma EncodedTwo(s: seq<byte>)
    requires |s| == 2
    ensures Encoded(s) == [Symbol(s[0] as int / 4), Symbol(s[0] as int % 4 * 16 + s[1] as int / 16),
                           Symbol(s[1] as int % 16 * 4)] + [PAD]
  {
    hide Symbol;
  }

  lemma PadsAre()
    ensures Pads(0) == [] && Pads(1) == [PAD, PAD] && Pads(2) == [PAD]
  {
  }

  lemma EncodeNothing(x: Bits)
    requires x.count < 6
    ensures EncodeFrom(x, []) == Last(x)
  {
  }

  // ---- decoding ----

  /** What the loop of decoding does with a value: a byte leaves when eight bits are there. */
  function Take(x: Bits, v: Sextet): (r: (seq<byte>, Bits))
    requires x.count < 8
    ensures r.1.count < 8
  {
    var acc, n := x.acc * 64 % WRAP + v, x.count + 6;
    if n >= 8 then ([Field(acc, n - 8, 256) as char], Bits(acc, n - 8)) else ([], Bits(acc, n))
  }

  predicate Skipped(c: byte) { IsSpace(c) || c == PAD }

  /** The loop of decoding: spaces and padding are skipped, anything else unknown ends it. */
  function DecodeFrom(x: Bits, t: seq<byte>): Option<seq<byte>>
    requires x.count < 8
    decreases |t|
  {
    if t == [] then Some([])
    else if Skipped(t[0]) then DecodeFrom(x, t[1..])
    else if Value(t[0]) == 64 then None
    else
      var (out, y) := Take(x, Value(t[0]));
      var rest := DecodeFrom(y, t[1..]);
      if rest.None? then None else Some(out + rest.value)
  }

  /** An error is the empty string. */
  function Decoded(t: seq<byte>): seq<byte> {
    var r := DecodeFrom(Bits(0, 0), t);
    if r.None? then [] else r.value
  }

  lemma DecodeStep(x: Bits, v: Sextet, t: seq<byte>)
    requires x.count < 8
    ensures var (out, y) := Take(x, v);
      DecodeFrom(x, [Symbol(v)] + t) ==
        if DecodeFrom(y, t).None? then None else Some(out + DecodeFrom(y, t).value)
  {
    hide Take;
    ValueOfSymbol(v);
    assert ([Symbol(v)] + t)[1..] == t;
  }

  function Moved(acc: nat, v: Sextet): nat { acc * 64 % WRAP + v }

  /** The accumulator after a value: what was below, and the value. */
  lemma MovedParts(acc: nat, v: Sextet) returns (x: nat)
    ensures Moved(acc, v) == 64 * x + v && x % 64 == acc % 64
  {
    x := acc % 0x400_0000;
    var q := acc / 0x400_0000;
    assert acc * 64 == q * WRAP + x * 64;
    ModOf(q, x * 64);
    assert acc == 64 * (q * 0x10_0000) + x;
    Mod64(x / 64, x % 64);
    assert acc == 64 * (q * 0x10_0000 + x / 64) + x % 64;
    Mod64(q * 0x10_0000 + x / 64, x % 64);
  }

  lemma Mod256(k: int, r: nat)
    requires r < 256
    ensures (256 * k + r) % 256 == r
  {
  }

  /** Where the bytes are in values that follow each other. */
  lemma Bytes(x: nat, v: Sextet)
    ensures (64 * x + v) / 16 % 256 == x % 64 * 4 + v / 16
    ensures (64 * x + v) / 4 % 256 == x % 16 * 16 + v / 4
    ensures (64 * x + v) % 256 == x % 4 * 64 + v
    ensures (64 * x + v) % 64 == v
  {
    assert (64 * x + v) / 16 == 256 * (x / 64) + (x % 64 * 4 + v / 16);
    Mod256(x / 64, x % 64 * 4 + v / 16);
    assert (64 * x + v) / 4 == 256 * (x / 16) + (x % 16 * 16 + v / 4);
    Mod256(x / 16, x % 16 * 16 + v / 4);
    assert 64 * x + v == 256 * (x / 4) + (x % 4 * 64 + v);
    Mod256(x / 4, x % 4 * 64 + v);
    Mod64(x, v);
  }

  lemma Residues(n: nat, m: nat)
    requires n % 64 == m % 64
    ensures n % 16 == m % 16 && n % 4 == m % 4
  {
    SameLow(n);
    SameLow(m);
  }

  lemma SameLow(n: nat)
    ensures n % 16 == n % 64 % 16 && n % 4 == n % 64 % 4
  {
    var a, r := n / 64, n % 64;
    assert n == 16 * (4 * a + r / 16) + r % 16;
    Mod16(4 * a + r / 16, r % 16);
    assert n == 4 * (16 * a + r / 4) + r % 4;
    Mod4(16 * a + r / 4, r % 4);
  }

  /** What each value gives after 0, 6, 4 or 2 collected bits. */
  lemma TakeAny(acc: nat, v: Sextet)
    ensures Take(Bits(acc, 0), v) == ([], Bits(Moved(acc, v), 6))
    ensures Take(Bits(acc, 6), v) == ([(acc % 64 * 4 + v / 16) as char], Bits(Moved(acc, v), 4))
    ensures Take(Bits(acc, 4), v) == ([(acc % 16 * 16 + v / 4) as char], Bits(Moved(acc, v), 2))
    ensures Take(Bits(acc, 2), v) == ([(acc % 4 * 64 + v) as char], Bits(Moved(acc, v), 0))
    ensures Moved(acc, v) % 64 == v
  {
    Powers();
    var x := MovedParts(acc, v);
    Residues(x, acc);
    Bytes(x, v);
  }

  function Prefixed(out: seq<byte>, r: Option<seq<byte>>): Option<seq<byte>> {
    if r.None? then None else Some(out + r.value)
  }

  lemma TwoValues(acc: nat, v: Sextet, w: Sextet, t: seq<byte>) returns (next: nat)
    ensures DecodeFrom(Bits(acc, 0), [Symbol(v), Symbol(w)] + t) ==
      Prefixed([(v * 4 + w / 16) as char], DecodeFrom(Bits(next, 4), t))
    ensures next % 64 == w
  {
    hide Take, Symbol, Moved, DecodeFrom;
    TakeAny(acc, v);
    var a := Moved(acc, v);
    TakeAny(a, w);
    next := Moved(a, w);
    DecodeStep(Bits(acc, 0), v, [Symbol(w)] + t);
    DecodeStep(Bits(a, 6), w, t);
    assert [Symbol(v), Symbol(w)] + t == [Symbol(v)] + ([Symbol(w)] + t);
    Whole(DecodeFrom(Bits(a, 6), [Symbol(w)] + t));
  }

  lemma Whole(r: Option<seq<byte>>)
    ensures Prefixed([], r) == r
  {
    if r.Some? {
      assert [] + r.value == r.value;
    }
  }

  lemma ThreeValues(acc: nat, v: Sextet, w: Sextet, x: Sextet, t: seq<byte>) returns (next: nat)
    ensures DecodeFrom(Bits(acc, 0), [Symbol(v), Symbol(w), Symbol(x)] + t) ==
      Prefixed([(v * 4 + w / 16) as char, (w % 16 * 16 + x / 4) as char], DecodeFrom(Bits(next, 2), t))
    ensures next % 64 == x
  {
    hide Take, Symbol, Moved, DecodeFrom;
    var b := TwoValues(acc, v, w, [Symbol(x)] + t);
    TakeAny(b, x);
    next := Moved(b, x);
    Residues(b, w);
    DecodeStep(Bits(b, 4), x, t);
    assert [Symbol(v), Symbol(w), Symbol(x)] + t == [Symbol(v), Symbol(w)] + ([Symbol(x)] + t);
    var p, q := [(v * 4 + w / 16) as char], [(w % 16 * 16 + x / 4) as char];
    assert p + q == [(v * 4 + w / 16) as char, (w % 16 * 16 + x / 4) as char];
    Twice(p, q, DecodeFrom(Bits(next, 2), t));
  }

  lemma Twice(a: seq<byte>, b: seq<byte>, r: Option<seq<byte>>)
    ensures Prefixed(a, Prefixed(b, r)) == Prefixed(a + b, r)
  {
    if r.Some? {
      assert a + (b + r.value) == (a + b) + r.value;
    }
  }

  lemma FourValues(acc: nat, v: Sextet, w: Sextet, x: Sextet, y: Sextet, t: seq<byte>) returns (next: nat)
    ensures DecodeFrom(Bits(acc, 0), [Symbol(v), Symbol(w), Symbol(x), Symbol(y)] + t) ==
      Prefixed([(v * 4 + w / 16) as char, (w % 16 * 16 + x / 4) as char, (x % 4 * 64 + y) as char],
               DecodeFrom(Bits(next, 0), t))
  {
    hide Take, Symbol, Moved, DecodeFrom;
    var b := ThreeValues(acc, v, w, x, [Symbol(y)] + t);
    TakeAny(b, y);
    next := Moved(b, y);
    Residues(b, x);
    DecodeStep(Bits(b, 2), y, t);
    assert [Symbol(v), Symbol(w), Symbol(x), Symbol(y)] + t == [Symbol(v), Symbol(w), Symbol(x)] + ([Symbol(y)] + t);
    var p, q := [(v * 4 + w / 16) as char, (w % 16 * 16 + x / 4) as char], [(x % 4 * 64 + y) as char];
    assert p + q == [(v * 4 + w / 16) as char, (w % 16 * 16 + x / 4) as char, (x % 4 * 64 + y) as char];
    Twice(p, q, DecodeFrom(Bits(next, 0), t));
  }

  lemma PadsEnd(x: Bits)
    requires x.count < 8
    ensures DecodeFrom(x, [PAD]) == Some([]) && DecodeFrom(x, [PAD, PAD]) == Some([])
  {
    assert [PAD][1..] == [] && [PAD, PAD][1..] == [PAD];
  }

  /** The bytes of a group, from the values it was cut into. */
  lemma Regrouped(a: nat, b: nat, c: nat)
    requires a < 256 && b < 256 && c < 256
    ensures a / 4 * 4 + (a % 4 * 16 + b / 16) / 16 == a
    ensures (a % 4 * 16 + b / 16) % 16 * 16 + (b % 16 * 4 + c / 64) / 4 == b
    ensures (b % 16 * 4 + c / 64) % 4 * 64 + c % 64 == c
  {
  }

  /** Decoding gives back what was encoded, whatever the accumulator held. */
  lemma {:induction false} DecodesTheRfc(acc: nat, s: seq<byte>)
    ensures DecodeFrom(Bits(acc, 0), Encoded(s)) == Some(s)
    decreases |s|
  {
    hide Take, Symbol, Moved, DecodeFrom;
    if s == [] {
      DecodeNothing(Bits(acc, 0));
    } else if |s| == 1 {
      Regrouped(s[0] as int, 0, 0);
      var v, w := s[0] as int / 4, s[0] as int % 4 * 16;
      var next := TwoValues(acc, v, w, [PAD, PAD]);
      PadsEnd(Bits(next, 4));
      EncodedOne(s);
      assert [s[0]] + [] == s;
    } else if |s| == 2 {
      Regrouped(s[0] as int, s[1] as int, 0);
      var v, w, x := s[0] as int / 4, s[0] as int % 4 * 16 + s[1] as int / 16, s[1] as int % 16 * 4;
      var next := ThreeValues(acc, v, w, x, [PAD]);
      PadsEnd(Bits(next, 2));
      EncodedTwo(s);
      assert [s[0], s[1]] + [] == s;
    } else {
      var a, b, c := s[0] as int, s[1] as int, s[2] as int;
      Regrouped(a, b, c);
      EncodedGroup(s);
      DecodesGroup(acc, s, a / 4, a % 4 * 16 + b / 16, b % 16 * 4 + c / 64, c % 64);
    }
  }

  lemma DecodesGroup(acc: nat, s: seq<byte>, v: Sextet, w: Sextet, x: Sextet, y: Sextet)
    requires |s| >= 3 && Encoded(s) == [Symbol(v), Symbol(w), Symbol(x), Symbol(y)] + Encoded(s[3..])
    requires v * 4 + w / 16 == s[0] as int && w % 16 * 16 + x / 4 == s[1] as int && x % 4 * 64 + y == s[2] as int
    ensures DecodeFrom(Bits(acc, 0), Encoded(s)) == Some(s)
    decreases |s|, 0
  {
    hide Take, Symbol, Moved, DecodeFrom, Encoded;
    var next := FourValues(acc, v, w, x, y, Encoded(s[3..]));
    DecodesTheRfc(next, s[3..]);
    assert [s[0], s[1], s[2]] + s[3..] == s;
  }

  lemma EncodedGroup(s: seq<byte>)
    requires |s| >= 3
    ensures var a, b, c := s[0] as int, s[1] as int, s[2] as int;
      Encoded(s) == [Symbol(a / 4), Symbol(a % 4 * 16 + b / 16), Symbol(b % 16 * 4 + c / 64), Symbol(c % 64)]
                    + Encoded(s[3..])
  {
    hide Symbol;
  }

  lemma DecodeNothing(x: Bits)
    requires x.count < 8
    ensures DecodeFrom(x, []) == Some([])
  {
  }

  /** The two loops invert each other. */
  lemma RoundTrip(s: seq<byte>)
    ensures Decoded(Encoded(s)) == s
  {
    DecodesTheRfc(0, s);
  }

  function WithoutSkipped(t: seq<byte>): seq<byte> {
    if t == [] then [] else (if Skipped(t[0]) then [] else [t[0]]) + WithoutSkipped(t[1..])
  }

  /** Spaces and padding, wherever they are, do not matter. */
  lemma {:induction false} SkippedDoNotMatter(x: Bits, t: seq<byte>)
    requires x.count < 8
    ensures DecodeFrom(x, t) == DecodeFrom(x, WithoutSkipped(t))
    decreases |t|
  {
    hide Take, Value;
    if t == [] {
    } else {
      if Skipped(t[0]) {
        SkippedDoNotMatter(x, t[1..]);
        assert [] + WithoutSkipped(t[1..]) == WithoutSkipped(t[1..]);
      } else {
        assert ([t[0]] + WithoutSkipped(t[1..]))[1..] == WithoutSkipped(t[1..]);
        if Value(t[0]) < 64 {
          SkippedDoNotMatter(Take(x, Value(t[0])).1, t[1..]);
        }
      }
    }
  }

  // ---- the loops ----

  /** The state of the encoding loop: what was put in front of the padding, and what is to come. */
  ghost predicate Written(text: seq<byte>, all: seq<byte>, pos: nat, todo: seq<byte>) {
    pos <= |all| <= |text| && all[pos..] == todo && text == all[..pos] + seq(|text| - pos, _ => PAD)
  }

  lemma WriteOne(text: seq<byte>, all: seq<byte>, pos: nat, c: byte, todo: seq<byte>)
    requires Written(text, all, pos, [c] + todo)
    ensures pos < |text| && Written(text[pos := c], all, pos + 1, todo)
  {
    assert all[pos..][1..] == todo && all[pos..][0] == c;
    assert all[..pos + 1] == all[..pos] + [c];
  }

  method Base64Encode(s: seq<byte>) returns (t: seq<byte>)
    requires s != []
    ensures t == Encoded(s)
  {
    hide Symbol, Shifted, Written, Field, Encoded, EncodeFrom, Last;
    t := seq((|s| + 2) / 3 * 4, _ => PAD);
    var pos: nat, acc: nat, count: nat := 0, 0, 0;
    ghost var all := EncodeFrom(Bits(0, 0), s);
    LoopIsRfc(0, s);
    BeginsWritten(t, all);
    var i := 0;
    while i < |s|
      invariant 0 <= i <= |s| && count < 6 && |t| == |Encoded(s)|
      invariant Written(t, all, pos, EncodeFrom(Bits(acc, count), s[i..]))
    {
      EncodeStep(Bits(acc, count), s[i..]);
      assert s[i..][1..] == s[i + 1..];
      acc, count := Shifted(acc, s[i]), count + 8;
      ghost var end := Emit(Bits(acc, count)).1;
      while count >= 6
        invariant end == Emit(Bits(acc, count)).1 && |t| == |Encoded(s)|
        invariant Written(t, all, pos, Emit(Bits(acc, count)).0 + EncodeFrom(end, s[i + 1..]))
      {
        count := count - 6;
        var c := Symbol(Field(acc, count, 64));
        EmitStep(Bits(acc, count + 6), EncodeFrom(end, s[i + 1..]));
        WriteOne(t, all, pos, c, Emit(Bits(acc, count)).0 + EncodeFrom(end, s[i + 1..]));
        t := t[pos := c];
        pos := pos + 1;
      }
      assert [] + EncodeFrom(end, s[i + 1..]) == EncodeFrom(end, s[i + 1..]);
      i := i + 1;
    }
    assert s[i..] == [];
    EncodeNothing(Bits(acc, count));
    if count > 0 {
      var c := Symbol(Field(acc * Power2(6 - count) % WRAP, 0, 64));
      LastIs(Bits(acc, count));
      assert [c] + [] == [c];
      WriteOne(t, all, pos, c, []);
      t := t[pos := c];
      pos := pos + 1;
    } else {
      LastIs(Bits(acc, count));
    }
    EndsWritten(t, all, pos, s);
  }

  lemma BeginsWritten(text: seq<byte>, all: seq<byte>)
    requires |all| <= |text| && text == seq(|text|, _ => PAD)
    ensures Written(text, all, 0, all)
  {
  }

  lemma LastIs(x: Bits)
    requires x.count < 6
    ensures Last(x) == if x.count > 0 then [Symbol(Field(x.acc * Power2(6 - x.count) % WRAP, 0, 64))] else []
  {
  }

  lemma EmitStep(x: Bits, more: seq<byte>)
    requires x.count >= 6
    ensures var y := x.(count := x.count - 6);
      Emit(x).0 + more == [Symbol(Field(x.acc, y.count, 64))] + (Emit(y).0 + more) && Emit(x).1 == Emit(y).1
  {
    hide Symbol, Field;
  }

  /** The asserts at the end of the loop hold: at most two characters of padding stay. */
  lemma EndsWritten(text: seq<byte>, all: seq<byte>, pos: nat, s: seq<byte>)
    requires Written(text, all, pos, []) && |text| == |Encoded(s)| && Encoded(s) == all + Pads(|s|)
    ensures text == Encoded(s) && |text| - 2 <= pos <= |text|
  {
    assert all[..pos] == all;
  }

  method Base64Decode(t: seq<byte>) returns (s: seq<byte>)
    ensures s == Decoded(t)
  {
    hide Value, Field, Take;
    s := [];
    var acc: nat, count: nat := 0, 0;
    ghost var whole := DecodeFrom(Bits(0, 0), t);
    Whole(whole);
    var i := 0;
    while i < |t|
      invariant 0 <= i <= |t| && count < 8
      invariant whole == Prefixed(s, DecodeFrom(Bits(acc, count), t[i..]))
    {
      assert t[i..][1..] == t[i + 1..];
      var c := t[i];
      if Skipped(c) {
        i := i + 1;
        continue;
      }
      if Value(c) > 63 {
        s := [];
        return;
      }
      TakeIs(Bits(acc, count), Value(c));
      Twice(s, Take(Bits(acc, count), Value(c)).0, DecodeFrom(Take(Bits(acc, count), Value(c)).1, t[i + 1..]));
      acc, count := acc * 64 % WRAP + Value(c), count + 6;
      if count >= 8 {
        count := count - 8;
        s := s + [Field(acc, count, 256) as char];
      } else {
        assert s + [] == s;
      }
      i := i + 1;
    }
    assert t[i..] == [];
    assert s + [] == s;
  }

  lemma TakeIs(x: Bits, v: Sextet)
    requires x.count < 8
    ensures var acc, n := x.acc * 64 % WRAP + v, x.count + 6;
      Take(x, v) == if n >= 8 then ([Field(acc, n - 8, 256) as char], Bits(acc, n - 8)) else ([], Bits(acc, n))
  {
  }
}
