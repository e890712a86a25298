/** The MD5 digest: RFC 1321 as it is written, and the loop of the token validator. */
module Md5 {

  // ---- sections 2 and 3 of RFC 1321 ----

  datatype Four<T> = Four(A: T, B: T, C: T, D: T)

  type Registers = Four<bv32>

  /** Section 3.3. */
  const INITIAL: Registers := Four(0x67452301, 0xefcdab89, 0x98badcfe, 0x10325476)

  /** The table T of section 3.4, round by round. */
  const T1: seq<bv32> := [
    0xd76aa478, 0xe8c7b756, 0x242070db, 0xc1bdceee,
    0xf57c0faf, 0x4787c62a, 0xa8304613, 0xfd469501,
    0x698098d8, 0x8b44f7af, 0xffff5bb1, 0x895cd7be,
    0x6b901122, 0xfd987193, 0xa679438e, 0x49b40821]

  const T2: seq<bv32> := [
    0xf61e2562, 0xc040b340, 0x265e5a51, 0xe9b6c7aa,
    0xd62f105d, 0x02441453, 0xd8a1e681, 0xe7d3fbc8,
    0x21e1cde6, 0xc33707d6, 0xf4d50d87, 0x455a14ed,
    0xa9e3e905, 0xfcefa3f8, 0x676f02d9, 0x8d2a4c8a]

  const T3: seq<bv32> := [
    0xfffa3942, 0x8771f681, 0x6d9d6122, 0xfde5380c,
    0xa4beea44, 0x4bdecfa9, 0xf6bb4b60, 0xbebfbc70,
    0x289b7ec6, 0xeaa127fa, 0xd4ef3085, 0x04881d05,
    0xd9d4d039, 0xe6db99e5, 0x1fa27cf8, 0xc4ac5665]

  const T4: seq<bv32> := [
    0xf4292244, 0x432aff97, 0xab9423a7, 0xfc93a039,
    0x655b59c3, 0x8f0ccc92, 0xffeff47d, 0x85845dd1,
    0x6fa87e4f, 0xfe2ce6e0, 0xa3014314, 0x4e0811a1,
    0xf7537e82, 0xbd3af235, 0x2ad7d2bb, 0xeb86d391]

  type WordIndex = k: int | 0 <= k < 16

  type Shift = s: int | 0 < s < 32 witness 1

  /** The word and the shift of an operation of section 3.4: what `[abcd k s i]` lists. */
  datatype Op = Op(k: WordIndex, s: Shift)

  const ROUND1: seq<Op> := [
    Op(0, 7), Op(1, 12), Op(2, 17), Op(3, 22),
    Op(4, 7), Op(5, 12), Op(6, 17), Op(7, 22),
    Op(8, 7), Op(9, 12), Op(10, 17), Op(11, 22),
    Op(12, 7), Op(13, 12), Op(14, 17), Op(15, 22)]

  const ROUND2: seq<Op> := [
    Op(1, 5), Op(6, 9), Op(11, 14), Op(0, 20),
    Op(5, 5), Op(10, 9), Op(15, 14), Op(4, 20),
    Op(9, 5), Op(14, 9), Op(3, 14), Op(8, 20),
    Op(13, 5), Op(2, 9), Op(7, 14), Op(12, 20)]

  const ROUND3: seq<Op> := [
    Op(5, 4), Op(8, 11), Op(11, 16), Op(14, 23),
    Op(1, 4), Op(4, 11), Op(7, 16), Op(10, 23),
    Op(13, 4), Op(0, 11), Op(3, 16), Op(6, 23),
    Op(9, 4), Op(12, 11), Op(15, 16), Op(2, 23)]

  const ROUND4: seq<Op> := [
    Op(0, 6), Op(7, 10), Op(14, 15), Op(5, 21),
    Op(12, 6), Op(3, 10), Op(10, 15), Op(1, 21),
    Op(8, 6), Op(15, 10), Op(6, 15), Op(13, 21),
    Op(4, 6), Op(11, 10), Op(2, 15), Op(9, 21)]

  function OpAt(i: nat): Op
    requires i < 64
  {
    if i < 16 then ROUND1[i] else if i < 32 then ROUND2[i - 16] else if i < 48 then ROUND3[i - 32] else ROUND4[i - 48]
  }

  function TAt(i: nat): bv32
    requires i < 64
  {
    if i < 16 then T1[i] else if i < 32 then T2[i - 16] else if i < 48 then T3[i - 32] else T4[i - 48]
  }

  function RotateLeft(x: bv32, n: Shift): bv32 {
    (x << n) | (x >> (32 - n))
  }

  /** The auxiliary functions F, G, H and I of section 3.4. */
  function Auxiliary(round: nat, x: bv32, y: bv32, z: bv32): bv32 {
    if round == 0 then (x & y) | (!x & z)
    else if round == 1 then (x & z) | (y & !z)
    else if round == 2 then x ^ y ^ z
    else y ^ (x | !z)
  }

  function Sum(a: bv32, f: bv32, x: bv32, t: bv32): bv32 { a + f + x + t }

  function Turn(b: bv32, sum: bv32, s: Shift): bv32 { b + RotateLeft(sum, s) }

  /** `a = b + ((a + F(b,c,d) + X[k] + T[i]) <<< s)`. */
  function Operate(a: bv32, b: bv32, c: bv32, d: bv32, x: seq<bv32>, i: nat): bv32
    requires |x| == 16 && i < 64
  {
    Turn(b, Sum(a, Auxiliary(i / 16, b, c, d), x[OpAt(i).k], TAt(i)), OpAt(i).s)
  }

  /** Operation `i` changes A, D, C, B in turn. */
  function DoOp(r: Registers, x: seq<bv32>, i: nat): Registers
    requires |x| == 16 && i < 64
  {
    DoTurn(r, x, i, i % 4)
  }

  function DoTurn(r: Registers, x: seq<bv32>, i: nat, turn: nat): Registers
    requires |x| == 16 && i < 64
  {
    if turn == 0 then r.(A := Operate(r.A, r.B, r.C, r.D, x, i))
    else if turn == 1 then r.(D := Operate(r.D, r.A, r.B, r.C, x, i))
    else if turn == 2 then r.(C := Operate(r.C, r.D, r.A, r.B, x, i))
    else r.(B := Operate(r.B, r.C, r.D, r.A, x, i))
  }

  function DoOps(r: Registers, x: seq<bv32>, n: nat): Registers
    requires |x| == 16 && n <= 64
  {
    if n == 0 then r else DoOp(DoOps(r, x, n - 1), x, n - 1)
  }

  function Add(r: Registers, s: Registers): Registers {
    Four(r.A + s.A, r.B + s.B, r.C + s.C, r.D + s.D)
  }

  /** Four bytes, the low-order one first. */
  function Word(b: seq<bv8>): bv32
    requires |b| >= 4
  {
    b[0] as bv32 | (b[1] as bv32 << 8) | (b[2] as bv32 << 16) | (b[3] as bv32 << 24)
  }

  function WordBytes(v: bv32): (b: seq<bv8>)
    ensures |b| == 4
  {
    [(v & 0xFF) as bv8, ((v >> 8) & 0xFF) as bv8, ((v >> 16) & 0xFF) as bv8, ((v >> 24) & 0xFF) as bv8]
  }

  lemma WordReadBack(v: bv32)
    ensures Word(WordBytes(v)) == v
  {
  }

  function Words(block: seq<bv8>): (x: seq<bv32>)
    requires |block| == 64
    ensures |x| == 16
  {
    seq(16, j requires 0 <= j < 16 => Word(block[4 * j..]))
  }

  function Process(r: Registers, block: seq<bv8>): Registers
    requires |block| == 64
  {
    Add(r, DoOps(r, Words(block), 64))
  }

  /** Section 3.4: the blocks of 16 words, in order. */
  function ProcessAll(r: Registers, m: seq<bv8>): Registers
    requires |m| % 64 == 0
  {
    if m == [] then r else Process(ProcessAll(r, m[..|m| - 64]), m[|m| - 64..])
  }

  /** A number of bits as a 64-bit quantity, the low-order word first (section 3.2). */
  function Low(n: nat): bv32 { (n % 0x1_0000_0000) as bv32 }

  function LengthBytes(bits: nat): (b: seq<bv8>)
    ensures |b| == 8
  {
    WordBytes(Low(bits)) + WordBytes(Low(bits / 0x1_0000_0000))
  }

  /** Section 3.1: how many zero bytes follow the first one, that has a single bit. */
  function ZeroBytes(n: nat): nat { if n % 64 <= 55 then 55 - n % 64 else 119 - n % 64 }

  /** They are the fewest that leave room for the length. */
  lemma FewestZeros(n: nat, z: nat)
    ensures (n + 1 + ZeroBytes(n)) % 64 == 56 && (n + 1 + ZeroBytes(n) + 8) % 64 == 0
    ensures (n + 1 + z) % 64 == 56 ==> ZeroBytes(n) <= z
  {
    var q, m := n / 64, n % 64;
    assert n == 64 * q + m;
    assert n + 1 + ZeroBytes(n) == if m <= 55 then 64 * q + 56 else 64 * (q + 1) + 56;
    if (n + 1 + z) % 64 == 56 && z < 64 {
      assert n + 1 + z == 64 * ((n + 1 + z) / 64) + 56;
    }
  }

  /** What section 3 appends to a message of `n` bytes. */
  function Padding(n: nat): (p: seq<bv8>)
    ensures (n + |p|) % 64 == 0
  {
    FewestZeros(n, 0);
    var p := [0x80] + seq(ZeroBytes(n), _ => 0) + LengthBytes(8 * n);
    assert n + |p| == n + 1 + ZeroBytes(n) + 8;
    p
  }

  function Padded(m: seq<bv8>): (p: seq<bv8>)
    ensures |p| % 64 == 0 && m <= p
  {
    m + Padding(|m|)
  }

  /** Section 3.5. */
  function Output(r: Registers): seq<bv8> {
    WordBytes(r.A) + WordBytes(r.B) + WordBytes(r.C) + WordBytes(r.D)
  }

  function Digest(m: seq<bv8>): seq<bv8> { Output(ProcessAll(INITIAL, Padded(m))) }

  // ---- the loop of the token validator ----

  /** The shifts, 16 for each round. */
  const R1: seq<Shift> := [7, 12, 17, 22, 7, 12, 17, 22, 7, 12, 17, 22, 7, 12, 17, 22]

  const R2: seq<Shift> := [5, 9, 14, 20, 5, 9, 14, 20, 5, 9, 14, 20, 5, 9, 14, 20]

  const R3: seq<Shift> := [4, 11, 16, 23, 4, 11, 16, 23, 4, 11, 16, 23, 4, 11, 16, 23]

  const R4: seq<Shift> := [6, 10, 15, 21, 6, 10, 15, 21, 6, 10, 15, 21, 6, 10, 15, 21]

  function RAt(i: nat): Shift
    requires i < 64
  {
    if i < 16 then R1[i] else if i < 32 then R2[i - 16] else if i < 48 then R3[i - 32] else R4[i - 48]
  }

  function G(i: nat): WordIndex {
    if i < 16 then i else if i < 32 then (5 * i + 1) % 16 else if i < 48 then (3 * i + 5) % 16 else (7 * i) % 16
  }

  lemma TablesAgree(i: nat)
    requires i < 64
    ensures OpAt(i) == Op(G(i), RAt(i))
  {
    if i < 16 {
      Round1(i);
    } else if i < 32 {
      Round2(i - 16);
    } else if i < 48 {
      Round3(i - 32);
    } else {
      Round4(i - 48);
    }
  }

  lemma Round1(j: nat)
    requires j < 16
    ensures ROUND1[j] == Op(j, R1[j])
  {
  }

  lemma Round2(j: nat)
    requires j < 16
    ensures ROUND2[j] == Op((5 * (16 + j) + 1) % 16, R2[j])
  {
  }

  lemma Round3(j: nat)
    requires j < 16
    ensures ROUND3[j] == Op((3 * (32 + j) + 5) % 16, R3[j])
  {
  }

  lemma Round4(j: nat)
    requires j < 16
    ensures ROUND4[j] == Op((7 * (48 + j)) % 16, R4[j])
  {
  }

  /** The registers in the order in which the loop holds them after `i` operations. */
  function Rotated(r: Registers, i: nat): Registers { InTurn(r, i % 4) }

  function InTurn<T>(r: Four<T>, turn: nat): Four<T> {
    if turn == 0 then r
    else if turn == 1 then Four(r.D, r.A, r.B, r.C)
    else if turn == 2 then Four(r.C, r.D, r.A, r.B)
    else Four(r.B, r.C, r.D, r.A)
  }

  /** What the loop computes of three registers in its pass `i`. */
  function Function(i: nat, b: bv32, c: bv32, d: bv32): bv32 {
    if i < 16 then (b & c) | (!b & d)
    else if i < 32 then (d & b) | (!d & c)
    else if i < 48 then b ^ c ^ d
    else c ^ (b | !d)
  }

  lemma FunctionIsAuxiliary(i: nat, b: bv32, c: bv32, d: bv32)
    requires i < 64
    ensures Function(i, b, c, d) == Auxiliary(i / 16, b, c, d)
  {
    assert (d & b) | (!d & c) == (b & d) | (c & !d);
  }

  lemma SumEitherWay(a: bv32, f: bv32, x: bv32, t: bv32)
    ensures Sum(a, f, x, t) == Sum(a, f, t, x)
  {
  }

  /** One pass of the loop: the function and the word are computed, and the registers shift. */
  function Pass(q: Registers, w: seq<bv32>, i: nat): Registers
    requires |w| == 16 && i < 64
  {
    var Four(a, b, c, d) := q;
    Four(d, Turn(b, Sum(a, Function(i, b, c, d), TAt(i), w[G(i)]), RAt(i)), b, c)
  }

  lemma PassOperates(a: bv32, b: bv32, c: bv32, d: bv32, w: seq<bv32>, i: nat)
    requires |w| == 16 && i < 64
    ensures Pass(Four(a, b, c, d), w, i) == Four(d, Operate(a, b, c, d, w, i), b, c)
  {
    hide Turn, Sum, Function, Auxiliary, OpAt, TAt, RAt, G;
    TablesAgree(i);
    FunctionIsAuxiliary(i, b, c, d);
    SumEitherWay(a, Function(i, b, c, d), w[G(i)], TAt(i));
  }

  lemma PassIsOperation(r: Registers, w: seq<bv32>, i: nat)
    requires |w| == 16 && i < 64
    ensures Pass(Rotated(r, i), w, i) == Rotated(DoOp(r, w, i), i + 1)
  {
    hide Pass, Operate, InTurn, DoTurn, Changed;
    var Four(a, b, c, d) := Rotated(r, i);
    PassOperates(a, b, c, d, w, i);
    RotatedNext(r, Operate(a, b, c, d, w, i), i);
    DoOpChanges(r, w, i, i % 4);
  }

  lemma DoOpChanges(r: Registers, w: seq<bv32>, i: nat, turn: nat)
    requires |w| == 16 && i < 64
    ensures var Four(a, b, c, d) := InTurn(r, turn);
      DoTurn(r, w, i, turn) == Changed(r, turn, Operate(a, b, c, d, w, i))
  {
    hide Operate;
  }

  /** The register whose turn it is gets a value. */
  function Changed<T>(r: Four<T>, turn: nat, v: T): Four<T> {
    if turn == 0 then Four(v, r.B, r.C, r.D)
    else if turn == 1 then Four(r.A, r.B, r.C, v)
    else if turn == 2 then Four(r.A, r.B, v, r.D)
    else Four(r.A, v, r.C, r.D)
  }

  lemma RotatedNext(r: Registers, v: bv32, i: nat)
    ensures var Four(a, b, c, d) := Rotated(r, i); Rotated(Changed(r, i % 4, v), i + 1) == Four(d, v, b, c)
  {
    hide InTurn, Changed;
    NextInTurn(i);
    TurnNext(r, v, i % 4);
  }

  lemma TurnNext<T>(r: Four<T>, v: T, turn: nat)
    requires turn < 4
    ensures var Four(a, b, c, d) := InTurn(r, turn);
      InTurn(Changed(r, turn, v), if turn == 3 then 0 else turn + 1) == Four(d, v, b, c)
  {
  }

  lemma NextInTurn(i: nat)
    ensures (i + 1) % 4 == if i % 4 == 3 then 0 else i % 4 + 1
  {
  }

  method ReadWords(block: seq<bv8>) returns (w: array<bv32>)
    requires |block| == 64
    ensures fresh(w) && w.Length == 16 && w[..] == Words(block)
  {
    hide Word;
    w := new bv32[16];
    var i := 0;
    while i < 16
      invariant 0 <= i <= 16
      invariant forall j :: 0 <= j < i ==> w[j] == Word(block[4 * j..])
    {
      w[i] := Word(block[4 * i..]);
      i := i + 1;
    }
  }

  method ProcessBlock(h: Registers, block: seq<bv8>) returns (r: Registers)
    requires |block| == 64
    ensures r == Process(h, block)
  {
    hide DoOp, Pass, Words, Rotated;
    var w := ReadWords(block);
    var q := h;
    assert q == Rotated(h, 0) by {
      RotatedBack(h, 0);
    }
    var i := 0;
    while i < 64
      invariant 0 <= i <= 64 && w[..] == Words(block)
      invariant q == Rotated(DoOps(h, Words(block), i), i)
    {
      PassIsOperation(DoOps(h, Words(block), i), Words(block), i);
      q := Pass(q, w[..], i);
      i := i + 1;
    }
    RotatedBack(DoOps(h, Words(block), 64), 64);
    r := Add(h, q);
  }

  lemma RotatedBack(r: Registers, i: nat)
    requires i % 4 == 0
    ensures Rotated(r, i) == r
  {
  }

  lemma BitsOfLength(n: nat)
    requires n < 0x2000_0000_0000_0000
    ensures LengthBytes(8 * n) == WordBytes(Low(n * 8)) + WordBytes(Low(n / 0x2000_0000))
  {
    hide WordBytes, Low;
    assert 8 * n / 0x1_0000_0000 == n / 0x2000_0000;
  }

  method Pad(message: seq<bv8>) returns (msg: seq<bv8>, newLen: nat)
    requires |message| < 0x2000_0000_0000_0000
    ensures msg == Padded(message) && |msg| == newLen + 8
  {
    hide WordBytes, Low;
    var n := |message|;
    newLen := n + 1;
    FewestZeros(n, 0);
    while newLen % 64 != 56
      invariant n + 1 <= newLen <= n + 1 + ZeroBytes(n)
      decreases n + 1 + ZeroBytes(n) - newLen
    {
      newLen := newLen + 1;
    }
    FewestZeros(n, newLen - n - 1);
    BitsOfLength(n);
    msg := message + ([0x80] + seq(newLen - n - 1, _ => 0) + (WordBytes(Low(n * 8)) + WordBytes(Low(n / 0x2000_0000))));
  }

  /** The token validator's digest is the one of RFC 1321. */
  method Md5Digest(message: seq<bv8>) returns (digest: seq<bv8>)
    requires |message| < 0x2000_0000_0000_0000
    ensures digest == Digest(message)
  {
    hide Process, Output, Padded;
    var msg, newLen := Pad(message);
    var h := INITIAL;
    var offset := 0;
    while offset < newLen
      invariant 0 <= offset <= |msg| && offset % 64 == 0
      invariant h == ProcessAll(INITIAL, msg[..offset])
    {
      OneMoreBlock(INITIAL, msg, offset);
      h := ProcessBlock(h, msg[offset..offset + 64]);
      offset := offset + 64;
    }
    assert msg[..offset] == msg;
    digest := Output(h);
  }

  lemma OneMoreBlock(r: Registers, m: seq<bv8>, k: nat)
    requires k % 64 == 0 && k + 64 <= |m|
    ensures ProcessAll(r, m[..k + 64]) == Process(ProcessAll(r, m[..k]), m[k..k + 64])
  {
    hide Process;
    var s := m[..k + 64];
    assert s[..|s| - 64] == m[..k] && s[|s| - 64..] == m[k..k + 64];
  }
}
