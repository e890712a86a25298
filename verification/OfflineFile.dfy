/** The file of an offline transfer: a header of text fields, then the bytes of the transfer. */
module OfflineFile {
  import opened CBytes

  const NUL: byte := '\0'

  type uint32 = n: int | 0 <= n < 0x1_0000_0000

  const HEADER_SIZE: nat := 960

  /** A `char` array of `n` bytes, cleared, with a text copied into it. */
  function Field(text: seq<byte>, n: nat): (f: seq<byte>)
    requires |text| <= n
    ensures |f| == n
  {
    text + seq(n - |text|, _ => NUL)
  }

  /** The text that starts here: everything before the first NUL. */
  function Text(s: seq<byte>): (t: seq<byte>)
    ensures t <= s && NUL !in t && (t == s || s[|t|] == NUL)
  {
    if s == [] || s[0] == NUL then [] else [s[0]] + Text(s[1..])
  }

  /** `%u` and `%ld` of a number that is not negative. */
  function Decimal(n: nat): (s: seq<byte>)
    ensures s != [] && NUL !in s && forall i :: 0 <= i < |s| ==> IsNum(s[i])
    ensures DecValue(s) == n
  {
    var last := ['0' + (n % 10) as char];
    if n < 10 then last else Decimal(n / 10) + last
  }

  function Power10(k: nat): nat { if k == 0 then 1 else 10 * Power10(k - 1) }

  lemma {:induction false} DecimalLength(n: nat, k: nat)
    requires 0 < k && n < Power10(k)
    ensures |Decimal(n)| <= k
  {
    if n >= 10 {
      DecimalLength(n / 10, k - 1);
    }
  }

  /** `atoi`: space, a sign, digits. */
  function Atoi(s: seq<byte>): int {
    if s == [] then 0
    else if IsSpace(s[0]) then Atoi(s[1..])
    else if s[0] == '-' then 0 - DecValue(DigitPrefix(s[1..]))
    else DecValue(DigitPrefix(if s[0] == '+' then s[1..] else s))
  }

  /** `string2int`: the number, truncated to 32 bits. */
  function StringToInt(s: seq<byte>): uint32 { Atoi(s) % 0x1_0000_0000 }

  lemma {:induction false} DigitPrefixAll(s: seq<byte>)
    requires forall i :: 0 <= i < |s| ==> IsNum(s[i])
    ensures DigitPrefix(s) == s
  {
    if s == [] {
    } else {
      DigitPrefixAll(s[1..]);
    }
  }

  /** Leading space, a sign or none, and the digits up to the first other character. */
  lemma {:induction false} AtoiReads(space: seq<byte>, sign: seq<byte>, digits: seq<byte>, rest: seq<byte>)
    requires forall i :: 0 <= i < |space| ==> IsSpace(space[i])
    requires sign == [] || sign == ['+'] || sign == ['-']
    requires (forall i :: 0 <= i < |digits| ==> IsNum(digits[i])) && (rest == [] || !IsNum(rest[0]))
    requires sign == [] && digits == [] && rest != [] ==> !IsSpace(rest[0]) && rest[0] != '+' && rest[0] != '-'
    ensures Atoi(space + (sign + (digits + rest))) == if sign == ['-'] then 0 - DecValue(digits) else DecValue(digits)
    decreases |space|
  {
    hide DecValue;
    var s := sign + (digits + rest);
    if space == [] {
      assert space + s == s;
      DigitsThen(digits, rest);
      if sign == [] {
        assert s == digits + rest;
      } else {
        assert s[1..] == digits + rest;
      }
      assert DecValue([]) == 0 by { NoDigits(); }
    } else {
      assert (space + s)[1..] == space[1..] + s;
      AtoiReads(space[1..], sign, digits, rest);
    }
  }

  lemma NoDigits()
    ensures DecValue([]) == 0
  {
  }

  lemma {:induction false} DigitsThen(digits: seq<byte>, rest: seq<byte>)
    requires (forall i :: 0 <= i < |digits| ==> IsNum(digits[i])) && (rest == [] || !IsNum(rest[0]))
    ensures DigitPrefix(digits + rest) == digits
  {
    if digits == [] {
      assert digits + rest == rest;
    } else {
      assert (digits + rest)[1..] == digits[1..] + rest;
      DigitsThen(digits[1..], rest);
    }
  }

  lemma NumberReadBack(n: uint32)
    ensures StringToInt(Decimal(n)) == n
  {
    var s := Decimal(n);
    DigitPrefixAll(s);
    assert IsNum(s[0]);
  }

  lemma {:induction false} TextOf(t: seq<byte>, rest: seq<byte>)
    requires NUL !in t && (rest == [] || rest[0] == NUL)
    ensures Text(t + rest) == t
  {
    if t != [] {
      assert (t + rest)[1..] == t[1..] + rest;
      TextOf(t[1..], rest);
    } else {
      assert t + rest == rest;
    }
  }

  // ---- the header ----

  datatype Info = Info(taskId: seq<byte>, fromUser: uint32, toUser: uint32, fileName: seq<byte>, size: uint32)

  /** The header that an upload writes; the name of the file is left empty. */
  function HeaderBytes(i: Info, now: nat): (h: seq<byte>)
    requires |Decimal(now)| <= 128
    ensures |h| == HEADER_SIZE
  {
    NumbersFit(i);
    var id := Text(i.taskId);
    Field(if |id| <= 128 then id else id[..128], 128) + Field(Decimal(i.fromUser), 64) + Field(Decimal(i.toUser), 64)
    + Field(Decimal(now), 128) + Field([], 512) + Field(Decimal(i.size), 64)
  }

  lemma NumbersFit(i: Info)
    ensures |Decimal(i.fromUser)| <= 10 && |Decimal(i.toUser)| <= 10 && |Decimal(i.size)| <= 10
  {
    assert Power10(10) == 10_000_000_000 by {
      assert Power10(5) == 100_000;
      PowerSum(5, 5);
    }
    DecimalLength(i.fromUser, 10);
    DecimalLength(i.toUser, 10);
    DecimalLength(i.size, 10);
  }

  lemma {:induction false} PowerSum(a: nat, b: nat)
    ensures Power10(a + b) == Power10(a) * Power10(b)
  {
    if a > 0 {
      PowerSum(a - 1, b);
    }
  }

  /** What the getters read; the text of a field that is not ended runs on into the next. */
  function HeaderInfo(h: seq<byte>): Info
    requires |h| == HEADER_SIZE
  {
    Info(Text(h), StringToInt(Text(h[128..])), StringToInt(Text(h[192..])), Text(h[384..]), StringToInt(Text(h[896..])))
  }

  /** The task id that is read back: one of 128 bytes or more fills its field, so that what is
      read runs on into the next. */
  function ReadId(i: Info): seq<byte> {
    var id := Text(i.taskId);
    if |id| < 128 then id else id[..128] + Decimal(i.fromUser)
  }

  /** The task id comes back exactly when it has no NUL and ends inside of its field, or goes on
      behind it with the very number that the next field holds. */
  lemma IdReadBack(i: Info)
    ensures ReadId(i) == i.taskId <==>
      NUL !in i.taskId && (|i.taskId| < 128 || i.taskId[128..] == Decimal(i.fromUser))
  {
    hide Decimal;
    var id := i.taskId;
    if NUL !in id {
      assert id + [] == id;
      TextOf(id, []);
      assert |id| >= 128 ==> id == id[..128] + id[128..];
    } else {
      assert NUL !in ReadId(i);
    }
  }

  /** A text that fills its field, and the text of the next. */
  lemma FullField(full: seq<byte>, d: seq<byte>, rest: seq<byte>)
    requires |full| == 128 && |d| <= 64 && NUL !in full && NUL !in d && (|d| == 64 ==> rest == [] || rest[0] == NUL)
    ensures Text(Field(full, 128) + (Field(d, 64) + rest)) == full + d
  {
    hide Text;
    var pad := Field([], 64 - |d|);
    FieldIs(d, 64);
    FieldIs(full, 128);
    Regroup(full, d, pad, rest);
    if pad == [] {
      assert pad + rest == rest;
    }
    TextOf(full + d, pad + rest);
  }

  lemma FieldIs(t: seq<byte>, n: nat)
    requires |t| <= n
    ensures Field(t, n) == t + Field([], n - |t|) && (|t| == n ==> Field(t, n) == t)
    ensures |t| < n ==> Field([], n - |t|)[0] == NUL
  {
  }

  lemma Regroup(a: seq<byte>, b: seq<byte>, c: seq<byte>, d: seq<byte>)
    ensures a + (b + c + d) == (a + b) + (c + d)
  {
  }

  /** The field of the task id, and the next. */
  lemma IdField(i: Info, d: seq<byte>, rest: seq<byte>)
    requires d == Decimal(i.fromUser) && |d| <= 10
    ensures var id := Text(i.taskId);
      Text(Field(if |id| <= 128 then id else id[..128], 128) + (Field(d, 64) + rest)) == ReadId(i)
  {
    hide Decimal, Field, Text;
    var id := Text(i.taskId);
    if |id| < 128 {
      FieldText(id, 128, Field(d, 64) + rest);
    } else {
      assert |id| == 128 ==> id[..128] == id;
      FullField(id[..128], d, rest);
    }
  }

  /** The getters read back what the setters wrote, but for the name of the file and the end of a
      task id that is too long. */
  lemma HeaderReadBack(i: Info, now: nat)
    requires |Decimal(now)| <= 128
    ensures HeaderInfo(HeaderBytes(i, now)) == i.(taskId := ReadId(i), fileName := [])
  {
    hide Decimal, StringToInt, Text, Field, ReadId;
    NumbersFit(i);
    var id := Text(i.taskId);
    var a, b, c, d, e, f := Field(if |id| <= 128 then id else id[..128], 128), Field(Decimal(i.fromUser), 64),
      Field(Decimal(i.toUser), 64), Field(Decimal(now), 128), Field([], 512), Field(Decimal(i.size), 64);
    Tails(a, b, c, d, e, f);
    IdField(i, Decimal(i.fromUser), c + d + e + f);
    assert b + (c + d + e + f) == b + c + d + e + f;
    FieldText(Decimal(i.fromUser), 64, c + d + e + f);
    FieldText(Decimal(i.toUser), 64, d + e + f);
    FieldText([], 512, f);
    FieldText(Decimal(i.size), 64, []);
    assert f + [] == f;
    NumberReadBack(i.fromUser);
    NumberReadBack(i.toUser);
    NumberReadBack(i.size);
  }

  lemma FieldText(t: seq<byte>, n: nat, rest: seq<byte>)
    requires |t| < n && NUL !in t
    ensures Text(Field(t, n) + rest) == t
  {
    var pad := seq(n - |t|, _ => NUL);
    assert t + pad + rest == t + (pad + rest);
    TextOf(t, pad + rest);
  }

  lemma Tails(a: seq<byte>, b: seq<byte>, c: seq<byte>, d: seq<byte>, e: seq<byte>, f: seq<byte>)
    requires |a| == 128 && |b| == 64 && |c| == 64 && |d| == 128 && |e| == 512
    ensures var h := a + b + c + d + e + f;
      && h == a + (b + c + d + e + f) && h[128..] == b + (c + d + e + f) && h[192..] == c + (d + e + f)
      && h[384..] == e + f && h[896..] == f
  {
  }

  /** A text of which nothing but NUL follows in its field. */
  predicate FieldHolds(f: seq<byte>, t: seq<byte>) {
    t <= f && forall k :: |t| <= k < |f| ==> f[k] == NUL
  }

  /** The layout of the header: six fields of 128, 64, 64, 128, 512 and 64 bytes. */
  lemma HeaderLayout(i: Info, now: nat)
    requires |Decimal(now)| <= 128
    ensures var h := HeaderBytes(i, now);
      && (|i.taskId| <= 128 && NUL !in i.taskId ==> FieldHolds(h[..128], i.taskId))
      && FieldHolds(h[128..192], Decimal(i.fromUser)) && FieldHolds(h[192..256], Decimal(i.toUser))
      && FieldHolds(h[256..384], Decimal(now)) && FieldHolds(h[384..896], [])
      && FieldHolds(h[896..960], Decimal(i.size))
  {
    hide Decimal, Text, Field, FieldHolds;
    NumbersFit(i);
    var id := Text(i.taskId);
    var a, b, c, d, e, f := Field(if |id| <= 128 then id else id[..128], 128), Field(Decimal(i.fromUser), 64),
      Field(Decimal(i.toUser), 64), Field(Decimal(now), 128), Field([], 512), Field(Decimal(i.size), 64);
    Slices(a, b, c, d, e, f);
    FieldKeeps(Decimal(i.fromUser), 64);
    FieldKeeps(Decimal(i.toUser), 64);
    FieldKeeps(Decimal(now), 128);
    FieldKeeps([], 512);
    FieldKeeps(Decimal(i.size), 64);
    if |i.taskId| <= 128 && NUL !in i.taskId {
      assert i.taskId + [] == i.taskId;
      TextOf(i.taskId, []);
      FieldKeeps(i.taskId, 128);
    }
  }

  lemma FieldKeeps(t: seq<byte>, n: nat)
    requires |t| <= n
    ensures FieldHolds(Field(t, n), t)
  {
  }

  lemma Slices(a: seq<byte>, b: seq<byte>, c: seq<byte>, d: seq<byte>, e: seq<byte>, f: seq<byte>)
    requires |a| == 128 && |b| == 64 && |c| == 64 && |d| == 128 && |e| == 512 && |f| == 64
    ensures var h := a + b + c + d + e + f;
      && h[..128] == a && h[128..192] == b && h[192..256] == c && h[256..384] == d && h[384..896] == e
      && h[896..960] == f
  {
  }

  // ---- loading ----

  /** LoadFromDisk: a file whose header is whole and names the number of bytes that follow. */
  function LoadFromDisk(file: Option<seq<byte>>): Option<Info> {
    if file.None? || |file.value| < HEADER_SIZE then None
    else
      var i := HeaderInfo(file.value[..HEADER_SIZE]);
      if |file.value| - HEADER_SIZE == i.size then Some(i) else None
  }

  /** An upload of which `got` was stored can be loaded exactly when all of it was, and what is
      loaded is the task that was uploaded, with its id as it is read back. */
  lemma LoadsIffComplete(i: Info, now: nat, got: seq<byte>)
    requires |Decimal(now)| <= 128
    ensures LoadFromDisk(Some(HeaderBytes(i, now) + got)) ==
      if |got| == i.size then Some(i.(taskId := ReadId(i), fileName := [])) else None
  {
    hide HeaderBytes, HeaderInfo, ReadId;
    HeaderReadBack(i, now);
    assert (HeaderBytes(i, now) + got)[..HEADER_SIZE] == HeaderBytes(i, now);
  }
}
