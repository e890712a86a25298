/** The growing byte buffer of a connection, and big-endian numbers in it. */
module SimpleBuffer {
  import opened CBytes

  // ---- numbers of the wire ----

  function ByteOf(n: int): byte { (n % 256) as char }

  function WriteUint16(n: nat): (s: seq<byte>)
    ensures |s| == 2
  {
    [ByteOf(n / 256), ByteOf(n)]
  }

  function WriteUint32(n: nat): (s: seq<byte>)
    ensures |s| == 4
  {
    WriteUint16(n / 0x1_0000) + WriteUint16(n)
  }

  function ReadUint16(s: seq<byte>): (n: nat)
    requires |s| >= 2
    ensures n < 0x1_0000
  {
    s[0] as nat * 256 + s[1] as nat
  }

  function ReadUint32(s: seq<byte>): (n: nat)
    requires |s| >= 4
    ensures n < 0x1_0000_0000
  {
    ReadUint16(s) * 0x1_0000 + ReadUint16(s[2..])
  }

  lemma ReadsWhatWasWritten16(n: nat, rest: seq<byte>)
    ensures ReadUint16(WriteUint16(n) + rest) == n % 0x1_0000
  {
    var a, b := n / 256, n % 256;
    assert n == 0x1_0000 * (a / 256) + (a % 256 * 256 + b);
    Remainder16(a / 256, a % 256 * 256 + b);
  }

  lemma Remainder16(q: nat, r: nat)
    requires r < 0x1_0000
    ensures (0x1_0000 * q + r) % 0x1_0000 == r
  {
  }

  lemma Remainder32(q: nat, r: nat)
    requires r < 0x1_0000_0000
    ensures (0x1_0000_0000 * q + r) % 0x1_0000_0000 == r
  {
  }

  lemma ReadsWhatWasWritten32(n: nat, rest: seq<byte>)
    ensures ReadUint32(WriteUint32(n) + rest) == n % 0x1_0000_0000
  {
    hide WriteUint16, ReadUint16;
    var s := WriteUint32(n) + rest;
    var a, b := n / 0x1_0000, n % 0x1_0000;
    assert n == 0x1_0000_0000 * (a / 0x1_0000) + (a % 0x1_0000 * 0x1_0000 + b);
    Remainder32(a / 0x1_0000, a % 0x1_0000 * 0x1_0000 + b);
    assert s == WriteUint16(n / 0x1_0000) + (WriteUint16(n) + rest);
    assert s[2..] == WriteUint16(n) + rest;
    ReadsWhatWasWritten16(n / 0x1_0000, WriteUint16(n) + rest);
    ReadsWhatWasWritten16(n, rest);
  }

  /** The bytes of a number, the highest first. */
  lemma HighestFirst(n: nat)
    requires n < 0x1_0000_0000
    ensures var s := WriteUint32(n);
      n == s[0] as nat * 0x100_0000 + s[1] as nat * 0x1_0000 + s[2] as nat * 0x100 + s[3] as nat
    ensures n < 0x1_0000 ==> var s := WriteUint16(n); n == s[0] as nat * 0x100 + s[1] as nat
  {
    ReadsWhatWasWritten32(n, []);
    assert WriteUint32(n) + [] == WriteUint32(n);
  }

  /** What can be read of a number is all of its bytes. */
  lemma WritesWhatWasRead32(s: seq<byte>)
    requires |s| >= 4
    ensures WriteUint32(ReadUint32(s)) == s[..4]
  {
    var a, b := ReadUint16(s), ReadUint16(s[2..]);
    assert (a * 0x1_0000 + b) / 0x1_0000 == a;
    assert (a * 0x1_0000 + b) % 0x1_0000 == b;
    WritesWhatWasRead16(s);
    WritesWhatWasRead16(s[2..]);
    SameLow(a * 0x1_0000 + b);
    assert s[..4] == s[..2] + s[2..][..2];
  }

  lemma SameLow(n: nat)
    ensures WriteUint16(n) == WriteUint16(n % 0x1_0000)
  {
    assert n % 0x1_0000 % 256 == n % 256;
    assert n / 256 % 256 == n % 0x1_0000 / 256;
  }

  lemma WritesWhatWasRead16(s: seq<byte>)
    requires |s| >= 2
    ensures WriteUint16(ReadUint16(s)) == s[..2]
  {
  }

  // ---- the buffer ----

  /** What Extend asks of `realloc`, in 32 bits: room for `n` bytes and a quarter more. */
  function AllocSize(n: nat): nat {
    var m := n % 0x1_0000_0000;
    (m + m / 4) % 0x1_0000_0000
  }

  /** The largest contents for which the sum does not wrap around. */
  const MAX_CONTENTS: nat := 0xCCCC_CCCC

  /** The new memory has room for the contents exactly up to this size. */
  lemma RoomIff(n: nat)
    ensures AllocSize(n) >= n <==> n <= MAX_CONTENTS
    ensures n <= MAX_CONTENTS ==> AllocSize(n) == n + n / 4
  {
    var m := n % 0x1_0000_0000;
    if n < 0x1_0000_0000 {
      assert m == n;
      if n > MAX_CONTENTS {
        assert 0x1_0000_0000 <= m + m / 4 < 2 * 0x1_0000_0000;
        assert AllocSize(n) == m + m / 4 - 0x1_0000_0000;
      }
    }
  }

  class CSimpleBuffer {
    var buffer: array<byte>
    var writeOffset: nat

    ghost predicate Valid()
      reads this
    {
      writeOffset <= buffer.Length
    }

    /** What was written and not yet read. */
    ghost function Contents(): (s: seq<byte>)
      requires Valid()
      reads this, buffer
    {
      buffer[..writeOffset]
    }

    constructor ()
      ensures Valid() && fresh(buffer) && Contents() == []
    {
      buffer := new byte[0];
      writeOffset := 0;
    }

    /** Room for `len` more bytes and a quarter of everything; `realloc` keeps what is there, also
        when it takes memory away. */
    method Extend(len: nat)
      requires Valid() && writeOffset + len <= MAX_CONTENTS
      modifies this`buffer
      ensures Valid() && fresh(buffer) && Contents() == old(Contents())
      ensures buffer.Length == AllocSize(writeOffset + len) >= writeOffset + len
    {
      hide AllocSize;
      RoomIff(writeOffset + len);
      var size := writeOffset + len;
      size := size + size / 4;
      var grown := new byte[size](_ => '\0');
      Copy(grown, 0, buffer[..writeOffset]);
      buffer := grown;
    }

    method Write(data: seq<byte>)
      requires Valid() && writeOffset + |data| <= MAX_CONTENTS
      modifies this, buffer
      ensures Valid() && (buffer == old(buffer) || fresh(buffer))
      ensures Contents() == old(Contents()) + data
    {
      if writeOffset + |data| > buffer.Length {
        Extend(|data|);
      }
      Copy(buffer, writeOffset, data);
      writeOffset := writeOffset + |data|;
    }

    /** Takes bytes from the front; the rest moves down within the same memory. */
    method Read(len: nat) returns (data: seq<byte>)
      requires Valid()
      modifies this`writeOffset, buffer
      ensures Valid() && buffer == old(buffer)
      ensures data + Contents() == old(Contents())
      ensures |data| == if len > |old(Contents())| then |old(Contents())| else len
    {
      var n := if len > writeOffset then writeOffset else len;
      data := buffer[..n];
      writeOffset := writeOffset - n;
      MoveDown(buffer, n, writeOffset);
    }
  }

  /** `memcpy` into an array. */
  method Copy(a: array<byte>, at: nat, data: seq<byte>)
    requires at + |data| <= a.Length
    modifies a
    ensures a[..at] == old(a[..at]) && a[at..at + |data|] == data
    ensures a[at + |data|..] == old(a[at + |data|..])
  {
    var i := 0;
    while i < |data|
      invariant 0 <= i <= |data|
      invariant a[..at] == old(a[..at]) && a[at..at + i] == data[..i]
      invariant a[at + |data|..] == old(a[at + |data|..])
    {
      a[at + i] := data[i];
      i := i + 1;
    }
  }

  /** `memmove` of `len` bytes from `from` to the start. */
  method MoveDown(a: array<byte>, from: nat, len: nat)
    requires from + len <= a.Length
    modifies a
    ensures a[..len] == old(a[from..from + len])
  {
    var i := 0;
    while i < len
      invariant 0 <= i <= len
      invariant a[..i] == old(a[from..from + i])
      invariant forall k :: i <= k < a.Length ==> a[k] == old(a[k])
    {
      a[i] := a[from + i];
      i := i + 1;
    }
  }
}
