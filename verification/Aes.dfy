/** The envelope of a message: padded to blocks with its length at the end, each block enciphered,
    and all of it in base 64. The cipher of a block is any function with an inverse. */
module Aes {
  import opened CBytes
  import opened SimpleBuffer
  import Base64

  const BLOCK: nat := 16

  type Cipher = seq<byte> -> seq<byte>

  ghost predicate Inverse(enc: Cipher, dec: Cipher) {
    forall b: seq<byte> :: |b| == BLOCK ==> |enc(b)| == BLOCK && dec(enc(b)) == b
  }

  /** A block cipher gives a block for a block. */
  ghost predicate OnBlocks(f: Cipher) { forall b: seq<byte> :: |b| == BLOCK ==> |f(b)| == BLOCK }

  /** The number of blocks for `n` bytes and four more. */
  function Blocks(n: nat): nat {
    if n % 16 > 12 || n % 16 == 0 then (n + 15) / 16 + 1 else (n + 15) / 16
  }

  /** There is room for the data and the length, and with a block less there is not: the length
      never overlaps the data, and the padding is the smallest. */
  lemma RoomForLength(n: nat)
    requires n > 0
    ensures n + 4 <= BLOCK * Blocks(n) && BLOCK * (Blocks(n) - 1) < n + 4
  {
    var q, r := n / 16, n % 16;
    assert n == 16 * q + r;
    if r > 0 {
      assert (n + 15) / 16 == q + 1;
    }
  }

  function Zeros(n: nat): (z: seq<byte>)
    ensures |z| == n
  {
    seq(n, _ => '\0')
  }

  function Padded(s: seq<byte>): (p: seq<byte>)
    requires s != []
    ensures |p| == BLOCK * Blocks(|s|) && s <= p
  {
    RoomForLength(|s|);
    s + Zeros(BLOCK * Blocks(|s|) - 4 - |s|) + WriteUint32(|s|)
  }

  lemma PaddedParts(s: seq<byte>)
    requires 0 < |s| < 0x8000_0000
    ensures var p := Padded(s); |p| >= 16 && p[..|s|] == s && ReadUint32(p[|p| - 4..]) == |s|
  {
    hide ReadUint32, WriteUint32, Blocks;
    RoomForLength(|s|);
    var p := Padded(s);
    ReadsWhatWasWritten32(|s|, []);
    assert p[|p| - 4..] == WriteUint32(|s|) + [];
  }

  /** The layout of the padded input: the data, zeros, and the length in four bytes, the highest
      first. */
  lemma PaddedLayout(s: seq<byte>)
    requires 0 < |s| < 0x8000_0000
    ensures var p := Padded(s);
      var n := |p| - 4;
      && n >= |s| && p[..|s|] == s && (forall k :: |s| <= k < n ==> p[k] == '\0')
      && |s| == p[n] as nat * 0x100_0000 + p[n + 1] as nat * 0x1_0000 + p[n + 2] as nat * 0x100 + p[n + 3] as nat
  {
    hide WriteUint32, Blocks;
    RoomForLength(|s|);
    HighestFirst(|s|);
  }

  /** `k` blocks, each on its own. */
  ghost function MapBlocks(f: Cipher, s: seq<byte>, k: nat): (r: seq<byte>)
    requires |s| == BLOCK * k && OnBlocks(f)
    ensures |r| == |s|
    decreases k
  {
    if k == 0 then [] else MapBlocks(f, s[..BLOCK * (k - 1)], k - 1) + f(s[BLOCK * (k - 1)..])
  }

  lemma MapFront(f: Cipher, a: seq<byte>, b: seq<byte>, k: nat)
    requires |a| == BLOCK * k && |b| == BLOCK && OnBlocks(f)
    ensures |a + b| == BLOCK * (k + 1) && MapBlocks(f, a + b, k + 1) == MapBlocks(f, a, k) + f(b)
  {
    var s := a + b;
    assert s[..BLOCK * k] == a && s[BLOCK * k..] == b;
  }

  lemma {:induction false} MapInverse(enc: Cipher, dec: Cipher, s: seq<byte>, k: nat)
    requires |s| == BLOCK * k && OnBlocks(enc) && OnBlocks(dec) && Inverse(enc, dec)
    ensures MapBlocks(dec, MapBlocks(enc, s, k), k) == s
    decreases k
  {
    hide MapBlocks, Inverse, OnBlocks;
    if k == 0 {
      MapNone(enc);
      MapNone(dec);
    } else {
      var front, last := s[..BLOCK * (k - 1)], s[BLOCK * (k - 1)..];
      assert s == front + last;
      OneBack(enc, dec, last);
      MapInverse(enc, dec, front, k - 1);
      MapFront(enc, front, last, k - 1);
      MapFront(dec, MapBlocks(enc, front, k - 1), enc(last), k - 1);
    }
  }

  lemma OneBack(enc: Cipher, dec: Cipher, b: seq<byte>)
    requires Inverse(enc, dec) && |b| == BLOCK
    ensures |enc(b)| == BLOCK && dec(enc(b)) == b
  {
  }

  lemma MapNone(f: Cipher)
    requires OnBlocks(f)
    ensures MapBlocks(f, [], 0) == []
  {
  }

  datatype Result = Ok(data: seq<byte>) | Err(code: int)

  ghost function Encrypted(enc: Cipher, s: seq<byte>): Result
    requires OnBlocks(enc)
  {
    if s == [] then Err(-1) else Ok(Base64.Encoded(MapBlocks(enc, Padded(s), Blocks(|s|))))
  }

  ghost function Decrypted(dec: Cipher, t: seq<byte>): Result
    requires OnBlocks(dec)
  {
    if t == [] then Err(-1)
    else
      var e := Base64.Decoded(t);
      if e == [] then Err(-2)
      else if |e| % BLOCK != 0 then Err(-3)
      else
        var p := MapBlocks(dec, e, |e| / BLOCK);
        var n := ReadUint32(p[|p| - 4..]);
        if n > |p| then Err(-4) else Ok(p[..n])
  }

  /** Whatever is not empty and shorter than 2^31 comes back. */
  lemma DecryptUndoesEncrypt(enc: Cipher, dec: Cipher, s: seq<byte>)
    requires OnBlocks(enc) && OnBlocks(dec) && Inverse(enc, dec) && 0 < |s| < 0x8000_0000
    ensures Encrypted(enc, s).Ok? && Decrypted(dec, Encrypted(enc, s).data) == Ok(s)
  {
    hide Padded, MapBlocks, OnBlocks, Inverse, ReadUint32, Base64.Encoded, Base64.Decoded;
    var p := Padded(s);
    PaddedParts(s);
    var e := MapBlocks(enc, p, Blocks(|s|));
    Base64.RoundTrip(e);
    MapInverse(enc, dec, p, Blocks(|s|));
    assert |e| / BLOCK == Blocks(|s|) && |e| % BLOCK == 0;
    assert |Base64.Encoded(e)| > 0;
  }

  method CipherBlocks(f: Cipher, s: seq<byte>, k: nat) returns (r: seq<byte>)
    requires |s| == BLOCK * k && OnBlocks(f)
    ensures r == MapBlocks(f, s, k)
  {
    hide MapBlocks;
    var out := new byte[|s|](_ => '\0');
    var i := 0;
    MapNone(f);
    while i < k
      invariant 0 <= i <= k
      invariant out[..BLOCK * i] == MapBlocks(f, s[..BLOCK * i], i)
    {
      var next := s[BLOCK * i..BLOCK * i + BLOCK];
      Copy(out, BLOCK * i, f(next));
      MapFront(f, s[..BLOCK * i], next, i);
      assert s[..BLOCK * i] + next == s[..BLOCK * (i + 1)];
      assert out[..BLOCK * (i + 1)] == out[..BLOCK * i] + out[BLOCK * i..BLOCK * i + BLOCK];
      i := i + 1;
    }
    assert s[..BLOCK * i] == s;
    r := out[..];
  }

  /** The data over zeros, and then the length over the last four. */
  lemma PaddingParts(s: seq<byte>, was: seq<byte>, p: seq<byte>)
    requires |was| == |p| && |s| + 4 <= |p|
    requires was[..|s|] == s && forall i :: |s| <= i < |was| ==> was[i] == '\0'
    requires p[..|p| - 4] == was[..|p| - 4]
    ensures p == s + Zeros(|p| - 4 - |s|) + p[|p| - 4..]
  {
    assert p == p[..|p| - 4] + p[|p| - 4..];
    assert p[..|p| - 4] == s + Zeros(|p| - 4 - |s|);
  }

  method Pad(s: seq<byte>, blocks: nat) returns (p: seq<byte>)
    requires s != [] && blocks == Blocks(|s|)
    ensures p == Padded(s)
  {
    hide WriteUint32, Blocks;
    RoomForLength(|s|);
    var data := new byte[blocks * 16](_ => '\0');
    Copy(data, 0, s);
    ghost var was := data[..];
    Copy(data, data.Length - 4, WriteUint32(|s|));
    p := data[..];
    PaddingParts(s, was, p);
  }

  method Encrypt(enc: Cipher, s: seq<byte>) returns (r: Result)
    requires OnBlocks(enc)
    ensures r == Encrypted(enc, s)
  {
    if s == [] {
      return Err(-1);
    }
    var remain, blocks := |s| % 16, (|s| + 15) / 16;
    if remain > 12 || remain == 0 {
      blocks := blocks + 1;
    }
    assert blocks == Blocks(|s|);
    hide MapBlocks, OnBlocks, Blocks, Base64.Encoded;
    var data := Pad(s, blocks);
    var e := CipherBlocks(enc, data, blocks);
    var t := Base64.Base64Encode(e);
    return Ok(t);
  }

  method Decrypt(dec: Cipher, t: seq<byte>) returns (r: Result)
    requires OnBlocks(dec)
    ensures r == Decrypted(dec, t)
  {
    if t == [] {
      return Err(-1);
    }
    var e := Base64.Base64Decode(t);
    if |e| == 0 {
      return Err(-2);
    }
    if |e| % 16 != 0 {
      return Err(-3);
    }
    var p := CipherBlocks(dec, e, |e| / 16);
    var n := ReadUint32(p[|p| - 4..]);
    if n > |p| {
      return Err(-4);
    }
    return Ok(p[..n]);
  }
}
