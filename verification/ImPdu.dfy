/** A protocol data unit: its header, kept both as a struct and as the first bytes of its buffer. */
module ImPdu {
  import opened CBytes
  import opened SimpleBuffer
  import opened Framing

  const PDU_VERSION: uint16 := 1
  const SID_OTHER: uint16 := 7

  type uint16 = n: int | 0 <= n < 0x1_0000

  /** The fields after the length, in their order; all have two bytes. */
  datatype Header = Header(
    version: uint16, flag: uint16, serviceId: uint16, commandId: uint16, seqNum: uint16, reversed: uint16)

  const INITIAL_HEADER := Header(PDU_VERSION, 0, SID_OTHER, 0, 0, 0)

  datatype Field = Version | Flag | ServiceId | CommandId | Error | SeqNum | Reversed

  /** Where a field is; the error and the sequence number share a place. */
  function Offset(f: Field): nat {
    match f
    case Version => 4
    case Flag => 6
    case ServiceId => 8
    case CommandId => 10
    case Error => 12
    case SeqNum => 12
    case Reversed => 14
  }

  function With(h: Header, f: Field, v: uint16): Header {
    match f
    case Version => h.(version := v)
    case Flag => h.(flag := v)
    case ServiceId => h.(serviceId := v)
    case CommandId => h.(commandId := v)
    case Error => h.(seqNum := v)
    case SeqNum => h.(seqNum := v)
    case Reversed => h.(reversed := v)
  }

  /** `bytes` with others written over it. */
  function Patched(bytes: seq<byte>, at: nat, part: seq<byte>): (r: seq<byte>)
    requires at + |part| <= |bytes|
    ensures |r| == |bytes|
  {
    bytes[..at] + part + bytes[at + |part|..]
  }

  function HeaderOf(bytes: seq<byte>): Header
    requires |bytes| >= HEADER_LEN
  {
    Header(ReadUint16(bytes[4..]), ReadUint16(bytes[6..]), ReadUint16(bytes[8..]),
           ReadUint16(bytes[10..]), ReadUint16(bytes[12..]), ReadUint16(bytes[14..]))
  }

  /** A header as bytes, with the length in front. */
  function HeaderBytes(length: nat, h: Header): (s: seq<byte>)
    ensures |s| == HEADER_LEN
  {
    WriteUint32(length) + WriteUint16(h.version) + WriteUint16(h.flag) + WriteUint16(h.serviceId)
    + WriteUint16(h.commandId) + WriteUint16(h.seqNum) + WriteUint16(h.reversed)
  }

  lemma HeaderReadBack(length: nat, h: Header, body: seq<byte>)
    ensures var s := HeaderBytes(length, h) + body;
      HeaderOf(s) == h && ReadUint32(s) == length % 0x1_0000_0000 && s[HEADER_LEN..] == body
  {
    hide ReadUint16, WriteUint16, ReadUint32, WriteUint32;
    var s := HeaderBytes(length, h) + body;
    var f := WriteUint16(h.reversed) + body;
    var e := WriteUint16(h.seqNum) + f;
    var d := WriteUint16(h.commandId) + e;
    var c := WriteUint16(h.serviceId) + d;
    var b := WriteUint16(h.flag) + c;
    var a := WriteUint16(h.version) + b;
    assert s == WriteUint32(length) + a;
    assert s[4..] == a && s[6..] == b && s[8..] == c && s[10..] == d && s[12..] == e && s[14..] == f;
    ReadsWhatWasWritten32(length, a);
    ReadsWhatWasWritten16(h.version, b);
    ReadsWhatWasWritten16(h.flag, c);
    ReadsWhatWasWritten16(h.serviceId, d);
    ReadsWhatWasWritten16(h.commandId, e);
    ReadsWhatWasWritten16(h.seqNum, f);
    ReadsWhatWasWritten16(h.reversed, body);
  }

  /** A number in two bytes of `s`, the higher one first. */
  predicate TwoBytes(s: seq<byte>, at: nat, v: nat) { at + 2 <= |s| && s[at] as nat * 256 + s[at + 1] as nat == v }

  /** The layout on the wire: the length in four bytes, then six fields of two. */
  lemma WireLayout(length: nat, h: Header)
    requires length < 0x1_0000_0000
    ensures var s := HeaderBytes(length, h);
      && |s| == 16 && LengthField(s) == length
      && TwoBytes(s, 4, h.version) && TwoBytes(s, 6, h.flag) && TwoBytes(s, 8, h.serviceId)
      && TwoBytes(s, 10, h.commandId) && TwoBytes(s, 12, h.seqNum) && TwoBytes(s, 14, h.reversed)
  {
    hide WriteUint16, WriteUint32, ReadUint32, HeaderBytes;
    HeaderReadBack(length, h, []);
    var s := HeaderBytes(length, h);
    assert s + [] == s;
    FieldIsFirst(s);
  }

  /** Writing one field changes that field and nothing else. */
  lemma SetReadsBack(bytes: seq<byte>, f: Field, v: uint16)
    requires |bytes| >= HEADER_LEN
    ensures var r := Patched(bytes, Offset(f), WriteUint16(v));
      && HeaderOf(r) == With(HeaderOf(bytes), f, v)
      && ReadUint32(r) == ReadUint32(bytes) && r[HEADER_LEN..] == bytes[HEADER_LEN..]
  {
    hide ReadUint16, WriteUint16, Patched;
    var at := Offset(f);
    Reads(bytes, at, v, 0);
    Reads(bytes, at, v, 2);
    Reads(bytes, at, v, 4);
    Reads(bytes, at, v, 6);
    Reads(bytes, at, v, 8);
    Reads(bytes, at, v, 10);
    Reads(bytes, at, v, 12);
    Reads(bytes, at, v, 14);
    Around(bytes, at, WriteUint16(v), HEADER_LEN);
  }

  /** Two bytes at an even place, after two bytes at an even place were written. */
  lemma Reads(bytes: seq<byte>, at: nat, v: uint16, k: nat)
    requires at % 2 == 0 && k % 2 == 0 && at + 2 <= |bytes| && k + 2 <= |bytes|
    ensures ReadUint16(Patched(bytes, at, WriteUint16(v))[k..]) == if k == at then v else ReadUint16(bytes[k..])
    ensures k == 0 ==> ReadUint16(Patched(bytes, at, WriteUint16(v))) == if at == 0 then v else ReadUint16(bytes)
  {
    if k == at {
      ReadsWhatWasWritten16(v, bytes[at + 2..]);
      assert Patched(bytes, at, WriteUint16(v))[at..] == WriteUint16(v) + bytes[at + 2..];
    }
  }

  lemma Around(bytes: seq<byte>, at: nat, part: seq<byte>, k: nat)
    requires at + |part| <= k <= |bytes|
    ensures Patched(bytes, at, part)[..at + |part|] == bytes[..at] + part
    ensures Patched(bytes, at, part)[k..] == bytes[k..]
  {
  }

  // ---- building and reading ----

  /** ReadPdu of a buffer: a whole unit is taken out of its front. */
  function ReadPdu(s: seq<byte>): Option<(Header, seq<byte>)> {
    var f := Look(s);
    if f.Unit? then Some((HeaderOf(s), s[..f.length])) else None
  }

  datatype Setting = Setting(field: Field, value: uint16)

  function SetAll(bytes: seq<byte>, settings: seq<Setting>): (r: seq<byte>)
    requires |bytes| >= HEADER_LEN
    ensures |r| == |bytes|
  {
    if settings == [] then bytes
    else
      var s := settings[|settings| - 1];
      Patched(SetAll(bytes, settings[..|settings| - 1]), Offset(s.field), WriteUint16(s.value))
  }

  function WithAll(h: Header, settings: seq<Setting>): Header {
    if settings == [] then h
    else With(WithAll(h, settings[..|settings| - 1]), settings[|settings| - 1].field, settings[|settings| - 1].value)
  }

  lemma {:induction false} SettingsReadBack(bytes: seq<byte>, settings: seq<Setting>)
    requires |bytes| >= HEADER_LEN
    ensures var r := SetAll(bytes, settings);
      && HeaderOf(r) == WithAll(HeaderOf(bytes), settings)
      && ReadUint32(r) == ReadUint32(bytes) && r[HEADER_LEN..] == bytes[HEADER_LEN..]
  {
    hide HeaderOf, ReadUint32, Patched;
    if settings == [] {
    } else {
      var front, s := settings[..|settings| - 1], settings[|settings| - 1];
      SettingsReadBack(bytes, front);
      SetReadsBack(SetAll(bytes, front), s.field, s.value);
    }
  }

  /** What a field holds after settings: the last value that was written to its place. */
  lemma {:induction false} LastSettingWins(h: Header, before: seq<Setting>, s: Setting, after: seq<Setting>)
    requires forall k :: 0 <= k < |after| ==> Offset(after[k].field) != Offset(s.field)
    ensures WithAll(h, before + [s] + after) == With(WithAll(h, before + [s] + after), s.field, s.value)
  {
    var all := before + [s] + after;
    if after == [] {
      assert all == before + [s];
      assert all[..|all| - 1] == before;
    } else {
      var front := after[..|after| - 1];
      LastSettingWins(h, before, s, front);
      assert all[..|all| - 1] == before + [s] + front;
    }
  }

  /** A unit that is built, whatever is then set in it, and read from the front of a stream is the
      body and the header that were put in; nothing of the stream behind it is read. */
  lemma BuiltIsRead(h: Header, body: seq<byte>, settings: seq<Setting>, behind: seq<byte>)
    requires HEADER_LEN + |body| < 0x1_0000_0000
    ensures var bytes := SetAll(HeaderBytes(HEADER_LEN + |body|, h) + body, settings);
      && ReadPdu(bytes + behind) == Some((WithAll(h, settings), bytes))
      && bytes[HEADER_LEN..] == body
  {
    hide *;
    Built(h, body, settings);
    WholeIsRead(SetAll(HeaderBytes(HEADER_LEN + |body|, h) + body, settings), behind);
  }

  lemma Built(h: Header, body: seq<byte>, settings: seq<Setting>)
    requires HEADER_LEN + |body| < 0x1_0000_0000
    ensures var bytes := SetAll(HeaderBytes(HEADER_LEN + |body|, h) + body, settings);
      && HeaderOf(bytes) == WithAll(h, settings) && ReadUint32(bytes) == |bytes| && bytes[HEADER_LEN..] == body
  {
    hide HeaderOf, HeaderBytes, ReadUint32, SetAll, WithAll;
    HeaderReadBack(HEADER_LEN + |body|, h, body);
    SettingsReadBack(HeaderBytes(HEADER_LEN + |body|, h) + body, settings);
  }

  lemma WholeIsRead(bytes: seq<byte>, behind: seq<byte>)
    requires |bytes| >= HEADER_LEN && ReadUint32(bytes) == |bytes|
    ensures ReadPdu(bytes + behind) == Some((HeaderOf(bytes), bytes))
  {
    hide HeaderOf, ReadUint32;
    SameFront(bytes, behind);
    assert (bytes + behind)[..|bytes|] == bytes;
  }

  lemma SameFront(bytes: seq<byte>, behind: seq<byte>)
    requires |bytes| >= HEADER_LEN
    ensures HeaderOf(bytes + behind) == HeaderOf(bytes) && ReadUint32(bytes + behind) == ReadUint32(bytes)
  {
  }

  // ---- the object ----

  class CImPdu {
    var header: Header
    var bytes: seq<byte>

    constructor ()
      ensures header == INITIAL_HEADER && bytes == []
    {
      header, bytes := INITIAL_HEADER, [];
    }

    /** Copies the header, under the length of the buffer, over its first bytes. */
    method WriteHeader()
      requires HEADER_LEN <= |bytes|
      modifies this`bytes
      ensures bytes == HeaderBytes(|old(bytes)|, header) + old(bytes)[HEADER_LEN..]
    {
      hide WriteUint16, WriteUint32, Patched;
      ghost var tail := bytes[HEADER_LEN..];
      Put(0, WriteUint32(|bytes|));
      Put(4, WriteUint16(header.version));
      Put(6, WriteUint16(header.flag));
      Put(8, WriteUint16(header.serviceId));
      Put(10, WriteUint16(header.commandId));
      Put(12, WriteUint16(header.seqNum));
      Put(14, WriteUint16(header.reversed));
      assert bytes == bytes[..HEADER_LEN] + tail;
    }

    method Put(at: nat, part: seq<byte>)
      requires at + |part| <= HEADER_LEN <= |bytes|
      modifies this`bytes
      ensures bytes == Patched(old(bytes), at, part)
      ensures bytes[..at + |part|] == old(bytes)[..at] + part && bytes[HEADER_LEN..] == old(bytes)[HEADER_LEN..]
    {
      Around(bytes, at, part, HEADER_LEN);
      bytes := Patched(bytes, at, part);
    }

    /** Puts a body into the unit: the buffer starts afresh with the header of the struct. */
    method SetPBMsg(body: seq<byte>)
      requires HEADER_LEN + |body| < 0x1_0000_0000
      modifies this`bytes
      ensures bytes == HeaderBytes(HEADER_LEN + |body|, header) + body
    {
      bytes := seq(HEADER_LEN, _ => '\0') + body;
      assert bytes[HEADER_LEN..] == body;
      WriteHeader();
    }

    /** A setter: it writes to the buffer, not to the struct. */
    method Set(f: Field, v: uint16)
      requires HEADER_LEN <= |bytes|
      modifies this`bytes
      ensures bytes == SetAll(old(bytes), [Setting(f, v)])
    {
      Put(Offset(f), WriteUint16(v));
      assert [Setting(f, v)][..0] == [];
    }

    static method Read(s: seq<byte>) returns (p: CImPdu?)
      ensures p == null <==> ReadPdu(s).None?
      ensures p != null ==> fresh(p) && (p.header, p.bytes) == ReadPdu(s).value
    {
      p := null;
      match Look(s)
      case Unit(n) =>
        p := new CImPdu();
        p.bytes := s[..n];
        p.header := HeaderOf(s);
      case _ =>
    }
  }

  /** A unit that was read keeps its header when it gets another body, but for the length. What
      setters wrote before is lost, because they do not write to the struct. */
  method Reuse(s: seq<byte>, f: Field, v: uint16, body: seq<byte>) returns (p: CImPdu?)
    requires HEADER_LEN + |body| < 0x1_0000_0000
    ensures p == null <==> ReadPdu(s).None?
    ensures p != null ==> |p.bytes| == HEADER_LEN + |body| && p.bytes[HEADER_LEN..] == body
    ensures p != null ==> HeaderOf(p.bytes) == ReadPdu(s).value.0
  {
    hide HeaderOf, HeaderBytes;
    p := CImPdu.Read(s);
    if p != null {
      if |p.bytes| >= HEADER_LEN {
        p.Set(f, v);
      }
      p.SetPBMsg(body);
      HeaderReadBack(HEADER_LEN + |body|, p.header, body);
    }
  }
}
