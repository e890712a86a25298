/** Bytes as characters, what is read from digits, and what more than one part of the model uses. */
module CBytes {

  /** A C `char`, read as unsigned. */
  type byte = c: char | c < '\U{0100}'

  datatype Option<+T> = None | Some(value: T)

  predicate IsNum(c: byte) { '0' <= c <= '9' }

  function Digit(c: byte): nat
    requires IsNum(c)
  {
    c as int - '0' as int
  }

  /** The value of a string of decimal digits. */
  function DecValue(s: seq<byte>): nat
    requires forall i :: 0 <= i < |s| ==> IsNum(s[i])
  {
    if s == [] then 0 else DecValue(s[..|s| - 1]) * 10 + Digit(s[|s| - 1])
  }

  predicate IsSpace(c: byte) { c == ' ' || '\t' <= c <= '\r' }

  /** The digits in front. */
  function DigitPrefix(s: seq<byte>): (d: seq<byte>)
    ensures d <= s && (forall i :: 0 <= i < |d| ==> IsNum(d[i]))
    ensures |d| < |s| ==> !IsNum(s[|d|])
  {
    if s == [] || !IsNum(s[0]) then [] else [s[0]] + DigitPrefix(s[1..])
  }

  function Min(a: int, b: int): int { if a < b then a else b }

  function Power2(k: nat): (p: nat)
    ensures p > 0
  {
    if k == 0 then 1 else 2 * Power2(k - 1)
  }

  // ---- pieces put together ----

  function Joined<T>(pieces: seq<seq<T>>): seq<T> {
    if pieces == [] then [] else pieces[0] + Joined(pieces[1..])
  }

  lemma Regrouped<T>(a: seq<T>, b: seq<T>, c: seq<T>)
    ensures (a + b) + c == a + (b + c)
  {
  }

  lemma {:induction false} JoinedAppend<T>(a: seq<seq<T>>, b: seq<seq<T>>)
    ensures Joined(a + b) == Joined(a) + Joined(b)
  {
    if a == [] {
      assert a + b == b;
    } else {
      JoinedAppend(a[1..], b);
      assert (a + b)[1..] == a[1..] + b;
      Regrouped(a[0], Joined(a[1..]), Joined(b));
    }
  }

  lemma JoinedOne<T>(b: seq<T>)
    ensures Joined([b]) == b
  {
    assert [b][1..] == [];
    assert b + [] == b;
  }
}
