/** Which values come back from their text unchanged. */
module JsonFixed {
  import opened JsonText
  import opened JsonParse
  import opened JsonStrings
  import opened JsonRoundTrip
  import opened JsonColons

  // ---- the order of keys ----

  lemma {:induction false} LessIsTotal(a: Text, b: Text)
    ensures a == b || Less(a, b) || Less(b, a)
    ensures !(Less(a, b) && Less(b, a)) && !Less(a, a)
  {
    if a == [] {
    } else {
      LessIsIrreflexive(a);
      if b != [] && a[0] == b[0] {
        LessIsTotal(a[1..], b[1..]);
        assert a == [a[0]] + a[1..] && b == [b[0]] + b[1..];
      }
    }
  }

  lemma {:induction false} LessIsIrreflexive(a: Text)
    ensures !Less(a, a)
  {
    if a == [] {
    } else {
      LessIsIrreflexive(a[1..]);
    }
  }

  lemma {:induction false} LessIsTransitive(a: Text, b: Text, c: Text)
    requires Less(a, b) && Less(b, c)
    ensures Less(a, c)
  {
    if a != [] && b != [] && c != [] && a[0] == b[0] && b[0] == c[0] {
      LessIsTransitive(a[1..], b[1..], c[1..]);
    }
  }

  /** A member with the greatest key comes last. */
  lemma {:induction false} InsertGreatest(ms: seq<Member>, m: Member)
    requires forall i :: 0 <= i < |ms| ==> Less(ms[i].key, m.key)
    ensures Insert(ms, m) == ms + [m]
  {
    if ms == [] {
    } else {
      LessIsTotal(ms[0].key, m.key);
      InsertGreatest(ms[1..], m);
      assert ms == [ms[0]] + ms[1..];
    }
  }

  lemma SortedTail(ms: seq<Member>)
    requires Sorted(ms) && ms != []
    ensures Sorted(ms[1..]) && forall x :: x in ms[1..] ==> Less(ms[0].key, x.key)
  {
    hide Less;
    assert forall i :: 0 <= i < |ms[1..]| ==> ms[1..][i] == ms[i + 1];
  }

  lemma SortedFront(m: Member, ms: seq<Member>)
    requires Sorted(ms) && forall x :: x in ms ==> Less(m.key, x.key)
    ensures Sorted([m] + ms)
  {
    hide Less;
  }

  /** Assigning to a key of a map: the members stay in order, the key has the new value, and every
      other member is as before. */
  lemma {:induction false} InsertAssigns(ms: seq<Member>, m: Member)
    requires Sorted(ms)
    ensures Sorted(Insert(ms, m))
    ensures forall x :: x in Insert(ms, m) <==> x == m || (x in ms && x.key != m.key)
  {
    if ms == [] {
    } else {
      hide Sorted, Less;
      var rest := ms[1..];
      assert ms == [ms[0]] + rest;
      SortedTail(ms);
      LessIsTotal(m.key, ms[0].key);
      forall x | x in rest ensures Less(ms[0].key, x.key) && ms[0].key != x.key
      {
        LessIsIrreflexive(x.key);
      }
      if ms[0].key == m.key {
        SortedFront(m, rest);
      } else if Less(m.key, ms[0].key) {
        forall x | x in ms ensures Less(m.key, x.key) && x.key != m.key {
          if x != ms[0] {
            LessIsTransitive(m.key, ms[0].key, x.key);
          }
          LessIsIrreflexive(m.key);
        }
        SortedFront(m, ms);
      } else {
        InsertAssigns(rest, m);
        SortedFront(ms[0], Insert(rest, m));
      }
    }
  }

  // ---- values that come back ----

  predicate Clean(s: Text) { forall c :: c in s ==> ComesBack(c) }

  /** Every string and key has only characters that come back, and objects are in order. */
  predicate Fixed(v: Json) {
    match v
    case Str(s) => Clean(s)
    case Arr(vs) => forall i :: 0 <= i < |vs| ==> Fixed(vs[i])
    case Obj(ms) => Sorted(ms) && forall i :: 0 <= i < |ms| ==> Clean(ms[i].key) && Fixed(ms[i].value)
    case _ => true
  }

  lemma {:induction false} FixedComesBack(v: Json)
    requires Fixed(v)
    ensures RereadValue(v) == v
    decreases v, 0
  {
    match v
    case Str(s) => StringComesBack(s);
    case Arr(vs) => ValuesComeBack(vs);
    case Obj(ms) =>
      forall i | 0 <= i < |ms|
        ensures RereadString(ms[i].key) == ms[i].key && RereadValue(ms[i].value) == ms[i].value
      {
        StringComesBack(ms[i].key);
        FixedComesBack(ms[i].value);
      }
      assert [] + ms == ms;
      MembersInPlace(ms, []);
      assert RereadMembers(ms, []) == ms;
    case _ =>
  }

  lemma {:induction false} ValuesComeBack(vs: seq<Json>)
    requires forall i :: 0 <= i < |vs| ==> Fixed(vs[i])
    ensures RereadValues(vs) == vs
    decreases vs, 1
  {
    if vs == [] {
    } else {
      FixedComesBack(vs[0]);
      ValuesComeBack(vs[1..]);
    }
  }

  // ---- and only those ----

  /** Objects everywhere are in the order of their keys. */
  predicate InOrder(v: Json) {
    match v
    case Arr(vs) => forall i :: 0 <= i < |vs| ==> InOrder(vs[i])
    case Obj(ms) => Sorted(ms) && forall i :: 0 <= i < |ms| ==> InOrder(ms[i].value)
    case _ => true
  }

  /** Reading back never makes a string greater. */
  lemma {:induction false} RereadNotGreater(s: Text)
    ensures RereadString(s) == s || Less(RereadString(s), s)
  {
    if s == [] {
    } else {
      RereadOne(s[0]);
      RereadNotGreater(s[1..]);
      assert s == [s[0]] + s[1..];
    }
  }

  ghost function Keys(ms: seq<Member>): set<Text> { set m | m in ms :: m.key }

  ghost function ReadKeys(ms: seq<Member>): set<Text> { set m | m in ms :: RereadString(m.key) }

  lemma {:induction false} InsertKeys(ms: seq<Member>, m: Member)
    ensures Keys(Insert(ms, m)) == Keys(ms) + {m.key}
  {
    hide Less, Keys, ReadKeys;
    if ms == [] {
      assert [m] + [] == [m];
      KeysOf(m, []);
    } else {
      assert ms == [ms[0]] + ms[1..];
      KeysOf(ms[0], ms[1..]);
      KeysOf(m, ms[1..]);
      KeysOf(m, ms);
      InsertKeys(ms[1..], m);
      KeysOf(ms[0], Insert(ms[1..], m));
    }
  }

  lemma KeysOf(m: Member, ms: seq<Member>)
    ensures Keys([m] + ms) == {m.key} + Keys(ms)
    ensures ReadKeys([m] + ms) == {RereadString(m.key)} + ReadKeys(ms)
  {
    hide RereadString;
    var all := [m] + ms;
    assert m in all && forall x :: x in all <==> x == m || x in ms;
    KeysEqual(all, m, ms);
  }

  lemma KeysEqual(all: seq<Member>, m: Member, ms: seq<Member>)
    requires forall x :: x in all <==> x == m || x in ms
    ensures Keys(all) == {m.key} + Keys(ms)
    ensures ReadKeys(all) == {RereadString(m.key)} + ReadKeys(ms)
  {
    hide RereadString;
    assert m in all;
    forall k | k in Keys(ms) ensures k in Keys(all) {
      var x :| x in ms && x.key == k;
      assert x in all;
    }
    forall k | k in ReadKeys(ms) ensures k in ReadKeys(all) {
      var x :| x in ms && RereadString(x.key) == k;
      assert x in all;
    }
  }

  lemma {:induction false} RereadKeys(ms: seq<Member>, to: seq<Member>)
    ensures Keys(RereadMembers(ms, to)) == Keys(to) + ReadKeys(ms)
  {
    hide Insert, RereadString, RereadValue, Keys;
    if ms == [] {
      assert ReadKeys([]) == {};
    } else {
      var m := Member(RereadString(ms[0].key), RereadValue(ms[0].value));
      InsertKeys(to, m);
      RereadKeys(ms[1..], Insert(to, m));
      assert ms == [ms[0]] + ms[1..];
      KeysOf(ms[0], ms[1..]);
    }
  }

  lemma {:induction false} SortedKeyCount(ms: seq<Member>)
    requires Sorted(ms)
    ensures |Keys(ms)| == |ms|
  {
    hide Less, Keys, ReadKeys;
    if ms == [] {
      NothingHasKeys();
    } else {
      SortedKeyCount(ms[1..]);
      assert ms == [ms[0]] + ms[1..];
      KeysOf(ms[0], ms[1..]);
      FirstKeyOnce(ms);
    }
  }

  lemma NothingHasKeys()
    ensures Keys([]) == {}
  {
  }

  lemma FirstKeyOnce(ms: seq<Member>)
    requires Sorted(ms) && ms != []
    ensures ms[0].key !in Keys(ms[1..])
  {
    hide Less;
    forall i | 0 <= i < |ms[1..]| ensures ms[1..][i].key != ms[0].key {
      assert ms[i + 1] == ms[1..][i];
      LessIsIrreflexive(ms[0].key);
    }
  }

  lemma {:induction false} ReadKeyCount(ms: seq<Member>)
    ensures |ReadKeys(ms)| <= |ms|
  {
    if ms == [] {
      assert ReadKeys(ms) == {};
    } else {
      ReadKeyCount(ms[1..]);
      assert ms == [ms[0]] + ms[1..];
      KeysOf(ms[0], ms[1..]);
    }
  }

  /** Two keys that are read as one leave fewer keys than there were. */
  lemma CollisionShrinks(ms: seq<Member>, i: nat, j: nat)
    requires i < j < |ms| && RereadString(ms[i].key) == RereadString(ms[j].key)
    ensures |ReadKeys(ms)| < |ms|
  {
    hide RereadString;
    var others := ms[..j] + ms[j + 1..];
    ReadKeyCount(others);
    assert others[i] == ms[i];
    forall k | k in ReadKeys(ms) ensures k in ReadKeys(others) {
      var x :| x in ms && RereadString(x.key) == k;
      var n :| 0 <= n < |ms| && ms[n] == x;
      assert n < j ==> others[n] == x;
      assert n > j ==> others[n - 1] == x;
      assert n == j ==> others[i] in others && RereadString(others[i].key) == k;
    }
    assert ReadKeys(ms) <= ReadKeys(others);
    Subset(ReadKeys(ms), ReadKeys(others));
  }

  lemma Subset(a: set<Text>, b: set<Text>)
    requires a <= b
    ensures |a| <= |b|
  {
    assert b == a + (b - a);
  }

  /** When the keys that are read back are the keys, each of them is read back as itself: reading
      makes no key greater, and so the least that changed would collide with a lesser one. */
  lemma {:induction false} KeysAreFixed(ms: seq<Member>, n: nat)
    requires Sorted(ms) && ReadKeys(ms) == Keys(ms) && n <= |ms|
    ensures forall i :: 0 <= i < n ==> RereadString(ms[i].key) == ms[i].key
  {
    hide RereadString, Less;
    if n > 0 {
      KeysAreFixed(ms, n - 1);
      var j := n - 1;
      var k := RereadString(ms[j].key);
      assert ms[j] in ms;
      assert k in Keys(ms);
      var x :| x in ms && x.key == k;
      var i: nat :| i < |ms| && ms[i] == x;
      SortedKeyCount(ms);
      if i < j {
        CollisionShrinks(ms, i, j);
      } else if i > j {
        RereadNotGreater(ms[j].key);
        LessIsTotal(ms[j].key, k);
      }
    }
  }

  /** Members under keys that stay: the values are read back in place. */
  lemma {:induction false} MembersInPlace(ms: seq<Member>, to: seq<Member>)
    requires Sorted(to + ms) && forall i :: 0 <= i < |ms| ==> RereadString(ms[i].key) == ms[i].key
    ensures var r := RereadMembers(ms, to);
      && |r| == |to| + |ms| && r[..|to|] == to
      && forall i :: 0 <= i < |ms| ==> r[|to| + i] == Member(ms[i].key, RereadValue(ms[i].value))
  {
    hide Insert, Less, RereadString, RereadValue;
    if ms == [] {
    } else {
      var all := to + ms;
      var m := Member(ms[0].key, RereadValue(ms[0].value));
      forall i | 0 <= i < |to| ensures Less(to[i].key, m.key) {
        assert all[i] == to[i] && all[|to|] == ms[0];
      }
      InsertGreatest(to, m);
      SameOrder(to, ms, m);
      MembersInPlace(ms[1..], to + [m]);
      var r := RereadMembers(ms, to);
      assert r[..|to| + 1][..|to|] == to;
    }
  }

  lemma SameOrder(to: seq<Member>, ms: seq<Member>, m: Member)
    requires ms != [] && Sorted(to + ms) && m.key == ms[0].key
    ensures Sorted(to + [m] + ms[1..])
  {
    hide Less;
    var a, b := to + ms, to + [m] + ms[1..];
    assert forall i :: 0 <= i < |a| ==> a[i].key == b[i].key;
  }

  lemma {:induction false} OnlyFixedComesBack(v: Json)
    requires InOrder(v) && RereadValue(v) == v
    ensures Fixed(v)
    decreases v
  {
    match v
    case Str(s) => StringComesBack(s);
    case Arr(vs) =>
      forall i | 0 <= i < |vs| ensures Fixed(vs[i]) {
        ValuesAt(vs, i);
        OnlyFixedComesBack(vs[i]);
      }
    case Obj(ms) =>
      MembersUnchanged(ms);
      forall i | 0 <= i < |ms| ensures Clean(ms[i].key) && Fixed(ms[i].value) {
        StringComesBack(ms[i].key);
        OnlyFixedComesBack(ms[i].value);
      }
    case _ =>
  }

  lemma {:induction false} ValuesAt(vs: seq<Json>, i: nat)
    requires i < |vs|
    ensures RereadValues(vs)[i] == RereadValue(vs[i])
  {
    if i > 0 {
      ValuesAt(vs[1..], i - 1);
    }
  }

  lemma MembersUnchanged(ms: seq<Member>)
    requires Sorted(ms) && RereadMembers(ms, []) == ms
    ensures forall i :: 0 <= i < |ms| ==>
      RereadString(ms[i].key) == ms[i].key && RereadValue(ms[i].value) == ms[i].value
  {
    hide *;
    RereadKeys(ms, []);
    NothingHasKeys();
    KeysAreFixed(ms, |ms|);
    assert [] + ms == ms;
    MembersInPlace(ms, []);
  }

  // ---- the round trip ----

  lemma {:induction false} NoEmptyKeysOf(vs: seq<Json>, i: nat)
    requires i < |vs|
    ensures EmptyKeys(vs[i]) <= EmptyKeysOf(vs)
  {
    hide EmptyKeys;
    if i > 0 {
      NoEmptyKeysOf(vs[1..], i - 1);
    }
  }

  lemma {:induction false} NoEmptyKeysAmong(ms: seq<Member>, i: nat)
    requires i < |ms|
    ensures (if ms[i].key == [] then 1 else 0) + EmptyKeys(ms[i].value) <= EmptyKeysAmong(ms)
  {
    hide EmptyKeys;
    if i > 0 {
      NoEmptyKeysAmong(ms[1..], i - 1);
    }
  }

  /** A printable value without empty keys is one whose text can be read. */
  lemma {:induction false} NoEmptyKeys(v: Json)
    requires Printable(v) && EmptyKeys(v) == 0
    ensures Readable(v)
    decreases v
  {
    hide EmptyKeysOf, EmptyKeysAmong;
    match v
    case Arr(vs) =>
      forall i | 0 <= i < |vs| ensures Readable(vs[i]) {
        NoEmptyKeysOf(vs, i);
        NoEmptyKeys(vs[i]);
      }
    case Obj(ms) =>
      forall i | 0 <= i < |ms| ensures ms[i].key != [] && Readable(ms[i].value) {
        NoEmptyKeysAmong(ms, i);
        NoEmptyKeys(ms[i].value);
      }
    case _ =>
  }

  /** Parsing what was printed gives the value back exactly when its strings and keys have no
      control characters but 0 to 10, form feed and carriage return, and no key at any depth is
      empty. */
  lemma RoundTripIff(num: Reader, v: Json)
    requires ReadsNumbers(num) && Printable(v) && InOrder(v) && (v.Arr? || v.Obj?)
    ensures (if v.Arr? then ParseArray(num, Print(v)) else ParseObject(num, Print(v))) == Ok(v, LAST)
      <==> Fixed(v) && EmptyKeys(v) == 0
  {
    hide ParseArray, ParseObject, Print, Fixed, InOrder, RereadValue, EmptyKeys, Printable, Readable;
    if EmptyKeys(v) > 0 {
      EmptyKeysAreLost(num, v, LAST);
    } else {
      NoEmptyKeys(v);
      ParsePrint(num, v);
      if Fixed(v) {
        FixedComesBack(v);
      }
      if RereadValue(v) == v {
        OnlyFixedComesBack(v);
      }
    }
  }
}
