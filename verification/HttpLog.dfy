/** Callback logs, and what they deliver: two logs are the same to an application when they
    differ only in how data is cut into pieces. */
module HttpLog {
  import opened CBytes
  import opened HttpTypes
  import opened HttpRun

  function AtomsOf(e: Event): seq<Atom> {
    match e
    case Data(k, bs) => Bytes(k, bs)
    case Notify(n) => [Note(n)]
  }

  /** The log with its data events cut into single bytes. */
  function Flatten(log: seq<Event>): seq<Atom> {
    if log == [] then []
    else Flatten(log[..|log| - 1]) + AtomsOf(log[|log| - 1])
  }

  lemma FlattenAppend(log: seq<Event>, e: Event)
    ensures Flatten(log + [e]) == Flatten(log) + AtomsOf(e)
  {
    assert (log + [e])[..|log|] == log;
  }

  lemma {:induction false} FlattenJoin(a: seq<Event>, b: seq<Event>)
    ensures Flatten(a + b) == Flatten(a) + Flatten(b)
    decreases |b|
  {
    if b == [] {
      assert a + b == a;
    } else {
      hide AtomsOf, Flatten;
      var front, e := b[..|b| - 1], b[|b| - 1];
      assert a + b == (a + front) + [e] && b == front + [e];
      FlattenAppend(a + front, e);
      FlattenAppend(front, e);
      FlattenJoin(a, front);
      Regrouped(Flatten(a), Flatten(front), AtomsOf(e));
    }
  }

  /** The same log with empty data events dropped and neighbouring ones of a kind joined. */
  function Normal(log: seq<Event>): seq<Event> {
    if log == [] then []
    else Extend(Normal(log[..|log| - 1]), log[|log| - 1])
  }

  function Extend(log: seq<Event>, e: Event): seq<Event> {
    if e.Data? && e.bytes == [] then log
    else if e.Data? && log != [] && log[|log| - 1].Data? && log[|log| - 1].kind == e.kind then
      log[..|log| - 1] + [Data(e.kind, log[|log| - 1].bytes + e.bytes)]
    else log + [e]
  }

  /** The normal form rebuilt from single bytes. */
  function Gather(atoms: seq<Atom>): seq<Event> {
    if atoms == [] then []
    else Collect(Gather(atoms[..|atoms| - 1]), atoms[|atoms| - 1])
  }

  function Collect(log: seq<Event>, a: Atom): seq<Event> {
    match a
    case Byte(k, b) => Extend(log, Data(k, [b]))
    case Note(n) => log + [Notify(n)]
  }

  lemma GatherAppend(atoms: seq<Atom>, a: Atom)
    ensures Gather(atoms + [a]) == Collect(Gather(atoms), a)
  {
    hide Collect;
    assert (atoms + [a])[..|atoms|] == atoms;
  }

  lemma ExtendTwice(log: seq<Event>, k: DataKind, bs: seq<byte>, b: byte)
    ensures Extend(Extend(log, Data(k, bs)), Data(k, [b])) == Extend(log, Data(k, bs + [b]))
  {
    if bs == [] {
      assert bs + [b] == [b];
    } else if log != [] && log[|log| - 1].Data? && log[|log| - 1].kind == k {
      assert log[|log| - 1].bytes + bs + [b] == log[|log| - 1].bytes + (bs + [b]);
    }
  }

  lemma {:induction false} GatherBytes(atoms: seq<Atom>, k: DataKind, bs: seq<byte>)
    ensures Gather(atoms + Bytes(k, bs)) == Extend(Gather(atoms), Data(k, bs))
    decreases |bs|
  {
    if bs == [] {
      assert atoms + Bytes(k, bs) == atoms;
    } else {
      var front, last := bs[..|bs| - 1], bs[|bs| - 1];
      assert front + [last] == bs;
      assert atoms + Bytes(k, bs) == (atoms + Bytes(k, front)) + [Byte(k, last)];
      hide Extend, Bytes;
      GatherAppend(atoms + Bytes(k, front), Byte(k, last));
      GatherBytes(atoms, k, front);
      ExtendTwice(Gather(atoms), k, front, last);
    }
  }

  lemma {:induction false} NormalIsGather(log: seq<Event>)
    ensures Normal(log) == Gather(Flatten(log))
    decreases |log|
  {
    if log == [] {
    } else {
      var front := log[..|log| - 1];
      NormalIsGather(front);
      match log[|log| - 1]
      case Data(k, bs) => GatherBytes(Flatten(front), k, bs);
      case Notify(n) =>
        var all := Flatten(log);
        assert all[..|all| - 1] == Flatten(front);
    }
  }

  lemma FlattenExtend(log: seq<Event>, e: Event)
    ensures Flatten(Extend(log, e)) == Flatten(log) + AtomsOf(e)
  {
    hide Flatten;
    FlattenAppend(log, e);
    if e.Data? && e.bytes != [] && log != [] && log[|log| - 1].Data? && log[|log| - 1].kind == e.kind {
      var front, last := log[..|log| - 1], log[|log| - 1];
      FlattenAppend(front, Data(e.kind, last.bytes + e.bytes));
      FlattenAppend(front, last);
      assert front + [last] == log;
      BytesJoin(e.kind, last.bytes, e.bytes);
      hide Bytes;
      assert Flatten(front) + (Bytes(e.kind, last.bytes) + Bytes(e.kind, e.bytes)) ==
             (Flatten(front) + Bytes(e.kind, last.bytes)) + Bytes(e.kind, e.bytes);
    }
  }

  lemma {:induction false} FlattenNormal(log: seq<Event>)
    ensures Flatten(Normal(log)) == Flatten(log)
    decreases |log|
  {
    hide Extend, AtomsOf;
    if log == [] {
    } else {
      FlattenNormal(log[..|log| - 1]);
      FlattenExtend(Normal(log[..|log| - 1]), log[|log| - 1]);
    }
  }

  /** Two logs deliver the same exactly when they have the same normal form. */
  lemma SameDelivery(a: seq<Event>, b: seq<Event>)
    ensures Flatten(a) == Flatten(b) <==> Normal(a) == Normal(b)
  {
    NormalIsGather(a);
    NormalIsGather(b);
    FlattenNormal(a);
    FlattenNormal(b);
  }
}
