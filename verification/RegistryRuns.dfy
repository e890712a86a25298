/** Every run of the registry: what holds after it, and the one login that breaks it. */
module RegistryRuns {
  import opened UserRegistry

  datatype Action =
    | Connecting(c: ConnRef, h: Handle)
    | LoggingIn(c: ConnRef, name: string, r: UserRef)
    | Answering(name: string, h: Handle, ok: bool)
    | Closing(c: ConnRef)

  ghost predicate Live(w: World, c: ConnRef) { c in w.conns && !w.conns[c].closed }

  /** What the sockets and the allocator promise: a new object gets an address that is not in use,
      the handles of live connections differ, and a closed connection takes no step. */
  ghost predicate Possible(w: World, a: Action) {
    match a
    case Connecting(c, h) => !Live(w, c) && forall d :: Live(w, d) ==> w.conns[d].handle != h
    case LoggingIn(c, name, r) => Live(w, c) && r !in w.users
    case Answering(name, h, ok) => true
    case Closing(c) => Live(w, c)
  }

  ghost function Step(w: World, db: Database, a: Action): Outcome
    requires Possible(w, a)
  {
    match a
    case Connecting(c, h) => Next(Connect(w, c, h))
    case LoggingIn(c, name, r) =>
      if name in w.byName && w.byName[name] !in w.users then UseAfterFree else Next(Login(w, c, name, r))
    case Answering(name, h, ok) => Answer(w, db, name, h, ok)
    case Closing(c) => Close(w, c)
  }

  /** A run stops where it follows a reference to a deleted object. */
  ghost predicate Lawful(w: World, db: Database, run: seq<Action>)
    decreases |run|
  {
    run == [] ||
    (Possible(w, run[0]) && (Step(w, db, run[0]).Next? ==> Lawful(Step(w, db, run[0]).world, db, run[1..])))
  }

  ghost function Run(w: World, db: Database, run: seq<Action>): Outcome
    requires Lawful(w, db, run)
    decreases |run|
  {
    if run == [] then Next(w)
    else if Step(w, db, run[0]).UseAfterFree? then UseAfterFree
    else Run(Step(w, db, run[0]).world, db, run[1..])
  }

  ghost predicate Positive(db: Database) { forall n :: db(n) > 0 }

  ghost predicate NamesGiven(run: seq<Action>) {
    forall k :: 0 <= k < |run| && run[k].LoggingIn? ==> run[k].name != ""
  }

  /** An entry of the id index is a live, validated user with that id and with a connection, and
      is also the name entry of its login name. */
  ghost predicate Indexed(w: World, i: nat)
    requires i in w.byId
  {
    var r := w.byId[i];
    && r in w.users && w.users[r].userId == i && w.users[r].validated && w.users[r].conns != map[]
    && w.users[r].loginName in w.byName && w.byName[w.users[r].loginName] == r
  }

  /** No live user holds a closed connection. */
  ghost predicate HoldsLive(w: World, r: UserRef)
    requires r in w.users
  {
    forall c :: Holds(w.users[r], c) ==> Live(w, c)
  }

  ghost predicate Safe(w: World) {
    && (forall i :: i in w.byId ==> Indexed(w, i))
    && (forall r :: r in w.users ==> HoldsLive(w, r))
  }

  lemma GoodIsSafe(w: World, db: Database)
    requires Good(w, db)
    ensures Safe(w)
  {
    hide ConnOk;
    forall i | i in w.byId ensures Indexed(w, i) {
      assert IdOk(w, i);
      assert UserOk(w, db, w.byId[i]);
    }
    forall r | r in w.users ensures HoldsLive(w, r) {
      HoldsOnlyLive(w, db, r);
    }
  }

  lemma StepKeeps(w: World, db: Database, a: Action)
    requires Good(w, db) && Positive(db) && Possible(w, a) && (a.LoggingIn? ==> a.name != "")
    ensures Step(w, db, a).Next? && Good(Step(w, db, a).world, db)
  {
    hide GoodBut, Login, Close, Answer, Connect;
    match a
    case Connecting(c, h) =>
      forall d | d in w.conns && !w.conns[d].closed ensures w.conns[d].handle != h {
        assert Live(w, d);
      }
      ConnectKeeps(w, db, c, h);
    case LoggingIn(c, name, r) =>
      IndexesLive(w, db, {});
      LoginKeeps(w, db, c, name, r);
    case Answering(name, h, ok) => AnswerKeeps(w, db, name, h, ok);
    case Closing(c) => CloseKeeps(w, db, c);
  }

  lemma {:induction false} GoodRuns(w: World, db: Database, run: seq<Action>)
    requires Good(w, db) && Positive(db) && Lawful(w, db, run) && NamesGiven(run)
    ensures Run(w, db, run).Next? && Good(Run(w, db, run).world, db)
    decreases |run|
  {
    hide Good, Step;
    if run == [] {
    } else {
      StepKeeps(w, db, run[0]);
      GoodRuns(Step(w, db, run[0]).world, db, run[1..]);
    }
  }

  /** Every run of the server in which no login has the empty name is safe, and follows no
      reference to a deleted object. */
  lemma RunsAreSafe(db: Database, run: seq<Action>)
    requires Positive(db) && Lawful(EMPTY_WORLD, db, run) && NamesGiven(run)
    ensures Run(EMPTY_WORLD, db, run).Next? && Safe(Run(EMPTY_WORLD, db, run).world)
  {
    GoodRuns(EMPTY_WORLD, db, run);
    GoodIsSafe(Run(EMPTY_WORLD, db, run).world, db);
  }

  // ---- the empty login name ----

  ghost predicate SafeAfter(w: World, db: Database, run: seq<Action>)
    requires Lawful(w, db, run)
  {
    Run(w, db, run).Next? && Safe(Run(w, db, run).world)
  }

  lemma FreeAddress(s: set<nat>) returns (r: nat)
    ensures r !in s
  {
    r := Above(s);
  }

  ghost function Above(s: set<nat>): (m: nat)
    ensures forall x :: x in s ==> x < m
  {
    if s == {} then 0
    else
      var x :| x in s;
      var m := Above(s - {x});
      assert forall y :: y in s ==> y == x || y in s - {x};
      if x < m then m else x + 1
  }

  /** The user of the empty name holds the connection, which may still log in. */
  ghost predicate HeldByNameless(w: World, c: ConnRef) {
    && "" in w.byName && w.byName[""] in w.users && c in w.users[w.byName[""]].unvalidated
    && c in w.conns && w.conns[c].userId == 0 && 0 !in w.byId
    && forall n :: n in w.byName ==> NameOk(w, n)
  }

  lemma FirstLogin(w: World, db: Database, c: ConnRef, r: UserRef)
    requires Good(w, db) && Live(w, c) && w.conns[c].loginName == "" && r !in w.users
    requires "" in w.byName ==> w.byName[""] in w.users
    ensures HeldByNameless(Login(w, c, "", r), c) && Login(w, c, "", r).conns == w.conns
  {
    hide UserOk;
    NoUserZero(w, db, {});
    assert ConnOk(w, c);
    var v := Login(w, c, "", r);
    forall n | n in v.byName ensures NameOk(v, n) {
      assert n != "" ==> NameOk(w, n);
    }
    assert v.conns == w.conns;
    assert v.byId == w.byId;
  }

  /** It logs in again, under another name: the user of the empty name keeps it. */
  lemma AnotherLogin(w: World, c: ConnRef, q: UserRef)
    requires HeldByNameless(w, c) && w.conns[c].loginName == "" && q !in w.users
    requires "a" in w.byName ==> w.byName["a"] in w.users
    ensures var v := Login(w, c, "a", q);
      HeldByNameless(v, c) && v.conns[c].loginName == "a"
  {
    assert NameOk(w, "");
    var v := Login(w, c, "a", q);
    forall n | n in v.byName ensures NameOk(v, n) {
      assert n != "a" ==> NameOk(w, n);
      assert "a" in w.byName ==> NameOk(w, "a");
    }
  }

  /** When it closes, only the user of the other name gives it up. */
  lemma ClosedButHeld(w: World, c: ConnRef)
    requires HeldByNameless(w, c) && w.conns[c].loginName == "a"
    ensures Close(w, c).Next? && !Safe(Close(w, c).world)
  {
    assert NameOk(w, "") && ("a" in w.byName ==> NameOk(w, "a"));
    var v, r := Close(w, c).world, w.byName[""];
    assert r in v.users && c in v.users[r].unvalidated;
    assert Holds(v.users[r], c) && !Live(v, c);
    assert !HoldsLive(v, r);
  }

  /** A connection that has logged in under the empty name may log in again. When it then closes,
      the user of the empty name still holds it. */
  lemma SecondLogin(w: World, db: Database, c: ConnRef, q: UserRef)
    requires HeldByNameless(w, c) && Live(w, c) && w.conns[c].loginName == "" && q !in w.users
    ensures var run := [LoggingIn(c, "a", q), Closing(c)];
      NamesGiven(run) && Lawful(w, db, run) && !SafeAfter(w, db, run)
  {
    hide HeldByNameless, Login, Close, Safe;
    assert "a" in w.byName ==> w.byName["a"] in w.users by {
      ToUser(w, c, "a");
    }
    AnotherLogin(w, c, q);
    var v := Login(w, c, "a", q);
    LoginKeepsLive(w, c, "a", q);
    ClosedButHeld(v, c);
    var run := [LoggingIn(c, "a", q), Closing(c)];
    assert run[1..] == [Closing(c)];
    assert Step(w, db, run[0]) == Next(v);
    assert Lawful(Close(v, c).world, db, []);
    assert [Closing(c)][1..] == [];
    assert Step(v, db, Closing(c)) == Close(v, c);
    assert Lawful(v, db, [Closing(c)]);
    assert Run(v, db, [Closing(c)]) == Close(v, c);
  }

  lemma ToUser(w: World, c: ConnRef, n: string)
    requires HeldByNameless(w, c)
    ensures n in w.byName ==> w.byName[n] in w.users
  {
    assert n in w.byName ==> NameOk(w, n);
  }

  lemma LoginKeepsLive(w: World, c: ConnRef, n: string, q: UserRef)
    requires Live(w, c) && (n in w.byName ==> w.byName[n] in w.users)
    ensures Live(Login(w, c, n, q), c)
  {
  }

  /** A first login keeps every later run safe exactly when its name is not empty. The test of
      the code that refuses a second login asks whether the name of the first is empty. */
  lemma LoginIsSafeIffNamed(w: World, db: Database, c: ConnRef, name: string, r: UserRef)
    requires Good(w, db) && Positive(db) && Live(w, c) && w.conns[c].loginName == "" && r !in w.users
    requires name in w.byName ==> w.byName[name] in w.users
    ensures name != "" <==>
      forall run :: Lawful(Login(w, c, name, r), db, run) && NamesGiven(run) ==>
        SafeAfter(Login(w, c, name, r), db, run)
  {
    hide Good, Login, Safe, HeldByNameless;
    var v := Login(w, c, name, r);
    if name != "" {
      LoginKeeps(w, db, c, name, r);
      forall run | Lawful(v, db, run) && NamesGiven(run) ensures SafeAfter(v, db, run) {
        GoodRuns(v, db, run);
        GoodIsSafe(Run(v, db, run).world, db);
      }
    } else {
      FirstLogin(w, db, c, r);
      var q := FreeAddress(v.users.Keys);
      SecondLogin(v, db, c, q);
    }
  }
}
