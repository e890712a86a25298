/** What a step of the registry leaves, user by user and connection by connection: an answer that
    is positive opens the connection for the user of the id, a close takes it from whoever held
    it, and what concerns nobody else stays. */
module RegistryEffects {
  import opened UserRegistry
  import opened RegistryRuns
  import opened RegistryWaiting

  // ---- a positive answer ----

  /** Who gets the connection: the user that has the id already, or else the user of the name. */
  function Heir(w: World, i: nat, n: string): UserRef
    requires n in w.byName
  {
    if i in w.byId then w.byId[i] else w.byName[n]
  }

  /** The connection is open with its id, and no other connection changed. */
  ghost predicate Opened(w: World, v: World, c: ConnRef, i: nat)
    requires c in w.conns
  {
    v.conns == w.conns[c := w.conns[c].(userId := i, open := true)]
  }

  /** The user `p` is indexed under the id, validated, and holds the connection under its handle
      with all that it held before. */
  ghost predicate Entered(w: World, v: World, p: UserRef, c: ConnRef, h: Handle, i: nat) {
    && v.byId == w.byId[i := p] && p in w.users && p in v.users
    && var t, u := w.users[p], v.users[p];
       && u.userId == i && u.validated && u.loginName == t.loginName
       && h in u.conns && u.conns[h] == c && u.conns - {h} == t.conns && c !in u.unvalidated
       && forall d :: d != c ==> (d in u.unvalidated <==> d in t.unvalidated)
  }

  /** The user of the name is gone when another one has the id; every other user is as before. */
  ghost predicate OthersStay(w: World, v: World, n: string, p: UserRef)
    requires n in w.byName
  {
    var gone := if w.byName[n] == p then {} else {w.byName[n]};
    && v.users.Keys == w.users.Keys - gone
    && (forall r :: r in v.users && r != p ==> v.users[r] == w.users[r])
    && v.byName == if gone == {} then w.byName else w.byName - {n}
  }

  lemma HeirOpens(w: World, db: Database, n: string, h: Handle, c: ConnRef)
    requires Good(w, db) && Awaits(w, n, h, c) && db(n) > 0 && db(n) !in w.byId
    ensures var o, p := Accept(w, db, n, c), w.byName[n];
      o.Next? && Opened(w, o.world, c, db(n)) && Entered(w, o.world, p, c, h, db(n)) && OthersStay(w, o.world, n, p)
  {
    hide Good;
    var p, v := w.byName[n], Accept(w, db, n, c).world;
    FreeHandle(w, db, p, n, h, c);
    assert v.users[p].conns - {h} == w.users[p].conns;
  }

  /** A waiting connection's handle is not in the map of any user. */
  lemma FreeHandle(w: World, db: Database, p: UserRef, n: string, h: Handle, c: ConnRef)
    requires Good(w, db) && p in w.users && Awaits(w, n, h, c)
    ensures h !in w.users[p].conns
  {
    hide ConnOk;
    AwaitedIsLive(w, db, n, h, c);
    assert UserOk(w, db, p);
    forall k | k in w.users[p].conns ensures k != h {
      assert HeldOpen(w, w.users[p], k);
    }
  }

  lemma KnownOpens(w: World, db: Database, n: string, h: Handle, c: ConnRef)
    requires Good(w, db) && Awaits(w, n, h, c) && db(n) > 0 && db(n) in w.byId
    ensures var o, p := Accept(w, db, n, c), w.byId[db(n)];
      o.Next? && Opened(w, o.world, c, db(n)) && Entered(w, o.world, p, c, h, db(n)) && OthersStay(w, o.world, n, p)
  {
    hide Good;
    OtherUserIsEmpty(w, db, n);
    var p, v := w.byId[db(n)], Accept(w, db, n, c).world;
    FreeHandle(w, db, p, n, h, c);
    assert v.users[p].conns - {h} == w.users[p].conns;
    assert v.byId == w.byId[db(n) := p];
  }

  /** A positive answer to a login that is awaited: its connection opens with the id of the data
      base; the user that has this id, or else the user of the name, holds it under its handle
      and is the one that the id index names; nothing else changes, except that the user of the
      name is gone when another user has the id. */
  lemma PositiveAnswer(w: World, db: Database, n: string, h: Handle, c: ConnRef)
    requires Good(w, db) && Awaits(w, n, h, c) && db(n) > 0
    ensures var o, p := Answer(w, db, n, h, true), Heir(w, db(n), n);
      && o.Next?
      && Opened(w, o.world, c, db(n))
      && Entered(w, o.world, p, c, h, db(n))
      && OthersStay(w, o.world, n, p)
  {
    hide Good, Answer, Accept, Opened, Entered, OthersStay;
    AnswerIs(w, db, n, h, true, c);
    if db(n) in w.byId {
      KnownOpens(w, db, n, h, c);
    } else {
      HeirOpens(w, db, n, h, c);
    }
  }

  // ---- a close ----

  /** The user without a connection, however it held it. */
  function Without(u: User, c: ConnRef): User {
    u.(conns := map h | h in u.conns && u.conns[h] != c :: u.conns[h], unvalidated := u.unvalidated - {c})
  }

  ghost predicate OfItsName(w: World, r: UserRef, c: ConnRef)
    requires c in w.conns
  {
    w.conns[c].loginName in w.byName && w.byName[w.conns[c].loginName] == r
  }

  /** The indexes lose the entries of users that are gone, and no others. */
  ghost predicate IndexesFollow(w: World, v: World) {
    && v.byName == (map n | n in w.byName && w.byName[n] in v.users :: w.byName[n])
    && v.byId == (map i | i in w.byId && w.byId[i] in v.users :: w.byId[i])
  }

  /** Every user is without the connection; those of `gone` that are then without connections are
      deleted. */
  ghost predicate AllWithout(w: World, v: World, c: ConnRef, gone: set<UserRef>) {
    && v.users.Keys <= w.users.Keys
    && (forall r :: r in v.users ==> v.users[r] == Without(w.users[r], c))
    && (forall r :: r in w.users ==> (r !in v.users <==> r in gone && Without(w.users[r], c).conns == map[]))
    && IndexesFollow(w, v)
  }

  ghost function IdUsers(w: World, c: ConnRef): set<UserRef>
    requires c in w.conns
  {
    if w.conns[c].userId in w.byId then {w.byId[w.conns[c].userId]} else {}
  }

  ghost function NameUsers(w: World, c: ConnRef): set<UserRef>
    requires c in w.conns
  {
    if w.conns[c].loginName in w.byName then {w.byName[w.conns[c].loginName]} else {}
  }

  lemma NotHeldSame(u: User, c: ConnRef)
    requires !Holds(u, c)
    ensures Without(u, c) == u
  {
    assert (map h | h in u.conns && u.conns[h] != c :: u.conns[h]) == u.conns;
  }

  /** Which entries name a user. */
  lemma EntriesOf(w: World, db: Database, x: set<ConnRef>, r: UserRef)
    requires GoodBut(w, db, x) && r in w.users
    ensures forall n :: n in w.byName ==> w.byName[n] in w.users && (w.byName[n] == r <==> n == w.users[r].loginName)
    ensures forall i :: i in w.byId ==> w.byId[i] in w.users && (w.byId[i] == r <==> i == w.users[r].userId)
  {
    hide ConnOk, UserOk;
    UserKnown(w, db, r);
    assert !w.users[r].validated ==> w.users[r].userId == 0 by { NotValidated(w, db, r); }
    forall n | n in w.byName ensures w.byName[n] in w.users && (w.byName[n] == r <==> n == w.users[r].loginName) {
      assert NameOk(w, n);
    }
    forall i | i in w.byId ensures w.byId[i] in w.users && (w.byId[i] == r <==> i == w.users[r].userId) {
      assert IdOk(w, i);
    }
  }

  lemma NotValidated(w: World, db: Database, r: UserRef)
    requires r in w.users && UserOk(w, db, r)
    ensures !w.users[r].validated ==> w.users[r].userId == 0
  {
  }

  /** Deleting a user takes its own entries away. */
  lemma RemovalFollows(w: World, db: Database, x: set<ConnRef>, r: UserRef, u: User)
    requires GoodBut(w, db, x) && r in w.users
    requires u.userId == w.users[r].userId && u.loginName == w.users[r].loginName
    ensures var v := RemoveUser(w.(users := w.users[r := u]), r);
      IndexesFollow(w, v) && v.users == w.users - {r} && v.conns == w.conns
  {
    hide GoodBut;
    EntriesOf(w, db, x, r);
    assert w.users[r := u] - {r} == w.users - {r};
  }

  lemma SameIndexes(w: World, db: Database, x: set<ConnRef>, v: World)
    requires GoodBut(w, db, x) && v.byName == w.byName && v.byId == w.byId && v.users.Keys == w.users.Keys
    ensures IndexesFollow(w, v)
  {
    IndexesLive(w, db, x);
  }

  /** The first half of a close, of an open connection. */
  lemma FirstHalf(w: World, db: Database, c: ConnRef)
    requires Good(w, db) && Live(w, c) && w.conns[c].open
    requires w.conns[c].userId in w.byId && w.byId[w.conns[c].userId] in w.users
    ensures AllWithout(w, LeaveById(w, c), c, IdUsers(w, c))
  {
    hide GoodBut, Holds, Without;
    var r, v := w.byId[w.conns[c].userId], LeaveById(w, c);
    var t := w.users[r];
    var u := t.(conns := t.conns - {w.conns[c].handle}, unvalidated := t.unvalidated - {c});
    LeavesNoHolder(w, db, c, r);
    forall q | q in w.users && q != r ensures Without(w.users[q], c) == w.users[q] {
      NotHeldSame(w.users[q], c);
    }
    OwnWithout(w, db, c, r);
    if u.conns == map[] {
      RemovalFollows(w, db, {}, r, u);
    } else {
      SameIndexes(w, db, {}, v);
    }
  }

  lemma OwnWithout(w: World, db: Database, c: ConnRef, r: UserRef)
    requires Good(w, db) && Live(w, c) && w.conns[c].open
    requires w.conns[c].userId in w.byId && w.byId[w.conns[c].userId] == r && r in w.users
    ensures var t := w.users[r];
      Without(t, c) == t.(conns := t.conns - {w.conns[c].handle}, unvalidated := t.unvalidated - {c})
  {
    hide GoodBut;
    LosesOne(w, db, c, r);
    UserOf(w, db, r);
    hide UserOk;
    var t := w.users[r];
    if Holds(t, c) {
      HoldsWhat(w, db, r, c);
    }
    assert (map h | h in t.conns && t.conns[h] != c :: t.conns[h]) == t.conns - {w.conns[c].handle};
  }

  /** The second half; who holds the connection then is at most the user of its name. */
  lemma SecondHalf(w: World, db: Database, c: ConnRef)
    requires GoodBut(w, db, {c}) && c in w.conns && (Unheld(w, c) || (!w.conns[c].closed && !w.conns[c].open))
    requires w.conns[c].loginName in w.byName ==> w.byName[w.conns[c].loginName] in w.users
    ensures AllWithout(w, LeaveByName(w, c), c, NameUsers(w, c)) && LeaveByName(w, c).conns == w.conns
  {
    hide GoodBut, Holds, Without;
    var n, v := w.conns[c].loginName, LeaveByName(w, c);
    HeldByItsName(w, db, c);
    forall q | q in w.users && q !in NameUsers(w, c) ensures Without(w.users[q], c) == w.users[q] {
      NotHeldSame(w.users[q], c);
    }
    if n in w.byName {
      var r := w.byName[n];
      var u := w.users[r].(unvalidated := w.users[r].unvalidated - {c});
      NamedWithout(w, db, c, r);
      NamedKnown(w, db, c, r);
      if u.conns == map[] {
        RemovalFollows(w, db, {c}, r, u);
      } else {
        SameIndexes(w, db, {c}, v);
      }
    } else {
      SameIndexes(w, db, {c}, v);
    }
  }

  lemma NamedWithout(w: World, db: Database, c: ConnRef, r: UserRef)
    requires GoodBut(w, db, {c}) && c in w.conns && r in w.users
    requires Unheld(w, c) || (!w.conns[c].closed && !w.conns[c].open)
    ensures Without(w.users[r], c) == w.users[r].(unvalidated := w.users[r].unvalidated - {c})
  {
    hide ConnOk, UserOk;
    HeldByItsName(w, db, c);
    NotHeldSame(w.users[r].(unvalidated := w.users[r].unvalidated - {c}), c);
  }

  lemma NamedKnown(w: World, db: Database, c: ConnRef, r: UserRef)
    requires GoodBut(w, db, {c}) && w.conns.Keys >= {c} && OfItsName(w, r, c)
    ensures r in w.users && w.users[r].loginName == w.conns[c].loginName
  {
    hide ConnOk, UserOk;
    assert NameOk(w, w.conns[c].loginName);
  }

  lemma WithoutTwice(u: User, c: ConnRef)
    ensures Without(Without(u, c), c) == Without(u, c)
  {
  }

  lemma FollowTwice(w: World, v: World, x: World)
    requires IndexesFollow(w, v) && IndexesFollow(v, x) && x.users.Keys <= v.users.Keys
    ensures IndexesFollow(w, x)
  {
    assert forall n :: n in x.byName ==> n in v.byName && n in w.byName;
    assert forall i :: i in x.byId ==> i in v.byId && i in w.byId;
  }

  lemma NameUsersLeft(w: World, v: World, c: ConnRef)
    requires c in w.conns && v.conns == w.conns && IndexesFollow(w, v)
    ensures NameUsers(v, c) == NameUsers(w, c) * v.users.Keys
  {
  }

  lemma BothHalves(w: World, v: World, x: World, c: ConnRef)
    requires c in w.conns && v.conns == w.conns
    requires AllWithout(w, v, c, IdUsers(w, c)) && AllWithout(v, x, c, NameUsers(v, c))
    ensures AllWithout(w, x, c, IdUsers(w, c) + NameUsers(w, c))
  {
    FollowTwice(w, v, x);
    NameUsersLeft(w, v, c);
    hide Without, IndexesFollow, IdUsers, NameUsers;
    forall r | r in v.users ensures v.users[r] == Without(w.users[r], c) && Without(v.users[r], c) == v.users[r] {
      WithoutTwice(w.users[r], c);
    }
  }

  /** A close: the connection is closed, and no other one changed; no user holds it any more, and
      every user keeps all else that it holds; the user of its id and the user of its name are
      deleted if they have no validated connection left, and no other user is; an index loses the
      entries of a deleted user, and no others. */
  lemma CloseEffect(w: World, db: Database, c: ConnRef)
    requires Good(w, db) && Live(w, c)
    ensures var o := Close(w, c);
      && o.Next?
      && o.world.conns == w.conns[c := w.conns[c].(closed := true)]
      && AllWithout(w, o.world, c, IdUsers(w, c) + NameUsers(w, c))
  {
    hide GoodBut, LeaveById, LeaveByName, AllWithout, Unheld, IdUsers, NameUsers;
    CloseKeeps(w, db, c);
    IndexesLive(w, db, {});
    LeaveByIdKeeps(w, db, c);
    IdOfOpen(w, db, c);
    var v := LeaveById(w, c);
    IndexesLive(v, db, {c});
    if w.conns[c].open {
      FirstHalf(w, db, c);
    } else {
      NoIdNoLeave(w, c);
    }
    SecondHalf(v, db, c);
    if w.conns[c].open {
      BothHalves(w, v, LeaveByName(v, c), c);
    } else {
      NoIdUsers(w, c);
    }
    ClosedAfter(w, LeaveByName(v, c), c, IdUsers(w, c) + NameUsers(w, c));
  }

  lemma NoIdUsers(w: World, c: ConnRef)
    requires c in w.conns && w.conns[c].userId !in w.byId
    ensures IdUsers(w, c) + NameUsers(w, c) == NameUsers(w, c)
  {
    hide NameUsers;
  }

  lemma ClosedAfter(w: World, v: World, c: ConnRef, gone: set<UserRef>)
    requires AllWithout(w, v, c, gone) && c in v.conns
    ensures AllWithout(w, MarkClosed(v, c), c, gone)
  {
    hide Without;
  }

  /** So does a refusal of a login that is awaited. */
  lemma NegativeAnswer(w: World, db: Database, n: string, h: Handle, c: ConnRef)
    requires Good(w, db) && Awaits(w, n, h, c)
    ensures var o := Answer(w, db, n, h, false);
      && o.Next?
      && o.world.conns == w.conns[c := w.conns[c].(closed := true)]
      && AllWithout(w, o.world, c, NameUsers(w, c))
  {
    hide Good, Answer, Close, AllWithout, NameUsers;
    AnswerIs(w, db, n, h, false, c);
    CloseEffect(w, db, c);
    IdOfOpen(w, db, c);
    NoIdUsers(w, c);
  }

  // ---- a login ----

  /** A login on a connection that has not logged in: it waits, held by the user of the name, who
      is the one of before, or else a new one with nothing but this; a later login is ignored. */
  lemma LoginEffect(w: World, db: Database, c: ConnRef, n: string, r: UserRef)
    requires Good(w, db) && Possible(w, LoggingIn(c, n, r))
    ensures var o := Step(w, db, LoggingIn(c, n, r));
      && o.Next?
      && if w.conns[c].loginName != "" then o.world == w
         else
           var v, p := o.world, if n in w.byName then w.byName[n] else r;
           && v.conns == w.conns[c := w.conns[c].(loginName := n)] && v.byId == w.byId && v.byName == w.byName[n := p]
           && v.users.Keys == w.users.Keys + {p} && (forall q :: q in w.users && q != p ==> v.users[q] == w.users[q])
           && v.users[p] == (if n in w.byName then w.users[p].(unvalidated := w.users[p].unvalidated + {c})
                             else User(0, n, false, map[], {c}))
  {
    hide GoodBut;
    IndexesLive(w, db, {});
  }

  /** From a good world, a connection that is accepted, logs in and is answered positively is then
      open with the id of the name, and registered. */
  lemma LoginOpens(w: World, db: Database, c: ConnRef, h: Handle, n: string, r: UserRef)
    requires Good(w, db) && Positive(db) && n != ""
    requires Possible(w, Connecting(c, h)) && r !in w.users
    ensures var run := [Connecting(c, h), LoggingIn(c, n, r), Answering(n, h, true)];
      && Lawful(w, db, run) && Run(w, db, run).Next?
      && var v := Run(w, db, run).world;
         && Live(v, c) && v.conns[c].open && v.conns[c].userId == db(n) && Registered(v, c)
  {
    hide Good, Answer, Login, Registered;
    var run := [Connecting(c, h), LoggingIn(c, n, r), Answering(n, h, true)];
    var w1 := Connect(w, c, h);
    StepKeeps(w, db, run[0]);
    LoginEffect(w1, db, c, n, r);
    StepKeeps(w1, db, run[1]);
    var w2 := Login(w1, c, n, r);
    assert Step(w1, db, run[1]) == Next(w2);
    assert Awaits(w2, n, h, c) by { hide Good; }
    PositiveAnswer(w2, db, n, h, c);
    StepKeeps(w2, db, run[2]);
    var w3 := Answer(w2, db, n, h, true).world;
    OpenRegistered(w3, db, c);
    assert run[1..] == [run[1], run[2]] && run[1..][1..] == [run[2]] && run[1..][1..][1..] == [];
    assert Lawful(w3, db, []);
    assert Lawful(w2, db, [run[2]]);
    assert Lawful(w1, db, [run[1], run[2]]);
    assert Run(w2, db, [run[2]]) == Run(w3, db, []);
    assert Run(w1, db, [run[1], run[2]]) == Run(w2, db, [run[2]]);
  }

  lemma OpenRegistered(w: World, db: Database, c: ConnRef)
    requires Good(w, db) && Live(w, c) && w.conns[c].open
    ensures Registered(w, c)
  {
    hide UserOk;
    assert ConnOk(w, c);
  }

  // ---- an open connection ----

  /** No step but its own close touches an open connection. */
  lemma OpenStep(w: World, db: Database, a: Action, c: ConnRef)
    requires Good(w, db) && Positive(db) && Possible(w, a) && Live(w, c) && w.conns[c].open
    requires a != Closing(c)
    ensures Step(w, db, a).Next? ==> c in Step(w, db, a).world.conns && Step(w, db, a).world.conns[c] == w.conns[c]
  {
    hide Good, Answer, Close, Opened, Entered, OthersStay, AllWithout;
    match a
    case Connecting(d, h) =>
    case LoggingIn(d, n, r) =>
      if d == c {
        OpenHasName(w, db, c);
      }
    case Answering(n, h, ok) =>
      if d :| Awaits(w, n, h, d) {
        if ok {
          PositiveAnswer(w, db, n, h, d);
          OnlyOpened(w, Answer(w, db, n, h, ok).world, d, db(n), c);
        } else {
          NegativeAnswer(w, db, n, h, d);
        }
      } else {
        NoAnswer(w, db, n, h, ok);
      }
    case Closing(d) => CloseEffect(w, db, d);
  }

  lemma OnlyOpened(w: World, v: World, d: ConnRef, i: nat, c: ConnRef)
    requires d in w.conns && Opened(w, v, d, i) && c in w.conns && c != d
    ensures c in v.conns && v.conns[c] == w.conns[c]
  {
  }

  lemma OpenHasName(w: World, db: Database, c: ConnRef)
    requires Good(w, db) && Live(w, c) && w.conns[c].open
    ensures w.conns[c].loginName != ""
  {
    hide UserOk;
    assert ConnOk(w, c);
  }

  /** Until it is closed an open connection stays as it is, and stays registered: at the end of the
      run the user of its id holds it under its handle. */
  lemma {:induction false} OpenUntilClosed(w: World, db: Database, run: seq<Action>, c: ConnRef)
    requires Good(w, db) && Positive(db) && Lawful(w, db, run) && NamesGiven(run)
    requires Live(w, c) && w.conns[c].open && Closing(c) !in run
    ensures Run(w, db, run).Next?
    ensures var v := Run(w, db, run).world; c in v.conns && v.conns[c] == w.conns[c] && Registered(v, c)
    decreases |run|
  {
    hide Good, Step, Registered;
    if run == [] {
      OpenRegistered(w, db, c);
    } else {
      StepKeeps(w, db, run[0]);
      OpenStep(w, db, run[0], c);
      OpenUntilClosed(Step(w, db, run[0]).world, db, run[1..], c);
    }
  }
}
