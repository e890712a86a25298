/** Connections that wait for the data base: as long as the user of its name holds it, an answer
    finds a waiting connection. The user is deleted with its last validated connection, whatever
    still waits under its name; this says exactly when a connection is left behind in this way. */
module RegistryWaiting {
  import opened UserRegistry
  import opened RegistryRuns

  /** Logged in, not yet answered. */
  ghost predicate Waiting(w: World, c: ConnRef) {
    Live(w, c) && !w.conns[c].open && w.conns[c].loginName != ""
  }

  /** The user of its name holds it. */
  ghost predicate Kept(w: World, c: ConnRef)
    requires c in w.conns
  {
    var n := w.conns[c].loginName;
    n in w.byName && w.byName[n] in w.users && c in w.users[w.byName[n]].unvalidated
  }

  /** The user has no validated connection, but perhaps `d`. */
  predicate NoneBut(u: User, d: ConnRef) { forall h :: h in u.conns ==> u.conns[h] == d }

  /** The step deletes the user of the name of `c`: it closes the last validated connection of the
      user; or, while the user has none, it closes, refuses or merges away a connection that
      logged in under the same name. */
  ghost predicate Drops(w: World, db: Database, a: Action, c: ConnRef)
    requires c in w.conns && Kept(w, c)
  {
    var n := w.conns[c].loginName;
    var u := w.users[w.byName[n]];
    match a
    case Closing(d) => NoneBut(u, d) && (u.conns != map[] || (d in w.conns && w.conns[d].loginName == n))
    case Answering(m, h, ok) =>
      m == n && u.conns == map[] && (exists d :: Awaits(w, m, h, d)) && (ok ==> db(n) in w.byId)
    case _ => false
  }

  /** After a step that followed no dangling reference, the user of its name holds it. */
  ghost predicate KeptAfter(o: Outcome, c: ConnRef) { o.Next? && c in o.world.conns && Kept(o.world, c) }

  // ---- a close ----

  /** The first half takes the user of the name away when it empties it. */
  lemma KeptById(w: World, db: Database, d: ConnRef, c: ConnRef)
    requires Good(w, db) && Live(w, d) && Waiting(w, c) && Kept(w, c) && c != d
    requires w.conns[d].userId in w.byId ==> w.byId[w.conns[d].userId] in w.users
    ensures var v, n := LeaveById(w, d), w.conns[c].loginName;
      var u := w.users[w.byName[n]];
      && v.conns == w.conns
      && (Kept(v, c) <==> !(NoneBut(u, d) && u.conns != map[]))
      && (Kept(v, c) ==> v.byName[n] == w.byName[n] && (v.users[v.byName[n]].conns == map[] <==> u.conns == map[]))
  {
    hide Good, UserOk, IdOk, LeaveById, NoneBut;
    var r := w.byName[w.conns[c].loginName];
    UserOf(w, db, r);
    NamesOf(w, db, w.conns[c].loginName);
    IdOfOpen(w, db, d);
    if !w.conns[d].open {
      NoIdNoLeave(w, d);
      NotHeldOpen(w, db, r, d);
    } else if w.byId[w.conns[d].userId] == r {
      OwnLeaves(w, db, d, c, r);
      LeaveKeepsConns(w, d);
    } else {
      var p := w.byId[w.conns[d].userId];
      NotHeldBy(w, db, r, d);
      UserOf(w, db, p);
      UserKnown(w, db, p);
      OtherLeaves(w, db, d, c, r, p);
      LeaveKeepsConns(w, d);
    }
  }

  lemma NoIdNoLeave(w: World, d: ConnRef)
    requires d in w.conns && w.conns[d].userId !in w.byId
    ensures LeaveById(w, d) == w
  {
  }

  lemma LeaveKeepsConns(w: World, d: ConnRef)
    requires d in w.conns && (w.conns[d].userId in w.byId ==> w.byId[w.conns[d].userId] in w.users)
    ensures LeaveById(w, d).conns == w.conns
  {
  }

  /** An open connection has the id of a user, one that is not open has none. */
  lemma IdOfOpen(w: World, db: Database, d: ConnRef)
    requires Good(w, db) && Live(w, d)
    ensures w.conns[d].open <==> w.conns[d].userId in w.byId
  {
    hide UserOk;
    NoUserZero(w, db, {});
    assert ConnOk(w, d);
  }

  /** A connection that is not open is in no user's map. */
  lemma NotHeldOpen(w: World, db: Database, r: UserRef, d: ConnRef)
    requires r in w.users && UserOk(w, db, r) && d in w.conns && !w.conns[d].open
    ensures NoneBut(w.users[r], d) <==> w.users[r].conns == map[]
  {
    var u := w.users[r];
    if u.conns != map[] {
      var h :| h in u.conns;
      assert HeldOpen(w, u, h);
    }
  }

  /** An open connection is in the map of the user of its id only. */
  lemma NotHeldBy(w: World, db: Database, r: UserRef, d: ConnRef)
    requires r in w.users && UserOk(w, db, r) && Live(w, d) && w.conns[d].open
    requires w.conns[d].userId in w.byId && w.byId[w.conns[d].userId] != r
    ensures NoneBut(w.users[r], d) <==> w.users[r].conns == map[]
  {
    var u := w.users[r];
    forall h | h in u.conns ensures u.conns[h] != d {
      assert HeldOpen(w, u, h);
    }
    if u.conns != map[] {
      var h :| h in u.conns;
    }
  }

  lemma OwnLeaves(w: World, db: Database, d: ConnRef, c: ConnRef, r: UserRef)
    requires Good(w, db) && Live(w, d) && w.conns[d].open && c != d && c in w.conns && Kept(w, c)
    requires w.byName[w.conns[c].loginName] == r && w.users[r].loginName == w.conns[c].loginName
    requires w.conns[d].userId in w.byId && w.byId[w.conns[d].userId] == r
    ensures var v, n := LeaveById(w, d), w.conns[c].loginName;
      && (Kept(v, c) <==> !NoneBut(w.users[r], d)) && w.users[r].conns != map[]
      && (Kept(v, c) ==> v.byName[n] == r && v.users[r].conns != map[])
  {
    LosesOne(w, db, d, r);
    var t, h := w.users[r], w.conns[d].handle;
    if NoneBut(t, d) {
      assert t.conns - {h} == map[];
    } else {
      var k :| k in t.conns && t.conns[k] != d;
      assert k in t.conns - {h};
    }
  }

  lemma OtherLeaves(w: World, db: Database, d: ConnRef, c: ConnRef, r: UserRef, p: UserRef)
    requires c in w.conns && d in w.conns && Kept(w, c) && w.byName[w.conns[c].loginName] == r && p != r
    requires w.conns[d].userId in w.byId && w.byId[w.conns[d].userId] == p && p in w.users
    requires w.users[p].loginName in w.byName && w.byName[w.users[p].loginName] == p
    ensures var v, n := LeaveById(w, d), w.conns[c].loginName;
      Kept(v, c) && v.byName[n] == r && v.users[r] == w.users[r]
  {
  }

  /** The second half takes it away when the names are the same and it has no connection left. */
  lemma KeptByName(w: World, db: Database, d: ConnRef, c: ConnRef)
    requires GoodBut(w, db, {d}) && d in w.conns && c in w.conns && Kept(w, c) && c != d
    requires w.conns[d].loginName in w.byName ==> w.byName[w.conns[d].loginName] in w.users
    ensures Kept(LeaveByName(w, d), c) <==>
      !(w.conns[d].loginName == w.conns[c].loginName && w.users[w.byName[w.conns[c].loginName]].conns == map[])
  {
    hide UserOk, ConnOk, IdOk, DistinctHandles;
    var n, m := w.conns[c].loginName, w.conns[d].loginName;
    assert NameOk(w, n) && (m in w.byName ==> NameOk(w, m));
  }

  lemma NotKeptByName(w: World, db: Database, d: ConnRef, c: ConnRef)
    requires GoodBut(w, db, {d}) && d in w.conns && c in w.conns && !Kept(w, c)
    requires w.conns[d].loginName in w.byName ==> w.byName[w.conns[d].loginName] in w.users
    ensures !Kept(LeaveByName(w, d), c)
  {
  }

  lemma CloseKept(w: World, db: Database, d: ConnRef, c: ConnRef)
    requires Good(w, db) && Live(w, d) && Waiting(w, c) && Kept(w, c) && c != d
    ensures Close(w, d).Next? && (KeptAfter(Close(w, d), c) <==> !Drops(w, db, Closing(d), c))
  {
    hide GoodBut, LeaveById, LeaveByName, NoneBut;
    CloseKeeps(w, db, d);
    IndexesLive(w, db, {});
    LeaveByIdKeeps(w, db, d);
    var v := LeaveById(w, d);
    IndexesLive(v, db, {d});
    KeptById(w, db, d, c);
    LeavesConns(v, d);
    NamesOfEmpty(w, c, d);
    if Kept(v, c) {
      KeptByName(v, db, d, c);
    } else {
      NotKeptByName(v, db, d, c);
    }
  }

  lemma LeavesConns(w: World, d: ConnRef)
    requires d in w.conns && (w.conns[d].loginName in w.byName ==> w.byName[w.conns[d].loginName] in w.users)
    ensures LeaveByName(w, d).conns == w.conns
  {
  }

  lemma NamesOfEmpty(w: World, c: ConnRef, d: ConnRef)
    requires c in w.conns && Kept(w, c)
    ensures var u := w.users[w.byName[w.conns[c].loginName]]; u.conns == map[] ==> NoneBut(u, d)
  {
  }

  // ---- an answer ----

  lemma RefusedKept(w: World, db: Database, n: string, d: ConnRef, c: ConnRef)
    requires Good(w, db) && Live(w, d) && !w.conns[d].open && w.conns[d].loginName == n
    requires Waiting(w, c) && Kept(w, c) && c != d
    ensures Close(w, d).Next?
    ensures KeptAfter(Close(w, d), c) <==>
      !(w.conns[c].loginName == n && w.users[w.byName[n]].conns == map[])
  {
    hide Close, GoodBut, NoneBut;
    CloseKept(w, db, d, c);
    var r := w.byName[w.conns[c].loginName];
    assert UserOk(w, db, r) by { UserOf(w, db, r); }
    NotHeldOpen(w, db, r, d);
  }

  lemma UserOf(w: World, db: Database, r: UserRef)
    requires Good(w, db) && r in w.users
    ensures UserOk(w, db, r)
  {
  }

  lemma MergedKept(w: World, db: Database, n: string, d: ConnRef, c: ConnRef)
    requires Good(w, db) && n in w.byName && w.byName[n] in w.users && db(n) in w.byId
    requires c in w.conns && d in w.conns && Kept(w, c) && c != d
    ensures var p := w.byId[db(n)];
      p in w.users && p in Merge(w, n, d, p).users && Merge(w, n, d, p).conns == w.conns
      && (Kept(Merge(w, n, d, p), c) <==> !(w.conns[c].loginName == n && w.users[w.byName[n]].conns == map[]))
  {
    hide Good, UserOk;
    OtherUserIsEmpty(w, db, n);
    NamesOf(w, db, n);
    NamesOf(w, db, w.conns[c].loginName);
  }

  lemma NamesOf(w: World, db: Database, n: string)
    requires Good(w, db) && n in w.byName
    ensures NameOk(w, n)
  {
  }

  lemma EnteredKept(w: World, p: UserRef, i: nat, d: ConnRef, c: ConnRef)
    requires p in w.users && d in w.conns && c in w.conns && c != d
    ensures c in Enter(w, p, i, d).conns && (Kept(Enter(w, p, i, d), c) <==> Kept(w, c))
  {
  }

  lemma AcceptedKept(w: World, db: Database, n: string, d: ConnRef, c: ConnRef)
    requires Good(w, db) && n in w.byName && w.byName[n] in w.users
    requires c in w.conns && d in w.conns && Kept(w, c) && c != d
    ensures Accept(w, db, n, d).Next?
    ensures KeptAfter(Accept(w, db, n, d), c) <==>
      !(w.conns[c].loginName == n && w.users[w.byName[n]].conns == map[] && db(n) in w.byId)
  {
    hide Good, Merge, Enter, Kept;
    if db(n) in w.byId {
      var p := w.byId[db(n)];
      MergedKept(w, db, n, d, c);
      EnteredKept(Merge(w, n, d, p), p, db(n), d, c);
    } else {
      EnteredKept(w, w.byName[n], db(n), d, c);
    }
  }

  /** An answer finds the one connection that waits under the name with the handle, or does
      nothing. */
  lemma AnswerIs(w: World, db: Database, n: string, h: Handle, ok: bool, d: ConnRef)
    requires Good(w, db) && Awaits(w, n, h, d)
    ensures Answer(w, db, n, h, ok) == (if ok then Accept(w, db, n, d) else Close(w, d))
    ensures Waiting(w, d) && w.conns[d].loginName == n
  {
    hide Accept, Close;
    var r := w.byName[n];
    assert UserOk(w, db, r) && NameOk(w, n);
    assert HeldWaiting(w, w.users[r], d);
    assert WaitingAlive(w, r) by {
      forall x | x in w.users[r].unvalidated ensures x in w.conns && !w.conns[x].closed {
        assert HeldWaiting(w, w.users[r], x);
      }
    }
    forall x | Awaits(w, n, h, x) ensures x == d {
      AwaitsOne(w, db, n, h, x, d);
    }
  }

  lemma NoAnswer(w: World, db: Database, n: string, h: Handle, ok: bool)
    requires Good(w, db) && forall d :: !Awaits(w, n, h, d)
    ensures Answer(w, db, n, h, ok) == Next(w)
  {
    if n in w.byName {
      assert NameOk(w, n);
      var r := w.byName[n];
      assert UserOk(w, db, r);
      assert WaitingAlive(w, r) by {
        forall x | x in w.users[r].unvalidated ensures x in w.conns && !w.conns[x].closed {
          assert HeldWaiting(w, w.users[r], x);
        }
      }
    }
  }

  lemma AnswerKept(w: World, db: Database, n: string, h: Handle, ok: bool, c: ConnRef)
    requires Good(w, db) && Waiting(w, c) && Kept(w, c)
    requires Answer(w, db, n, h, ok).Next? && Waiting(Answer(w, db, n, h, ok).world, c)
    ensures KeptAfter(Answer(w, db, n, h, ok), c) <==> !Drops(w, db, Answering(n, h, ok), c)
  {
    hide Good, Accept, Close, Kept, Answer;
    if d :| Awaits(w, n, h, d) {
      AnswerIs(w, db, n, h, ok, d);
      if d == c {
        AnsweredIsOver(w, db, n, c);
      } else if ok {
        AcceptedKept(w, db, n, d, c);
      } else {
        RefusedKept(w, db, n, d, c);
      }
    } else {
      NoAnswer(w, db, n, h, ok);
    }
  }

  /** A connection that was answered does not wait any more. */
  lemma AnsweredIsOver(w: World, db: Database, n: string, c: ConnRef)
    requires c in w.conns && n in w.byName && w.byName[n] in w.users
    ensures Accept(w, db, n, c).Next? ==> !Waiting(Accept(w, db, n, c).world, c)
    ensures Close(w, c).Next? ==> !Waiting(Close(w, c).world, c)
  {
    hide LeaveById, LeaveByName;
  }

  // ---- every step ----

  lemma LoginKept(w: World, c: ConnRef, d: ConnRef, name: string, r: UserRef)
    requires Waiting(w, c) && d in w.conns && r !in w.users && (name in w.byName ==> w.byName[name] in w.users)
    requires forall n :: n in w.byName ==> w.byName[n] in w.users
    ensures Waiting(Login(w, d, name, r), c)
    ensures Kept(Login(w, d, name, r), c) <==> Kept(w, c)
  {
  }

  lemma StepKept(w: World, db: Database, a: Action, c: ConnRef)
    requires Good(w, db) && Positive(db) && Possible(w, a) && (a.LoggingIn? ==> a.name != "")
    requires Waiting(w, c) && Kept(w, c)
    requires Step(w, db, a).Next? && Waiting(Step(w, db, a).world, c)
    ensures KeptAfter(Step(w, db, a), c) <==> !Drops(w, db, a, c)
  {
    hide Good, Login, Close, Answer;
    match a
    case Connecting(d, h) =>
    case LoggingIn(d, name, r) =>
      GoodIndexes(w, db);
      LoginKept(w, c, d, name, r);
    case Answering(n, h, ok) => AnswerKept(w, db, n, h, ok, c);
    case Closing(d) =>
      if d == c {
        ClosedIsOver(w, c);
      } else {
        CloseKept(w, db, d, c);
      }
  }

  lemma ClosedIsOver(w: World, c: ConnRef)
    requires c in w.conns
    ensures Close(w, c).Next? ==> !Waiting(Close(w, c).world, c)
  {
    hide LeaveById, LeaveByName;
  }

  lemma GoodIndexes(w: World, db: Database)
    requires Good(w, db)
    ensures forall n :: n in w.byName ==> w.byName[n] in w.users
  {
    IndexesLive(w, db, {});
  }

  /** A first login is kept. */
  lemma FirstLoginKept(w: World, c: ConnRef, name: string, r: UserRef)
    requires Live(w, c) && !w.conns[c].open && w.conns[c].loginName == "" && name != "" && r !in w.users
    requires name in w.byName ==> w.byName[name] in w.users
    ensures Waiting(Login(w, c, name, r), c) && Kept(Login(w, c, name, r), c)
  {
  }

  // ---- a connection that was left behind ----

  /** Nothing but its own login puts a connection into the set of a user for good. */
  lemma CloseDoesNotHold(w: World, db: Database, d: ConnRef, c: ConnRef)
    requires Good(w, db) && Live(w, d) && Waiting(w, c) && !Kept(w, c)
    ensures Close(w, d).Next? && !KeptAfter(Close(w, d), c)
  {
    hide GoodBut, LeaveById, LeaveByName;
    CloseKeeps(w, db, d);
    IndexesLive(w, db, {});
    LeaveByIdKeeps(w, db, d);
    var v := LeaveById(w, d);
    IndexesLive(v, db, {d});
    LeavesConns(v, d);
    ByIdDoesNotHold(w, db, d, c);
    NotKeptByName(v, db, d, c);
    assert Close(w, d).world.users == LeaveByName(v, d).users && Close(w, d).world.byName == LeaveByName(v, d).byName;
  }

  lemma ByIdDoesNotHold(w: World, db: Database, d: ConnRef, c: ConnRef)
    requires Good(w, db) && d in w.conns && c in w.conns && !Kept(w, c)
    requires w.conns[d].userId in w.byId ==> w.byId[w.conns[d].userId] in w.users
    ensures LeaveById(w, d).conns == w.conns && !Kept(LeaveById(w, d), c)
  {
  }

  lemma AcceptDoesNotHold(w: World, db: Database, n: string, d: ConnRef, c: ConnRef)
    requires Good(w, db) && n in w.byName && w.byName[n] in w.users
    requires c in w.conns && d in w.conns && !Kept(w, c) && c != d
    ensures Accept(w, db, n, d).Next? && !KeptAfter(Accept(w, db, n, d), c)
  {
    hide GoodBut, Enter;
    if db(n) in w.byId {
      var p := w.byId[db(n)];
      OtherUserIsEmpty(w, db, n);
      EnteredKept(Merge(w, n, d, p), p, db(n), d, c);
    } else {
      EnteredKept(w, w.byName[n], db(n), d, c);
    }
  }

  lemma LeftBehindStays(w: World, db: Database, a: Action, c: ConnRef)
    requires Good(w, db) && Positive(db) && Possible(w, a) && (a.LoggingIn? ==> a.name != "")
    requires Waiting(w, c) && !Kept(w, c)
    requires Step(w, db, a).Next? && Waiting(Step(w, db, a).world, c)
    ensures !KeptAfter(Step(w, db, a), c)
  {
    hide Good, Login, Close, Answer, Accept;
    match a
    case Connecting(d, h) =>
    case LoggingIn(d, name, r) =>
      GoodIndexes(w, db);
      LoginKept(w, c, d, name, r);
    case Answering(n, h, ok) =>
      if d :| Awaits(w, n, h, d) {
        AnswerIs(w, db, n, h, ok, d);
        if ok {
          AcceptDoesNotHold(w, db, n, d, c);
        } else {
          CloseDoesNotHold(w, db, d, c);
        }
      } else {
        NoAnswer(w, db, n, h, ok);
      }
    case Closing(d) => CloseDoesNotHold(w, db, d, c);
  }

  /** The answer for a connection that was left behind is ignored. */
  lemma LeftBehindIsIgnored(w: World, db: Database, c: ConnRef, ok: bool)
    requires Good(w, db) && Waiting(w, c) && !Kept(w, c)
    ensures Answer(w, db, w.conns[c].loginName, w.conns[c].handle, ok) == Next(w)
  {
    hide Answer;
    var n, h := w.conns[c].loginName, w.conns[c].handle;
    forall d ensures !Awaits(w, n, h, d) {
      if Awaits(w, n, h, d) {
        AnswerIs(w, db, n, h, ok, d);
      }
    }
    NoAnswer(w, db, n, h, ok);
  }

  // ---- every run ----

  /** The connection waits all the time. */
  ghost predicate WaitsThrough(w: World, db: Database, run: seq<Action>, c: ConnRef)
    requires Lawful(w, db, run)
    decreases |run|
  {
    && Waiting(w, c)
    && (run != [] && Step(w, db, run[0]).Next? ==> WaitsThrough(Step(w, db, run[0]).world, db, run[1..], c))
  }

  /** Some step on the way deletes the user of its name. */
  ghost predicate DroppedIn(w: World, db: Database, run: seq<Action>, c: ConnRef)
    requires Lawful(w, db, run) && c in w.conns
    decreases |run|
  {
    run != [] && Kept(w, c) &&
    (|| Drops(w, db, run[0], c)
     || (Step(w, db, run[0]).Next? && c in Step(w, db, run[0]).world.conns &&
         DroppedIn(Step(w, db, run[0]).world, db, run[1..], c)))
  }

  lemma {:induction false} LeftBehindRun(w: World, db: Database, run: seq<Action>, c: ConnRef)
    requires Good(w, db) && Positive(db) && Lawful(w, db, run) && NamesGiven(run)
    requires WaitsThrough(w, db, run, c) && !Kept(w, c)
    ensures Run(w, db, run).Next? && !KeptAfter(Run(w, db, run), c)
    decreases |run|
  {
    hide Good, Step, Kept;
    if run == [] {
    } else {
      StepKeeps(w, db, run[0]);
      LeftBehindStays(w, db, run[0], c);
      LeftBehindRun(Step(w, db, run[0]).world, db, run[1..], c);
    }
  }

  /** In every run in which a connection keeps waiting, the user of its name still holds it at the
      end, so that an answer will find it, if and only if no step deleted that user. */
  lemma {:induction false} KeptIffNotDropped(w: World, db: Database, run: seq<Action>, c: ConnRef)
    requires Good(w, db) && Positive(db) && Lawful(w, db, run) && NamesGiven(run)
    requires WaitsThrough(w, db, run, c) && Kept(w, c)
    ensures Run(w, db, run).Next? && (KeptAfter(Run(w, db, run), c) <==> !DroppedIn(w, db, run, c))
    decreases |run|
  {
    hide Good, Step, Kept, Drops;
    if run == [] {
    } else {
      StepKeeps(w, db, run[0]);
      StepKept(w, db, run[0], c);
      var v := Step(w, db, run[0]).world;
      if Kept(v, c) {
        KeptIffNotDropped(v, db, run[1..], c);
      } else {
        LeftBehindRun(v, db, run[1..], c);
      }
    }
  }
}
