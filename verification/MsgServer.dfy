/** The message server: the handlers that change the registry in place, each proved to take the
    step that the model of the registry takes. User and connection objects live in the maps
    `users` and `conns`, under their addresses. */
module MsgServer {
  import opened UserRegistry
  import opened RegistryRuns

  class ImUserManager {
    var byName: map<string, UserRef>
    var byId: map<nat, UserRef>
    var users: map<UserRef, User>
    var conns: map<ConnRef, Conn>

    ghost function View(): World
      reads this
    {
      World(byName, byId, users, conns)
    }

    constructor ()
      ensures View() == EMPTY_WORLD
    {
      byName, byId, users, conns := map[], map[], map[], map[];
    }

    method RemoveImUser(r: UserRef)
      requires r in users
      modifies this
      ensures View() == RemoveUser(old(View()), r)
    {
      byId := byId - {users[r].userId};
      byName := byName - {users[r].loginName};
      users := users - {r};
    }

    method OnConnect(c: ConnRef, h: Handle)
      modifies this
      ensures View() == Connect(old(View()), c, h)
    {
      conns := conns[c := Conn(h, "", 0, false, false)];
    }

    /** `serversUp`: a server for the data base and a route server can be reached. */
    method HandleLoginRequest(c: ConnRef, name: string, r: UserRef, serversUp: bool, ghost db: Database)
      requires Good(View(), db) && Possible(View(), LoggingIn(c, name, r))
      modifies this
      ensures Next(View()) ==
        if old(conns)[c].loginName == "" && !serversUp then Close(old(View()), c)
        else Step(old(View()), db, LoggingIn(c, name, r))
      ensures name != "" || !serversUp ==> Good(View(), db)
    {
      hide GoodBut;
      IndexesLive(View(), db, {});
      ghost var w := View();
      if conns[c].loginName != "" {
        return;
      }
      if !serversUp {
        CloseConn(c, db);
        return;
      }
      conns := conns[c := conns[c].(loginName := name)];
      if name !in byName {
        users := users[r := User(0, name, false, map[], {})];
        byName := byName[name := r];
      }
      var u := byName[name];
      users := users[u := users[u].(unvalidated := users[u].unvalidated + {c})];
      assert View() == Login(w, c, name, r);
      if name != "" {
        LoginKeeps(w, db, c, name, r);
      }
    }

    /** The first half of a close. */
    method LeaveUserOfId(c: ConnRef)
      requires c in conns && (conns[c].userId in byId ==> byId[conns[c].userId] in users)
      modifies this
      ensures View() == LeaveById(old(View()), c) && conns == old(conns)
    {
      if conns[c].userId in byId {
        var r := byId[conns[c].userId];
        users := users[r := users[r].(conns := users[r].conns - {conns[c].handle})];
        users := users[r := users[r].(unvalidated := users[r].unvalidated - {c})];
        if users[r].conns == map[] {
          RemoveImUser(r);
        }
      }
    }

    /** The second half. */
    method LeaveUserOfName(c: ConnRef)
      requires c in conns && (conns[c].loginName in byName ==> byName[conns[c].loginName] in users)
      modifies this
      ensures View() == LeaveByName(old(View()), c) && conns == old(conns)
    {
      if conns[c].loginName in byName {
        var r := byName[conns[c].loginName];
        users := users[r := users[r].(unvalidated := users[r].unvalidated - {c})];
        if users[r].conns == map[] {
          RemoveImUser(r);
        }
      }
    }

    method CloseConn(c: ConnRef, ghost db: Database)
      requires Good(View(), db) && Live(View(), c)
      modifies this
      ensures Close(old(View()), c) == Next(View()) && Good(View(), db)
    {
      hide Good, LeaveById, LeaveByName;
      ghost var w := View();
      CloseKeeps(w, db, c);
      IndexesOf(w, db);
      CloseSecondHalf(w, db, c);
      LeaveUserOfId(c);
      LeaveUserOfName(c);
      conns := conns[c := conns[c].(closed := true)];
    }

    /** The waiting connection of the user with that handle, found by walking over the set. */
    method GetUnValidateMsgConn(r: UserRef, h: Handle) returns (found: bool, c: ConnRef)
      requires r in users && WaitingAlive(View(), r)
      ensures found ==> c in users[r].unvalidated && c in conns && conns[c].handle == h
      ensures !found ==> forall d :: d in users[r].unvalidated ==> conns[d].handle != h
    {
      var rest := users[r].unvalidated;
      found, c := false, 0;
      while rest != {}
        invariant rest <= users[r].unvalidated
        invariant forall d :: d in users[r].unvalidated - rest ==> conns[d].handle != h
        decreases |rest|
      {
        c :| c in rest;
        if conns[c].handle == h {
          found := true;
          return;
        }
        rest := rest - {c};
      }
    }

    /** The answer of the data base server; `id` is the user id that it names. */
    method HandleValidateResponse(name: string, h: Handle, ok: bool, id: nat, ghost db: Database)
      requires Good(View(), db) && id == db(name) > 0
      modifies this
      ensures Answer(old(View()), db, name, h, ok) == Next(View()) && Good(View(), db)
    {
      hide GoodBut, Good, Close, Accept, Merge, Enter, WaitingAlive;
      ghost var w := View();
      AnswerKeeps(w, db, name, h, ok);
      if name !in byName {
        return;
      }
      WaitingIsAlive(w, db, name);
      var found, c := GetUnValidateMsgConn(byName[name], h);
      AnswerToFound(w, db, name, h, ok, found, c);
      if !found || conns[c].open {
        return;
      }
      if ok {
        AcceptConn(name, c, id, db);
      } else {
        AwaitedIsLive(w, db, name, h, c);
        CloseConn(c, db);
      }
    }

    method AcceptConn(name: string, c: ConnRef, id: nat, ghost db: Database)
      requires name in byName && byName[name] in users && c in conns && id == db(name)
      requires Accept(View(), db, name, c).Next?
      modifies this
      ensures Accept(old(View()), db, name, c) == Next(View())
    {
      var r := byName[name];
      var p := r;
      if id in byId {
        p := byId[id];
        users := users[p := users[p].(unvalidated := users[p].unvalidated + {c})];
        users := users[r := users[r].(unvalidated := users[r].unvalidated - {c})];
        if users[r].conns == map[] {
          byName := byName - {name};
          users := users - {r};
        }
      }
      EnterConn(p, id, c);
    }

    method EnterConn(p: UserRef, id: nat, c: ConnRef)
      requires p in users && c in conns
      modifies this
      ensures View() == Enter(old(View()), p, id, c)
    {
      users := users[p := users[p].(userId := id)];
      users := users[p := users[p].(validated := true)];
      if id !in byId {
        byId := byId[id := p];
      }
      conns := conns[c := conns[c].(userId := id)];
      conns := conns[c := conns[c].(open := true)];
      ValidateMsgConn(p, conns[c].handle, c);
    }

    method ValidateMsgConn(p: UserRef, h: Handle, c: ConnRef)
      requires p in users
      modifies this`users
      ensures users == old(users)[p :=
        old(users)[p].(conns := old(users)[p].conns[h := c], unvalidated := old(users)[p].unvalidated - {c})]
    {
      users := users[p := users[p].(conns := users[p].conns[h := c])];
      users := users[p := users[p].(unvalidated := users[p].unvalidated - {c})];
    }
  }

  lemma IndexesOf(w: World, db: Database)
    requires Good(w, db)
    ensures forall n :: n in w.byName ==> w.byName[n] in w.users
    ensures forall i :: i in w.byId ==> w.byId[i] in w.users
  {
    hide GoodBut;
    IndexesLive(w, db, {});
  }

  lemma CloseSecondHalf(w: World, db: Database, c: ConnRef)
    requires Good(w, db) && Live(w, c)
    requires w.conns[c].userId in w.byId ==> w.byId[w.conns[c].userId] in w.users
    ensures var v := LeaveById(w, c);
      && (w.conns[c].loginName in v.byName ==> v.byName[w.conns[c].loginName] in v.users)
      && v.conns == w.conns
  {
    hide GoodBut;
    LeaveByIdKeeps(w, db, c);
    IndexesLive(LeaveById(w, c), db, {c});
  }

  /** Any connection that the search may find is the one that the step takes. */
  lemma AnswerToFound(w: World, db: Database, n: string, h: Handle, ok: bool, found: bool, c: ConnRef)
    requires Good(w, db) && n in w.byName && w.byName[n] in w.users && WaitingAlive(w, w.byName[n])
    requires found ==> c in w.users[w.byName[n]].unvalidated && w.conns[c].handle == h
    requires !found ==> forall d :: d in w.users[w.byName[n]].unvalidated ==> w.conns[d].handle != h
    ensures !found || w.conns[c].open ==> Answer(w, db, n, h, ok) == Next(w)
    ensures found && !w.conns[c].open ==>
      Awaits(w, n, h, c) && Answer(w, db, n, h, ok) == if ok then Accept(w, db, n, c) else Close(w, c)
  {
    hide GoodBut, Accept, Close;
    if found {
      WaitingIsNotOpen(w, db, n, c);
      forall d | Awaits(w, n, h, d) ensures d == c {
        AwaitsOne(w, db, n, h, c, d);
      }
    }
  }

  lemma WaitingIsNotOpen(w: World, db: Database, n: string, c: ConnRef)
    requires Good(w, db) && n in w.byName && w.byName[n] in w.users && c in w.users[w.byName[n]].unvalidated
    ensures c in w.conns && !w.conns[c].open
  {
    assert UserOk(w, db, w.byName[n]) && HeldWaiting(w, w.users[w.byName[n]], c);
  }
}
