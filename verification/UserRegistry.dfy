/** The registry of logged-in users of the message server: two indexes that share user
    objects, and connections that users hold. Objects are named by references into an explicit
    heap, so that `delete`, dangling references and the reuse of an address can be spoken of. */
module UserRegistry {

  type Handle = nat
  type UserRef = nat
  type ConnRef = nat

  datatype Conn = Conn(handle: Handle, loginName: string, userId: nat, open: bool, closed: bool)

  datatype User = User(
    userId: nat, loginName: string, validated: bool,
    conns: map<Handle, ConnRef>, unvalidated: set<ConnRef>)

  /** The two indexes, the user objects that are alive, and the connection objects. */
  datatype World = World(
    byName: map<string, UserRef>, byId: map<nat, UserRef>,
    users: map<UserRef, User>, conns: map<ConnRef, Conn>)

  const EMPTY_WORLD := World(map[], map[], map[], map[])

  /** The data base maps a login name to a user id; several names may have one id. */
  type Database = string -> nat

  // ---- the invariant ----

  /** Under its handle a user holds an open connection of its own. */
  ghost predicate HeldOpen(w: World, u: User, h: Handle)
    requires h in u.conns
  {
    var c := u.conns[h];
    c in w.conns && !w.conns[c].closed && w.conns[c].open && w.conns[c].handle == h && w.conns[c].userId == u.userId
  }

  /** In its unvalidated set it holds a connection that logged in under its name. */
  ghost predicate HeldWaiting(w: World, u: User, c: ConnRef) {
    && c in w.conns && !w.conns[c].closed && !w.conns[c].open
    && w.conns[c].loginName == u.loginName && u.loginName != ""
  }

  /** A live user is in the name index; it is in the id index exactly when it is validated, and
      then it has a connection; what it holds is not closed. */
  ghost predicate UserOk(w: World, db: Database, r: UserRef)
    requires r in w.users
  {
    var u := w.users[r];
    && u.loginName in w.byName && w.byName[u.loginName] == r
    && (u.validated ==> u.userId in w.byId && w.byId[u.userId] == r && u.userId == db(u.loginName) && u.conns != map[])
    && (!u.validated ==> u.userId == 0 && u.conns == map[])
    && (forall h :: h in u.conns ==> HeldOpen(w, u, h))
    && (forall c :: c in u.unvalidated ==> HeldWaiting(w, u, c))
  }

  ghost predicate NameOk(w: World, n: string)
    requires n in w.byName
  {
    w.byName[n] in w.users && w.users[w.byName[n]].loginName == n
  }

  ghost predicate IdOk(w: World, i: nat)
    requires i in w.byId
  {
    i > 0 && w.byId[i] in w.users && w.users[w.byId[i]].userId == i && w.users[w.byId[i]].validated
  }

  /** An open connection is the one its user holds under its handle. */
  ghost predicate Registered(w: World, c: ConnRef)
    requires c in w.conns
  {
    var i := w.conns[c].userId;
    && i in w.byId && w.byId[i] in w.users
    && w.conns[c].handle in w.users[w.byId[i]].conns
    && w.users[w.byId[i]].conns[w.conns[c].handle] == c
  }

  ghost predicate ConnOk(w: World, c: ConnRef)
    requires c in w.conns
  {
    || w.conns[c].closed
    || (if w.conns[c].open then w.conns[c].loginName != "" && Registered(w, c) else w.conns[c].userId == 0)
  }

  ghost predicate DistinctHandles(w: World) {
    forall c, d :: c in w.conns && d in w.conns && !w.conns[c].closed && !w.conns[d].closed && c != d ==>
      w.conns[c].handle != w.conns[d].handle
  }

  /** The invariant, but for the registration of the connections in `x`. */
  ghost predicate GoodBut(w: World, db: Database, x: set<ConnRef>) {
    && (forall n :: n in w.byName ==> NameOk(w, n))
    && (forall i :: i in w.byId ==> IdOk(w, i))
    && (forall r :: r in w.users ==> UserOk(w, db, r))
    && (forall c :: c in w.conns && c !in x ==> ConnOk(w, c))
    && DistinctHandles(w)
  }

  ghost predicate Good(w: World, db: Database) { GoodBut(w, db, {}) }

  ghost predicate Holds(u: User, c: ConnRef) {
    c in u.unvalidated || exists h :: h in u.conns && u.conns[h] == c
  }

  /** No user holds the connection. */
  ghost predicate Unheld(w: World, c: ConnRef) {
    forall r :: r in w.users ==> !Holds(w.users[r], c)
  }

  // ---- the steps ----

  /** RemoveImUser: out of both indexes, and deleted. */
  function RemoveUser(w: World, r: UserRef): World
    requires r in w.users
  {
    World(w.byName - {w.users[r].loginName}, w.byId - {w.users[r].userId}, w.users - {r}, w.conns)
  }

  /** An accepted connection; `c` may be the address of one that was closed. */
  function Connect(w: World, c: ConnRef, h: Handle): World {
    w.(conns := w.conns[c := Conn(h, "", 0, false, false)])
  }

  /** A login request that passes the server checks; `fresh` is the address of a new user. */
  function Login(w: World, c: ConnRef, name: string, r: UserRef): World
    requires c in w.conns && (name in w.byName ==> w.byName[name] in w.users)
  {
    if w.conns[c].loginName != "" then w
    else
      var w1 := w.(conns := w.conns[c := w.conns[c].(loginName := name)]);
      var w2 := if name in w1.byName then w1
                else w1.(users := w1.users[r := User(0, name, false, map[], {})], byName := w1.byName[name := r]);
      var u := w2.byName[name];
      w2.(users := w2.users[u := w2.users[u].(unvalidated := w2.users[u].unvalidated + {c})])
  }

  /** The first half of Close: the user of the connection's id gives it up. */
  function LeaveById(w: World, c: ConnRef): World
    requires c in w.conns && (w.conns[c].userId in w.byId ==> w.byId[w.conns[c].userId] in w.users)
  {
    var i := w.conns[c].userId;
    if i !in w.byId then w
    else
      var r := w.byId[i];
      var u := w.users[r].(conns := w.users[r].conns - {w.conns[c].handle},
                           unvalidated := w.users[r].unvalidated - {c});
      var w1 := w.(users := w.users[r := u]);
      if u.conns == map[] then RemoveUser(w1, r) else w1
  }

  /** The second half: so does the user of its login name. */
  function LeaveByName(w: World, c: ConnRef): World
    requires c in w.conns && (w.conns[c].loginName in w.byName ==> w.byName[w.conns[c].loginName] in w.users)
  {
    var n := w.conns[c].loginName;
    if n !in w.byName then w
    else
      var r := w.byName[n];
      var u := w.users[r].(unvalidated := w.users[r].unvalidated - {c});
      var w1 := w.(users := w.users[r := u]);
      if u.conns == map[] then RemoveUser(w1, r) else w1
  }

  function MarkClosed(w: World, c: ConnRef): World
    requires c in w.conns
  {
    w.(conns := w.conns[c := w.conns[c].(closed := true)])
  }

  /** What a step does: it may follow a reference to an object that was deleted. */
  datatype Outcome = Next(world: World) | UseAfterFree

  /** Close: its two halves, and the connection is gone. */
  function Close(w: World, c: ConnRef): Outcome
    requires c in w.conns
  {
    var i, n := w.conns[c].userId, w.conns[c].loginName;
    if i in w.byId && w.byId[i] !in w.users then UseAfterFree
    else
      var v := LeaveById(w, c);
      if n in v.byName && v.byName[n] !in v.users then UseAfterFree
      else Next(MarkClosed(LeaveByName(v, c), c))
  }

  /** The user of the id takes the connection over; the user of the name gives it up, and is
      deleted and leaves the name index when it has no validated connection. */
  function Merge(w: World, n: string, c: ConnRef, p: UserRef): World
    requires n in w.byName && w.byName[n] in w.users && p in w.users
  {
    var r := w.byName[n];
    var w1 := w.(users := w.users[p := w.users[p].(unvalidated := w.users[p].unvalidated + {c})]);
    var w2 := w1.(users := w1.users[r := w1.users[r].(unvalidated := w1.users[r].unvalidated - {c})]);
    if w2.users[r].conns == map[] then w2.(byName := w2.byName - {n}, users := w2.users - {r}) else w2
  }

  /** The user gets the id and becomes validated, the connection opens and moves into its map. */
  function Enter(w: World, p: UserRef, i: nat, c: ConnRef): World
    requires p in w.users && c in w.conns
  {
    var byId := if i in w.byId then w.byId else w.byId[i := p];
    var u := w.users[p].(userId := i, validated := true, conns := w.users[p].conns[w.conns[c].handle := c],
                         unvalidated := w.users[p].unvalidated - {c});
    World(w.byName, byId, w.users[p := u], w.conns[c := w.conns[c].(userId := i, open := true)])
  }

  /** A positive answer for the connection `c`, that waits under the name. */
  function Accept(w: World, db: Database, n: string, c: ConnRef): Outcome
    requires n in w.byName && w.byName[n] in w.users && c in w.conns
  {
    if db(n) in w.byId then
      var p := w.byId[db(n)];
      if p !in w.users then UseAfterFree
      else
        var v := Merge(w, n, c, p);
        if p !in v.users then UseAfterFree else Next(Enter(v, p, db(n), c))
    else Next(Enter(w, w.byName[n], db(n), c))
  }

  predicate Awaits(w: World, n: string, h: Handle, c: ConnRef) {
    && n in w.byName && w.byName[n] in w.users && c in w.users[w.byName[n]].unvalidated
    && c in w.conns && w.conns[c].handle == h && !w.conns[c].open
  }

  /** Following every reference of the set of a user finds a connection that is not closed. */
  predicate WaitingAlive(w: World, r: UserRef)
    requires r in w.users
  {
    forall c :: c in w.users[r].unvalidated ==> c in w.conns && !w.conns[c].closed
  }

  /** The answer to a login: the name, the handle of the request, and the verdict. The search for
      the handle walks over the set of the user of the name. */
  ghost function Answer(w: World, db: Database, n: string, h: Handle, ok: bool): Outcome {
    if n !in w.byName then Next(w)
    else if w.byName[n] !in w.users || !WaitingAlive(w, w.byName[n]) then UseAfterFree
    else if c :| Awaits(w, n, h, c) then (if ok then Accept(w, db, n, c) else Close(w, c))
    else Next(w)
  }

  // ---- small changes that keep the invariant ----

  /** A user that did not change, whose index entries and connections did not change. */
  lemma SameUser(w: World, v: World, db: Database, r: UserRef)
    requires r in w.users && r in v.users && v.users[r] == w.users[r] && UserOk(w, db, r)
    requires var n := w.users[r].loginName; n in v.byName && v.byName[n] == r
    requires w.users[r].validated ==> w.users[r].userId in v.byId && v.byId[w.users[r].userId] == r
    requires forall c :: Holds(w.users[r], c) && c in w.conns ==> c in v.conns && v.conns[c] == w.conns[c]
    ensures UserOk(v, db, r)
  {
    var u := w.users[r];
    forall h | h in u.conns ensures HeldOpen(v, u, h) {
      assert HeldOpen(w, u, h);
      assert Holds(u, u.conns[h]);
    }
    forall c | c in u.unvalidated ensures HeldWaiting(v, u, c) {
      assert HeldWaiting(w, u, c);
      assert Holds(u, c);
    }
  }

  /** A connection that nobody holds may change, if it stays unheld. */
  lemma ChangeUnheld(w: World, db: Database, c: ConnRef, k: Conn)
    requires GoodBut(w, db, {c}) && Unheld(w, c)
    requires k.closed || (!k.open && k.userId == 0)
    requires k.closed || forall d :: d in w.conns && d != c && !w.conns[d].closed ==> w.conns[d].handle != k.handle
    ensures Good(w.(conns := w.conns[c := k]), db)
  {
    hide UserOk, ConnOk;
    var v := w.(conns := w.conns[c := k]);
    forall r | r in v.users ensures UserOk(v, db, r) {
      UserKnown(w, db, r);
      SameUser(w, v, db, r);
    }
    forall d | d in v.conns ensures ConnOk(v, d) {
      if d == c {
        ClosedOrNew(v, c);
      } else {
        SameConn(w, v, d);
      }
    }
  }

  lemma UserKnown(w: World, db: Database, r: UserRef)
    requires r in w.users && UserOk(w, db, r)
    ensures var u := w.users[r];
      && u.loginName in w.byName && w.byName[u.loginName] == r
      && (u.validated ==> u.userId in w.byId && w.byId[u.userId] == r && u.userId == db(u.loginName))
  {
  }

  lemma ClosedOrNew(w: World, c: ConnRef)
    requires c in w.conns && (w.conns[c].closed || (!w.conns[c].open && w.conns[c].userId == 0))
    ensures ConnOk(w, c)
  {
  }

  /** A connection that did not change, and whose user still holds it. */
  lemma SameConn(w: World, v: World, c: ConnRef)
    requires c in w.conns && c in v.conns && v.conns[c] == w.conns[c] && ConnOk(w, c)
    requires !w.conns[c].closed && w.conns[c].open && Registered(w, c) ==> Registered(v, c)
    ensures ConnOk(v, c)
  {
  }

  lemma ConnectKeeps(w: World, db: Database, c: ConnRef, h: Handle)
    requires Good(w, db)
    requires c in w.conns ==> w.conns[c].closed
    requires forall d :: d in w.conns && !w.conns[d].closed ==> w.conns[d].handle != h
    ensures Good(Connect(w, c, h), db)
  {
    assert Unheld(w, c) by {
      forall r | r in w.users ensures !Holds(w.users[r], c) {
        HoldsOnlyLive(w, db, r);
      }
    }
    ChangeUnheld(w, db, c, Conn(h, "", 0, false, false));
  }

  lemma HoldsOnlyLive(w: World, db: Database, r: UserRef)
    requires r in w.users && UserOk(w, db, r)
    ensures forall c :: Holds(w.users[r], c) ==> c in w.conns && !w.conns[c].closed
  {
    var u := w.users[r];
    forall c | Holds(u, c) ensures c in w.conns && !w.conns[c].closed {
      if c in u.unvalidated {
        assert HeldWaiting(w, u, c);
      } else {
        var h :| h in u.conns && u.conns[h] == c;
        assert HeldOpen(w, u, h);
      }
    }
  }

  /** A user whose identity stays and who keeps its connections, but perhaps those in `x`. */
  lemma ChangeUser(w: World, db: Database, r: UserRef, u: User, x: set<ConnRef>)
    requires GoodBut(w, db, x) && r in w.users
    requires var t := w.users[r];
      u.loginName == t.loginName && u.validated == t.validated && u.userId == t.userId &&
      forall h :: h in t.conns && t.conns[h] !in x ==> h in u.conns && u.conns[h] == t.conns[h]
    requires UserOk(w.(users := w.users[r := u]), db, r)
    ensures GoodBut(w.(users := w.users[r := u]), db, x)
  {
    hide UserOk, ConnOk;
    var v := w.(users := w.users[r := u]);
    forall q | q in v.users ensures UserOk(v, db, q) {
      if q != r {
        UserKnown(w, db, q);
        SameUser(w, v, db, q);
      }
    }
    forall d | d in v.conns && d !in x ensures ConnOk(v, d) {
      SameConn(w, v, d);
    }
  }

  lemma AddWaiting(w: World, db: Database, r: UserRef, c: ConnRef)
    requires Good(w, db) && r in w.users && HeldWaiting(w, w.users[r], c)
    ensures Good(w.(users := w.users[r := w.users[r].(unvalidated := w.users[r].unvalidated + {c})]), db)
  {
    var u := w.users[r].(unvalidated := w.users[r].unvalidated + {c});
    var v := w.(users := w.users[r := u]);
    forall d | d in u.unvalidated ensures HeldWaiting(v, u, d) {
      assert d == c || HeldWaiting(w, w.users[r], d);
    }
    forall h | h in u.conns ensures HeldOpen(v, u, h) {
      assert HeldOpen(w, w.users[r], h);
    }
    ChangeUser(w, db, r, u, {});
  }

  lemma RemoveWaiting(w: World, db: Database, r: UserRef, c: ConnRef, x: set<ConnRef>)
    requires GoodBut(w, db, x) && r in w.users
    ensures GoodBut(w.(users := w.users[r := w.users[r].(unvalidated := w.users[r].unvalidated - {c})]), db, x)
  {
    var u := w.users[r].(unvalidated := w.users[r].unvalidated - {c});
    var v := w.(users := w.users[r := u]);
    forall d | d in u.unvalidated ensures HeldWaiting(v, u, d) {
      assert HeldWaiting(w, w.users[r], d);
    }
    forall h | h in u.conns ensures HeldOpen(v, u, h) {
      assert HeldOpen(w, w.users[r], h);
    }
    ChangeUser(w, db, r, u, x);
  }

  /** `new CImUser`, at any address that is free, entered under its name. */
  lemma NewUser(w: World, db: Database, r: UserRef, name: string)
    requires Good(w, db) && r !in w.users && name !in w.byName
    ensures Good(w.(users := w.users[r := User(0, name, false, map[], {})], byName := w.byName[name := r]), db)
  {
    hide UserOk, ConnOk;
    var v := w.(users := w.users[r := User(0, name, false, map[], {})], byName := w.byName[name := r]);
    forall q | q in v.users ensures UserOk(v, db, q) {
      if q == r {
        BlankUser(v, db, r);
      } else {
        UserKnown(w, db, q);
        SameUser(w, v, db, q);
      }
    }
    forall d | d in v.conns ensures ConnOk(v, d) {
      SameConn(w, v, d);
    }
  }

  lemma BlankUser(w: World, db: Database, r: UserRef)
    requires r in w.users && w.users[r] == User(0, w.users[r].loginName, false, map[], {})
    requires w.users[r].loginName in w.byName && w.byName[w.users[r].loginName] == r
    ensures UserOk(w, db, r)
  {
  }

  /** A user without connections is deleted and leaves the name index; when it was in the id
      index it leaves that too. */
  lemma DeleteUser(w: World, db: Database, r: UserRef, x: set<ConnRef>, byId: map<nat, UserRef>)
    requires r in w.users && w.users[r].conns == map[]
    requires forall n :: n in w.byName ==> NameOk(w, n)
    requires forall i :: i in w.byId ==> IdOk(w, i)
    requires forall q :: q in w.users && q != r ==> UserOk(w, db, q)
    requires w.users[r].loginName in w.byName && w.byName[w.users[r].loginName] == r
    requires forall c :: c in w.conns && c !in x ==> ConnOk(w, c)
    requires DistinctHandles(w)
    requires if w.users[r].validated then byId == w.byId - {w.users[r].userId} else byId == w.byId
    requires w.users[r].validated ==> w.users[r].userId in w.byId && w.byId[w.users[r].userId] == r
    ensures GoodBut(World(w.byName - {w.users[r].loginName}, byId, w.users - {r}, w.conns), db, x)
  {
    hide UserOk, ConnOk;
    var v := World(w.byName - {w.users[r].loginName}, byId, w.users - {r}, w.conns);
    forall q | q in v.users ensures UserOk(v, db, q) {
      UserKnown(w, db, q);
      SameUser(w, v, db, q);
    }
    forall d | d in v.conns && d !in x ensures ConnOk(v, d) {
      SameConn(w, v, d);
    }
  }

  // ---- login ----

  lemma NotLoggedInUnheld(w: World, db: Database, c: ConnRef)
    requires Good(w, db) && c in w.conns && !w.conns[c].closed && w.conns[c].loginName == ""
    ensures Unheld(w, c) && !w.conns[c].open && w.conns[c].userId == 0
  {
    assert ConnOk(w, c);
    forall r | r in w.users ensures !Holds(w.users[r], c) {
      if Holds(w.users[r], c) {
        HoldsWhat(w, db, r, c);
      }
    }
  }

  lemma HoldsWhat(w: World, db: Database, r: UserRef, c: ConnRef)
    requires r in w.users && UserOk(w, db, r) && Holds(w.users[r], c)
    ensures c in w.conns && !w.conns[c].closed
    ensures if w.conns[c].open then
              w.users[r].validated && w.conns[c].userId == w.users[r].userId && c !in w.users[r].unvalidated
            else c in w.users[r].unvalidated && w.conns[c].loginName == w.users[r].loginName != ""
    ensures forall h :: h in w.users[r].conns && w.users[r].conns[h] == c ==> w.conns[c].open && h == w.conns[c].handle
  {
    var u := w.users[r];
    forall h | h in u.conns && u.conns[h] == c ensures w.conns[c].open && h == w.conns[c].handle {
      assert HeldOpen(w, u, h);
    }
    if c in u.unvalidated {
      assert HeldWaiting(w, u, c);
    } else {
      var h :| h in u.conns && u.conns[h] == c;
      assert HeldOpen(w, u, h);
      assert u.conns != map[];
    }
  }

  lemma LoginKeeps(w: World, db: Database, c: ConnRef, name: string, r: UserRef)
    requires Good(w, db) && c in w.conns && !w.conns[c].closed && r !in w.users && name != ""
    requires name in w.byName ==> w.byName[name] in w.users
    ensures Good(Login(w, c, name, r), db)
  {
    if w.conns[c].loginName == "" {
      hide UserOk, ConnOk;
      NotLoggedInUnheld(w, db, c);
      var w1 := w.(conns := w.conns[c := w.conns[c].(loginName := name)]);
      ChangeUnheld(w, db, c, w.conns[c].(loginName := name));
      var w2 := w1;
      if name !in w1.byName {
        w2 := w1.(users := w1.users[r := User(0, name, false, map[], {})], byName := w1.byName[name := r]);
        NewUser(w1, db, r, name);
      }
      assert NameOk(w2, name);
      AddWaiting(w2, db, w2.byName[name], c);
    }
  }

  // ---- close ----

  lemma NoUserZero(w: World, db: Database, x: set<ConnRef>)
    requires GoodBut(w, db, x)
    ensures 0 !in w.byId
  {
    assert 0 in w.byId ==> IdOk(w, 0);
  }

  lemma LeaveByIdKeeps(w: World, db: Database, c: ConnRef)
    requires Good(w, db) && c in w.conns && !w.conns[c].closed
    requires w.conns[c].userId in w.byId ==> w.byId[w.conns[c].userId] in w.users
    ensures GoodBut(LeaveById(w, c), db, {c}) && LeaveById(w, c).conns == w.conns
    ensures w.conns[c].open ==> Unheld(LeaveById(w, c), c)
  {
    assert ConnOk(w, c);
    if !w.conns[c].open {
      NoUserZero(w, db, {});
    } else {
      hide GoodBut, UserOk, NameOk, IdOk, ConnOk, DistinctHandles, Holds;
      var i, h := w.conns[c].userId, w.conns[c].handle;
      var r := w.byId[i];
      var u := w.users[r].(conns := w.users[r].conns - {h}, unvalidated := w.users[r].unvalidated - {c});
      UserOfOpen(w, db, c, r);
      LeavesNoHolder(w, db, c, r);
      LeaveOpen(w, db, c, r, u);
    }
  }

  /** Only the user of its id holds an open connection, and only under its handle. */
  lemma LeavesNoHolder(w: World, db: Database, c: ConnRef, r: UserRef)
    requires Good(w, db) && c in w.conns && !w.conns[c].closed && w.conns[c].open
    requires w.conns[c].userId in w.byId && w.byId[w.conns[c].userId] == r && r in w.users
    ensures forall q :: q in w.users && q != r ==> !Holds(w.users[q], c)
    ensures !Holds(w.users[r].(conns := w.users[r].conns - {w.conns[c].handle},
      unvalidated := w.users[r].unvalidated - {c}), c)
  {
    forall q | q in w.users && q != r ensures !Holds(w.users[q], c) {
      if Holds(w.users[q], c) {
        HoldsWhat(w, db, q, c);
        UserKnown(w, db, q);
      }
    }
    if Holds(w.users[r], c) {
      HoldsWhat(w, db, r, c);
    }
  }

  lemma LeaveOpen(w: World, db: Database, c: ConnRef, r: UserRef, u: User)
    requires Good(w, db) && c in w.conns && !w.conns[c].closed && w.conns[c].open
    requires w.conns[c].userId in w.byId && w.byId[w.conns[c].userId] == r && r in w.users
    requires u == w.users[r].(conns := w.users[r].conns - {w.conns[c].handle},
                              unvalidated := w.users[r].unvalidated - {c})
    ensures GoodBut(if u.conns == map[] then RemoveUser(w.(users := w.users[r := u]), r)
                    else w.(users := w.users[r := u]), db, {c})
  {
    hide UserOk, ConnOk, IdOk, NameOk;
    var v := w.(users := w.users[r := u]);
    LosesOne(w, db, c, r);
    UserOfOpen(w, db, c, r);
    if u.conns != map[] {
      StillOk(w, db, r, u);
      ChangeUser(w, db, r, u, {c});
    } else {
      OthersAfterLeave(w, db, c, r, u);
      DeleteUser(v, db, r, {c}, v.byId - {u.userId});
    }
  }

  lemma UserOfOpen(w: World, db: Database, c: ConnRef, r: UserRef)
    requires Good(w, db) && c in w.conns && r in w.users
    requires w.conns[c].userId in w.byId && w.byId[w.conns[c].userId] == r
    ensures UserOk(w, db, r) && w.users[r].validated && w.users[r].userId == w.conns[c].userId
    ensures w.users[r].loginName in w.byName && w.byName[w.users[r].loginName] == r
  {
    hide ConnOk;
    assert UserOk(w, db, r) && IdOk(w, w.conns[c].userId);
  }

  /** A validated user that gives up some of what it holds, but not all of its connections. */
  lemma StillOk(w: World, db: Database, r: UserRef, u: User)
    requires r in w.users && UserOk(w, db, r) && u.conns != map[]
    requires var t := w.users[r];
      && u == t.(conns := u.conns, unvalidated := u.unvalidated) && t.validated && u.unvalidated <= t.unvalidated
      && forall h :: h in u.conns ==> h in t.conns && u.conns[h] == t.conns[h]
    ensures UserOk(w.(users := w.users[r := u]), db, r)
  {
    var v := w.(users := w.users[r := u]);
    forall h | h in u.conns ensures HeldOpen(v, u, h) {
      assert HeldOpen(w, w.users[r], h);
    }
    forall d | d in u.unvalidated ensures HeldWaiting(v, u, d) {
      assert HeldWaiting(w, w.users[r], d);
    }
  }

  lemma LosesOne(w: World, db: Database, c: ConnRef, r: UserRef)
    requires Good(w, db) && c in w.conns && !w.conns[c].closed && w.conns[c].open
    requires w.conns[c].userId in w.byId && w.byId[w.conns[c].userId] == r && r in w.users
    ensures var t := w.users[r];
      && w.conns[c].handle in t.conns && t.conns[w.conns[c].handle] == c
      && forall h :: h in t.conns && t.conns[h] != c ==> h != w.conns[c].handle
  {
    assert ConnOk(w, c);
  }

  lemma NotOfTheEmptied(w: World, db: Database, c: ConnRef, r: UserRef, u: User, d: ConnRef)
    requires Good(w, db) && c in w.conns && r in w.users && u.conns == map[] && d in w.conns && d != c
    requires w.conns[c].userId in w.byId && w.byId[w.conns[c].userId] == r && !w.conns[c].closed && w.conns[c].open
    requires u == w.users[r].(conns := w.users[r].conns - {w.conns[c].handle},
                              unvalidated := w.users[r].unvalidated - {c})
    ensures !w.conns[d].closed && w.conns[d].open && Registered(w, d) ==> w.byId[w.conns[d].userId] != r
  {
    hide UserOk, NameOk, IdOk;
    assert forall h :: h in w.users[r].conns && h != w.conns[c].handle ==> h in u.conns;
  }

  /** Everything but the emptied user is as before, except that `c` is not registered. */
  lemma OthersAfterLeave(w: World, db: Database, c: ConnRef, r: UserRef, u: User)
    requires Good(w, db) && c in w.conns && r in w.users && u.conns == map[]
    requires w.conns[c].userId in w.byId && w.byId[w.conns[c].userId] == r && !w.conns[c].closed && w.conns[c].open
    requires u == w.users[r].(conns := w.users[r].conns - {w.conns[c].handle},
                              unvalidated := w.users[r].unvalidated - {c})
    ensures var v := w.(users := w.users[r := u]);
      && (forall n :: n in v.byName ==> NameOk(v, n))
      && (forall i :: i in v.byId ==> IdOk(v, i))
      && (forall q :: q in v.users && q != r ==> UserOk(v, db, q))
      && (forall d :: d in v.conns && d != c ==> ConnOk(v, d))
  {
    var v := w.(users := w.users[r := u]);
    hide UserOk;
    forall q | q in v.users && q != r ensures UserOk(v, db, q) {
      UserKnown(w, db, q);
      SameUser(w, v, db, q);
    }
    forall n | n in v.byName ensures NameOk(v, n) {
      assert NameOk(w, n);
    }
    forall i | i in v.byId ensures IdOk(v, i) {
      assert IdOk(w, i);
    }
    forall d | d in v.conns && d != c ensures ConnOk(v, d) {
      NotOfTheEmptied(w, db, c, r, u, d);
      SameConn(w, v, d);
    }
  }

  /** Who holds `c` is only a user with the login name of `c`, that holds it as waiting. */
  lemma LeaveByNameKeeps(w: World, db: Database, c: ConnRef)
    requires GoodBut(w, db, {c}) && c in w.conns
    requires Unheld(w, c) || (!w.conns[c].closed && !w.conns[c].open)
    requires w.conns[c].loginName in w.byName ==> w.byName[w.conns[c].loginName] in w.users
    ensures GoodBut(LeaveByName(w, c), db, {c}) && Unheld(LeaveByName(w, c), c)
    ensures LeaveByName(w, c).conns == w.conns
  {
    hide UserOk, ConnOk, IdOk;
    var n := w.conns[c].loginName;
    HeldByItsName(w, db, c);
    if n in w.byName {
      var r := w.byName[n];
      var u := w.users[r].(unvalidated := w.users[r].unvalidated - {c});
      var v := w.(users := w.users[r := u]);
      RemoveWaiting(w, db, r, c, {c});
      assert NameOk(w, n);
      if u.conns == map[] {
        EmptyIsUnvalidated(v, db, r);
        NoUserZero(v, db, {c});
        DeleteUser(v, db, r, {c}, v.byId);
        assert v.byId - {0} == v.byId;
      }
    }
  }

  lemma EmptyIsUnvalidated(w: World, db: Database, r: UserRef)
    requires r in w.users && UserOk(w, db, r) && w.users[r].conns == map[]
    ensures !w.users[r].validated && w.users[r].userId == 0
  {
  }

  lemma HeldByItsName(w: World, db: Database, c: ConnRef)
    requires GoodBut(w, db, {c}) && c in w.conns
    requires Unheld(w, c) || (!w.conns[c].closed && !w.conns[c].open)
    ensures forall r :: r in w.users && Holds(w.users[r], c) ==>
      w.conns[c].loginName in w.byName && w.byName[w.conns[c].loginName] == r
    ensures forall r :: r in w.users ==> !Holds(w.users[r].(unvalidated := w.users[r].unvalidated - {c}), c)
  {
    forall r | r in w.users && Holds(w.users[r], c)
      ensures w.conns[c].loginName in w.byName && w.byName[w.conns[c].loginName] == r
    {
      HoldsWhat(w, db, r, c);
      UserKnown(w, db, r);
    }
    forall r | r in w.users ensures !Holds(w.users[r].(unvalidated := w.users[r].unvalidated - {c}), c) {
      if Holds(w.users[r], c) {
        HoldsWhat(w, db, r, c);
      }
    }
  }

  lemma IndexesLive(w: World, db: Database, x: set<ConnRef>)
    requires GoodBut(w, db, x)
    ensures forall n :: n in w.byName ==> w.byName[n] in w.users
    ensures forall i :: i in w.byId ==> w.byId[i] in w.users
  {
    forall n | n in w.byName ensures w.byName[n] in w.users { assert NameOk(w, n); }
    forall i | i in w.byId ensures w.byId[i] in w.users { assert IdOk(w, i); }
  }

  lemma CloseKeeps(w: World, db: Database, c: ConnRef)
    requires Good(w, db) && c in w.conns && !w.conns[c].closed
    ensures Close(w, c).Next? && Good(Close(w, c).world, db)
  {
    hide GoodBut, LeaveById, LeaveByName, Unheld;
    IndexesLive(w, db, {});
    LeaveByIdKeeps(w, db, c);
    var v := LeaveById(w, c);
    IndexesLive(v, db, {c});
    LeaveByNameKeeps(v, db, c);
    ChangeUnheld(LeaveByName(v, c), db, c, w.conns[c].(closed := true));
  }

  // ---- the answer of the data base ----

  lemma AwaitsOne(w: World, db: Database, n: string, h: Handle, c: ConnRef, d: ConnRef)
    requires Good(w, db) && Awaits(w, n, h, c) && Awaits(w, n, h, d)
    ensures c == d
  {
    var r := w.byName[n];
    assert UserOk(w, db, r);
    assert HeldWaiting(w, w.users[r], c) && HeldWaiting(w, w.users[r], d);
  }

  /** Every index entry of the id is a validated user, so that the merge does not delete it. */
  lemma IndexedSurvives(w: World, db: Database, n: string, c: ConnRef)
    requires Good(w, db) && n in w.byName && w.byName[n] in w.users
    ensures forall i :: i in w.byId ==>
      w.byId[i] in w.users && (w.byId[i] == w.byName[n] ==> w.users[w.byName[n]].conns != map[])
  {
    forall i | i in w.byId
      ensures w.byId[i] in w.users && (w.byId[i] == w.byName[n] ==> w.users[w.byName[n]].conns != map[])
    {
      assert IdOk(w, i);
      assert UserOk(w, db, w.byId[i]);
    }
  }

  lemma AwaitedIsLive(w: World, db: Database, n: string, h: Handle, c: ConnRef)
    requires Good(w, db) && Awaits(w, n, h, c)
    ensures !w.conns[c].closed && w.conns[c].loginName == n != "" && w.conns[c].userId == 0
  {
    var r := w.byName[n];
    assert UserOk(w, db, r) && NameOk(w, n) && ConnOk(w, c);
    assert HeldWaiting(w, w.users[r], c);
  }

  /** A validated user takes in a connection that nobody holds. */
  lemma EnterKnown(w: World, db: Database, p: UserRef, c: ConnRef)
    requires Good(w, db) && p in w.users && w.users[p].validated && Unheld(w, c)
    requires c in w.conns && !w.conns[c].closed && !w.conns[c].open && w.conns[c].loginName != ""
    ensures Good(Enter(w, p, w.users[p].userId, c), db)
  {
    hide UserOk, ConnOk;
    var i, h := w.users[p].userId, w.conns[c].handle;
    var v := Enter(w, p, i, c);
    UserKnown(w, db, p);
    forall r | r in v.users ensures UserOk(v, db, r) {
      if r == p {
        EnteredUser(w, db, p, i, c);
      } else {
        UserKnown(w, db, r);
        SameUser(w, v, db, r);
      }
    }
    HandleFree(w, db, p, c);
    EntersConns(w, v, db, p, i, c);
  }

  /** The handle of a connection that nobody holds is not in use in a map. */
  lemma HandleFree(w: World, db: Database, p: UserRef, c: ConnRef)
    requires Good(w, db) && p in w.users && Unheld(w, c) && c in w.conns && !w.conns[c].closed
    ensures w.conns[c].handle !in w.users[p].conns
  {
    hide ConnOk;
    assert UserOk(w, db, p);
    var u := w.users[p];
    forall h | h in u.conns ensures h != w.conns[c].handle {
      assert HeldOpen(w, u, h) && Holds(u, u.conns[h]);
    }
  }

  lemma EnteredUser(w: World, db: Database, p: UserRef, i: nat, c: ConnRef)
    requires p in w.users && UserOk(w, db, p) && c in w.conns && Unheld(w, c) && !w.conns[c].closed
    requires i > 0 && (w.users[p].validated ==> i == w.users[p].userId) && i == db(w.users[p].loginName)
    requires i in w.byId ==> w.byId[i] == p
    ensures UserOk(Enter(w, p, i, c), db, p)
  {
    var v := Enter(w, p, i, c);
    var t, u := w.users[p], v.users[p];
    forall h | h in u.conns ensures HeldOpen(v, u, h) {
      if h != w.conns[c].handle {
        assert HeldOpen(w, t, h) && Holds(t, t.conns[h]);
      }
    }
    forall d | d in u.unvalidated ensures HeldWaiting(v, u, d) {
      assert HeldWaiting(w, t, d);
    }
    assert w.conns[c].handle in u.conns;
  }

  lemma EntersConns(w: World, v: World, db: Database, p: UserRef, i: nat, c: ConnRef)
    requires Good(w, db) && p in w.users && c in w.conns && !w.conns[c].open && w.conns[c].loginName != ""
    requires v == Enter(w, p, i, c) && i > 0 && (i in w.byId ==> w.byId[i] == p)
    requires w.conns[c].handle !in w.users[p].conns
    requires w.users[p].validated ==> w.users[p].userId == i
    ensures forall d :: d in v.conns ==> ConnOk(v, d)
  {
    hide UserOk;
    forall d | d in v.conns ensures ConnOk(v, d) {
      if d != c {
        SameConn(w, v, d);
      }
    }
  }

  /** The first connection of a name: its user gets the id and enters the id index. */
  lemma EnterFirst(w: World, db: Database, n: string, c: ConnRef)
    requires Good(w, db) && n in w.byName && w.byName[n] in w.users && Unheld(w, c)
    requires c in w.conns && !w.conns[c].closed && !w.conns[c].open && w.conns[c].loginName != ""
    requires db(n) > 0 && db(n) !in w.byId
    ensures Good(Enter(w, w.byName[n], db(n), c), db)
  {
    hide UserOk, ConnOk;
    var p, i := w.byName[n], db(n);
    var v := Enter(w, p, i, c);
    assert NameOk(w, n);
    NotYetValidated(w, db, n);
    forall r | r in v.users ensures UserOk(v, db, r) {
      if r == p {
        EnteredUser(w, db, p, i, c);
      } else {
        UserKnown(w, db, r);
        SameUser(w, v, db, r);
      }
    }
    HandleFree(w, db, p, c);
    EntersConns(w, v, db, p, i, c);
  }

  lemma NotYetValidated(w: World, db: Database, n: string)
    requires Good(w, db) && n in w.byName && w.byName[n] in w.users && db(n) !in w.byId
    ensures !w.users[w.byName[n]].validated
  {
    assert NameOk(w, n) && UserOk(w, db, w.byName[n]);
  }

  /** Merging and entering is the second half of a close, and entering. */
  lemma MergeLeaves(w: World, db: Database, n: string, c: ConnRef, p: UserRef)
    requires n in w.byName && w.byName[n] in w.users && p in w.users
    requires c in w.conns && w.conns[c].loginName == n
    requires var r := w.byName[n];
      && w.users[r].loginName == n && c in w.users[r].unvalidated && 0 !in w.byId
      && (if p == r then w.users[r].conns != map[] else w.users[r].conns == map[] && w.users[r].userId == 0)
    ensures p in Merge(w, n, c, p).users && p in LeaveByName(w, c).users
    ensures Enter(Merge(w, n, c, p), p, db(n), c) == Enter(LeaveByName(w, c), p, db(n), c)
  {
    var r := w.byName[n];
    var a, b := Merge(w, n, c, p), LeaveByName(w, c);
    if p == r {
      assert w.users[p].unvalidated + {c} - {c} == w.users[p].unvalidated - {c};
      assert a.users[p] == b.users[p];
      assert a.users == b.users;
    } else {
      var t := w.users[p];
      assert a.users[p] == t.(unvalidated := t.unvalidated + {c}) && b.users[p] == t;
      assert (t.unvalidated + {c}) - {c} == t.unvalidated - {c};
      assert w.byId - {0} == w.byId;
      assert a.byName == b.byName && a.byId == b.byId && a.conns == b.conns;
      SameOutside(a, b, p, db(n), c);
    }
  }

  lemma SameOutside(a: World, b: World, p: UserRef, i: nat, c: ConnRef)
    requires p in a.users && p in b.users && c in a.conns
    requires a.byName == b.byName && a.byId == b.byId && a.conns == b.conns
    requires a.users.Keys == b.users.Keys && forall q :: q in a.users && q != p ==> a.users[q] == b.users[q]
    requires a.users[p].(unvalidated := {}) == b.users[p].(unvalidated := {})
    requires a.users[p].unvalidated - {c} == b.users[p].unvalidated - {c}
    ensures Enter(a, p, i, c) == Enter(b, p, i, c)
  {
    assert Enter(a, p, i, c).users == Enter(b, p, i, c).users;
  }

  lemma GoodWith(w: World, db: Database, c: ConnRef)
    requires GoodBut(w, db, {c}) && c in w.conns && !w.conns[c].open && w.conns[c].userId == 0
    ensures Good(w, db)
  {
    hide UserOk;
    forall d | d in w.conns ensures ConnOk(w, d) {
      assert d != c ==> ConnOk(w, d);
    }
  }

  /** A name whose id belongs to another user has an empty user. */
  lemma OtherUserIsEmpty(w: World, db: Database, n: string)
    requires Good(w, db) && n in w.byName && w.byName[n] in w.users && db(n) in w.byId
    ensures var r, p := w.byName[n], w.byId[db(n)];
      && w.users[r].loginName == n && 0 !in w.byId && p in w.users
      && w.users[p].validated && w.users[p].userId == db(n)
      && (if p == r then w.users[r].conns != map[] else w.users[r].conns == map[] && w.users[r].userId == 0)
  {
    hide ConnOk, DistinctHandles;
    var r, p := w.byName[n], w.byId[db(n)];
    NoUserZero(w, db, {});
    assert NameOk(w, n) && UserOk(w, db, r) && IdOk(w, db(n));
    assert UserOk(w, db, p);
  }

  lemma AcceptKeeps(w: World, db: Database, n: string, c: ConnRef)
    requires Good(w, db) && n in w.byName && w.byName[n] in w.users && c in w.users[w.byName[n]].unvalidated
    requires c in w.conns && !w.conns[c].closed && !w.conns[c].open
    requires w.conns[c].loginName == n != "" && w.conns[c].userId == 0 && db(n) > 0
    ensures Accept(w, db, n, c).Next? && Good(Accept(w, db, n, c).world, db)
  {
    hide GoodBut, Unheld, Enter, Merge, Good, ConnOk, UserOk;
    IndexedSurvives(w, db, n, c);
    if db(n) in w.byId {
      AcceptKnown(w, db, n, c);
    } else {
      AcceptFirst(w, db, n, c);
    }
  }

  lemma AcceptKnown(w: World, db: Database, n: string, c: ConnRef)
    requires Good(w, db) && n in w.byName && w.byName[n] in w.users && c in w.users[w.byName[n]].unvalidated
    requires c in w.conns && !w.conns[c].closed && !w.conns[c].open
    requires w.conns[c].loginName == n != "" && w.conns[c].userId == 0 && db(n) in w.byId
    requires w.byId[db(n)] in w.users
    ensures w.byId[db(n)] in Merge(w, n, c, w.byId[db(n)]).users
    ensures Merge(w, n, c, w.byId[db(n)]).conns == w.conns
    ensures Good(Enter(Merge(w, n, c, w.byId[db(n)]), w.byId[db(n)], db(n), c), db)
  {
    hide GoodBut, Unheld, Enter;
    var p, v := w.byId[db(n)], LeaveByName(w, c);
    assert GoodBut(w, db, {c}) by {
      Weaken(w, db, c);
    }
    LeaveByNameKeeps(w, db, c);
    GoodWith(v, db, c);
    OtherUserIsEmpty(w, db, n);
    MergeLeaves(w, db, n, c, p);
    EnterKnown(v, db, p, c);
  }

  lemma Weaken(w: World, db: Database, c: ConnRef)
    requires Good(w, db)
    ensures GoodBut(w, db, {c})
  {
    hide UserOk, ConnOk;
  }

  lemma AcceptFirst(w: World, db: Database, n: string, c: ConnRef)
    requires Good(w, db) && n in w.byName && w.byName[n] in w.users && c in w.users[w.byName[n]].unvalidated
    requires c in w.conns && !w.conns[c].closed && !w.conns[c].open
    requires w.conns[c].loginName == n != "" && w.conns[c].userId == 0 && db(n) !in w.byId && db(n) > 0
    ensures Good(Enter(w, w.byName[n], db(n), c), db)
  {
    hide GoodBut, Enter, Holds;
    var r := w.byName[n];
    var v := w.(users := w.users[r := w.users[r].(unvalidated := w.users[r].unvalidated - {c})]);
    RemoveWaiting(w, db, r, c, {});
    Weaken(w, db, c);
    HeldByItsName(w, db, c);
    assert Unheld(v, c);
    SameOutside(w, v, r, db(n), c);
    EnterFirst(v, db, n, c);
  }

  lemma WaitingIsAlive(w: World, db: Database, n: string)
    requires Good(w, db) && n in w.byName
    ensures w.byName[n] in w.users && WaitingAlive(w, w.byName[n])
  {
    hide ConnOk;
    var r := w.byName[n];
    assert NameOk(w, n) && UserOk(w, db, r);
    forall c | c in w.users[r].unvalidated ensures c in w.conns && !w.conns[c].closed {
      assert HeldWaiting(w, w.users[r], c);
    }
  }

  lemma AnswerKeeps(w: World, db: Database, n: string, h: Handle, ok: bool)
    requires Good(w, db) && db(n) > 0
    ensures Answer(w, db, n, h, ok).Next? && Good(Answer(w, db, n, h, ok).world, db)
  {
    hide GoodBut, Good, Accept, Close, WaitingAlive;
    if n in w.byName {
      WaitingIsAlive(w, db, n);
    }
    if c :| Awaits(w, n, h, c) {
      forall d | Awaits(w, n, h, d) ensures d == c {
        AwaitsOne(w, db, n, h, c, d);
      }
      AwaitedIsLive(w, db, n, h, c);
      if ok {
        AcceptKeeps(w, db, n, c);
      } else {
        CloseKeeps(w, db, c);
      }
    }
  }
}
