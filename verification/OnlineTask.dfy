/** An online transfer: the rendezvous of a sender and a receiver, whose data the server passes on. */
module OnlineTask {
  import opened OfflineTask

  /** The task: its users, whether a connection of theirs is set in it, and the connections that
      are logged in to it, each with the user it last logged in as. */
  datatype Online = Online(fromUser: nat, toUser: nat, state: TransferState, fromConn: bool, toConn: bool,
                           users: map<nat, nat>)

  /** What a connection does; `user` is the user that the message names. */
  datatype OnlineEvent =
    | Login(conn: nat, user: nat, role: Role)
    | Data(conn: nat, user: nat)
    | Pull(conn: nat, user: nat)
    | Close(conn: nat)

  function NewOnline(fromUser: nat, toUser: nat): Online {
    Online(fromUser, toUser, READY, false, false, map[])
  }

  predicate Fits(fromUser: nat, toUser: nat, user: nat, role: Role) {
    match role
    case RealtimeSender => user == fromUser
    case RealtimeReceiver => user == toUser
    case _ => false
  }

  /** ChangePullState: the first side waits for the other. */
  function NextPullState(s: TransferState, role: Role): TransferState {
    if s == READY then (if role.RealtimeSender? then WAITING_RECEIVER else WAITING_SENDER)
    else if s == WAITING_RECEIVER && role.RealtimeReceiver? then WAITING_TRANSFER
    else if s == WAITING_SENDER && role.RealtimeSender? then WAITING_TRANSFER
    else s
  }

  /** DoRecvData and DoPullFileRequest: the code, and the state. */
  function Transfers(s: TransferState): (TransferState, int) {
    if s == WAITING_TRANSFER || s == TRANSFERING then (TRANSFERING, 0) else (s, -1)
  }

  function SetConn(t: Online, user: nat, conn: bool): Online {
    if user == t.fromUser then t.(fromConn := conn) else if user == t.toUser then t.(toConn := conn) else t
  }

  /** The close of a connection: the task that it is logged in to, if any, becomes invalid. */
  function Closed(t: Online, conn: nat): Online {
    if conn in t.users then SetConn(t.(state := INVALID, users := t.users - {conn}), t.users[conn], false) else t
  }

  /** A step of a connection; one that fails closes the connection. Data and requests of a
      connection that is not logged in are ignored. */
  function Step(t: Online, e: OnlineEvent): Online {
    match e
    case Login(conn, user, role) =>
      if !Fits(t.fromUser, t.toUser, user, role) then Closed(t, conn)
      else
        var t1 := SetConn(t.(state := NextPullState(t.state, role), users := t.users[conn := user]), user, true);
        if t1.state == WAITING_TRANSFER && !t1.toConn then Closed(t1, conn) else t1
    case Data(conn, user) => Moved(t, conn, user, t.fromUser)
    case Pull(conn, user) => Moved(t, conn, user, t.toUser)
    case Close(conn) => Closed(t, conn)
  }

  /** Data or a request, which only `side` may send, and only under the user of its connection. */
  function Moved(t: Online, conn: nat, user: nat, side: nat): Online {
    if conn !in t.users then t
    else
      var (s, code) := if user == t.users[conn] && user == side then Transfers(t.state) else (t.state, -1);
      if code == 0 then t.(state := s) else Closed(t, conn)
  }

  function Run(t: Online, run: seq<OnlineEvent>): Online {
    if run == [] then t else Step(Run(t, run[..|run| - 1]), run[|run| - 1])
  }

  /** Ready, waiting for one side, waiting for the transfer, in transfer. */
  function Progress(s: TransferState): int {
    if s == READY then 0
    else if s == WAITING_SENDER || s == WAITING_RECEIVER then 1
    else if s == WAITING_TRANSFER then 2
    else if s == TRANSFERING then 3
    else 4
  }

  /** Which logins a state stands for. */
  predicate StandsFor(s: TransferState, sender: bool, receiver: bool) {
    && (s == READY <==> !sender && !receiver)
    && (s == WAITING_RECEIVER <==> sender && !receiver)
    && (s == WAITING_SENDER <==> !sender && receiver)
    && (s in {WAITING_TRANSFER, TRANSFERING} <==> sender && receiver)
  }

  ghost predicate SenderIn(run: seq<OnlineEvent>, user: nat) { exists c :: Login(c, user, RealtimeSender) in run }

  ghost predicate ReceiverIn(run: seq<OnlineEvent>, user: nat) { exists c :: Login(c, user, RealtimeReceiver) in run }

  lemma OneMore(front: seq<OnlineEvent>, e: OnlineEvent, user: nat)
    ensures SenderIn(front + [e], user) <==>
      (SenderIn(front, user) || (e.Login? && e.user == user && e.role.RealtimeSender?))
    ensures ReceiverIn(front + [e], user) <==>
      (ReceiverIn(front, user) || (e.Login? && e.user == user && e.role.RealtimeReceiver?))
  {
    var run := front + [e];
    assert e in run && forall x :: x in run <==> x in front || x == e;
    if e.Login? {
      assert e == Login(e.conn, e.user, e.role);
    }
  }

  /** Along every run: until some connection that is logged in closes, the state tells exactly
      which of the two sides have logged in under their roles. */
  lemma {:induction false} StateIsLogins(fromUser: nat, toUser: nat, run: seq<OnlineEvent>)
    ensures var t := Run(NewOnline(fromUser, toUser), run);
      && t.fromUser == fromUser && t.toUser == toUser
      && (t.state != INVALID ==> StandsFor(t.state, SenderIn(run, fromUser), ReceiverIn(run, toUser)))
  {
    if run != [] {
      hide SenderIn, ReceiverIn;
      var front, e := run[..|run| - 1], run[|run| - 1];
      StateIsLogins(fromUser, toUser, front);
      assert run == front + [e];
      OneMore(front, e, fromUser);
      OneMore(front, e, toUser);
    } else {
      assert !SenderIn([], fromUser) && !ReceiverIn([], toUser);
    }
  }

  // ---- logins alone ----

  predicate OnlyLogins(run: seq<OnlineEvent>) { forall k :: 0 <= k < |run| ==> run[k].Login? }

  /** The connection has logged in as a side of the transfer. */
  predicate LoggedIn(fromUser: nat, toUser: nat, run: seq<OnlineEvent>, conn: nat)
    requires OnlyLogins(run)
  {
    exists j :: 0 <= j < |run| && run[j].conn == conn && Fits(fromUser, toUser, run[j].user, run[j].role)
  }

  /** Some connection that had logged in tried again and did not fit. */
  predicate Spoiled(fromUser: nat, toUser: nat, run: seq<OnlineEvent>)
    requires OnlyLogins(run)
  {
    exists j, k :: 0 <= j < k < |run| && run[j].conn == run[k].conn
      && Fits(fromUser, toUser, run[j].user, run[j].role) && !Fits(fromUser, toUser, run[k].user, run[k].role)
  }

  lemma OneMoreLogin(fromUser: nat, toUser: nat, front: seq<OnlineEvent>, e: OnlineEvent)
    requires OnlyLogins(front) && e.Login?
    ensures var run, fits := front + [e], Fits(fromUser, toUser, e.user, e.role);
      && (Spoiled(fromUser, toUser, run) <==>
            Spoiled(fromUser, toUser, front) || (!fits && LoggedIn(fromUser, toUser, front, e.conn)))
      && forall c :: LoggedIn(fromUser, toUser, run, c) <==>
           (LoggedIn(fromUser, toUser, front, c) || (fits && c == e.conn))
  {
    hide Fits;
    var run := front + [e];
    assert run[|front|] == e && forall i :: 0 <= i < |front| ==> run[i] == front[i];
  }

  /** Between a user and itself no connection is the receiver's. */
  lemma {:induction false} SelfLoginsKeep(user: nat, run: seq<OnlineEvent>)
    requires OnlyLogins(run)
    ensures var t := Run(NewOnline(user, user), run);
      && t.fromUser == t.toUser == user && !t.toConn && t.state != WAITING_TRANSFER && t.state != TRANSFERING
  {
    if run == [] {
    } else {
      SelfLoginsKeep(user, run[..|run| - 1]);
    }
  }

  /** What logins alone leave between two users: a task that is spoiled is invalid; otherwise the
      connections that logged in are those of the task, and a receiver is set once its side is in. */
  ghost predicate AfterLogins(t: Online, spoiled: bool) {
    && t.fromUser != t.toUser && t.state != TRANSFERING && (spoiled <==> t.state == INVALID)
    && (!spoiled && t.state in {WAITING_SENDER, WAITING_TRANSFER} ==> t.toConn)
  }

  lemma LoginKeeps(t: Online, conn: nat, user: nat, role: Role, spoiled: bool)
    requires AfterLogins(t, spoiled)
    ensures var fits, u := Fits(t.fromUser, t.toUser, user, role), Step(t, Login(conn, user, role));
      && u.fromUser == t.fromUser && u.toUser == t.toUser
      && AfterLogins(u, spoiled || (!fits && conn in t.users))
      && (u.state != INVALID ==> forall c :: c in u.users <==> c in t.users || (fits && c == conn))
  {
  }

  lemma {:induction false} LoginsKeep(fromUser: nat, toUser: nat, run: seq<OnlineEvent>)
    requires OnlyLogins(run) && fromUser != toUser
    ensures var t := Run(NewOnline(fromUser, toUser), run);
      && t.fromUser == fromUser && t.toUser == toUser
      && AfterLogins(t, Spoiled(fromUser, toUser, run))
      && (t.state != INVALID ==> forall c :: c in t.users <==> LoggedIn(fromUser, toUser, run, c))
  {
    if run == [] {
    } else {
      hide Spoiled, LoggedIn, Step, Fits, AfterLogins;
      var front, e := run[..|run| - 1], run[|run| - 1];
      LoginsKeep(fromUser, toUser, front);
      assert run == front + [e];
      OneMoreLogin(fromUser, toUser, front, e);
      var t := Run(NewOnline(fromUser, toUser), front);
      LoginKeeps(t, e.conn, e.user, e.role, Spoiled(fromUser, toUser, front));
      SpoiledIsInvalid(t, Spoiled(fromUser, toUser, front), e);
    }
  }

  lemma SpoiledIsInvalid(t: Online, spoiled: bool, e: OnlineEvent)
    requires AfterLogins(t, spoiled)
    ensures spoiled <==> t.state == INVALID
    ensures t.state == INVALID ==> Step(t, e).state == INVALID
  {
  }

  /** After logins alone a side has a connection set exactly when it has come in. */
  lemma {:induction false} ConnsAreSides(fromUser: nat, toUser: nat, run: seq<OnlineEvent>)
    requires OnlyLogins(run) && fromUser != toUser
    ensures var t := Run(NewOnline(fromUser, toUser), run);
      t.state != INVALID ==>
        (t.fromConn <==> SenderIn(run, fromUser)) && (t.toConn <==> ReceiverIn(run, toUser))
  {
    if run == [] {
      assert !SenderIn([], fromUser) && !ReceiverIn([], toUser);
    } else {
      hide SenderIn, ReceiverIn;
      var front, e := run[..|run| - 1], run[|run| - 1];
      ConnsAreSides(fromUser, toUser, front);
      StateIsLogins(fromUser, toUser, front);
      assert run == front + [e];
      OneMore(front, e, fromUser);
      OneMore(front, e, toUser);
    }
  }

  /** A close forgets the connection and unsets that of its side; the other side keeps its own. */
  lemma CloseForgets(t: Online, conn: nat)
    requires conn in t.users
    ensures var u, user := Step(t, Close(conn)), t.users[conn];
      && u.state == INVALID && u.users == t.users - {conn} && u.fromUser == t.fromUser && u.toUser == t.toUser
      && (user == t.fromUser ==> !u.fromConn && u.toConn == t.toConn)
      && (user != t.fromUser && user == t.toUser ==> !u.toConn && u.fromConn == t.fromConn)
      && (user != t.fromUser && user != t.toUser ==> u.fromConn == t.fromConn && u.toConn == t.toConn)
  {
  }

  /** When only logins happen and both sides come in, the transfer gets ready if and only if its
      users differ and no connection that had logged in tried again with a login that does not
      fit: such a login closes the connection, and the close makes the task invalid. Between a
      user and itself no connection is the receiver's. */
  lemma LoginsMeet(fromUser: nat, toUser: nat, run: seq<OnlineEvent>)
    requires OnlyLogins(run) && SenderIn(run, fromUser) && ReceiverIn(run, toUser)
    ensures Run(NewOnline(fromUser, toUser), run).state ==
      if fromUser != toUser && !Spoiled(fromUser, toUser, run) then WAITING_TRANSFER else INVALID
  {
    if fromUser == toUser {
      SelfLoginsKeep(fromUser, run);
    } else {
      LoginsKeep(fromUser, toUser, run);
    }
    StateIsLogins(fromUser, toUser, run);
  }

  // ---- the transfer ----

  predicate OnlyMoves(run: seq<OnlineEvent>) { forall k :: 0 <= k < |run| ==> run[k].Data? || run[k].Pull? }

  /** Who may send it: the sender sends data, the receiver asks for it. */
  function SideOf(fromUser: nat, toUser: nat, e: OnlineEvent): nat { if e.Data? then fromUser else toUser }

  /** Data or a request names the user that its connection is logged in as, which is the side that
      may send it. */
  predicate Fitting(t: Online, e: OnlineEvent)
    requires e.Data? || e.Pull?
  {
    e.conn in t.users && t.users[e.conn] == e.user == SideOf(t.fromUser, t.toUser, e)
  }

  /** When both sides are in, data or a request moves the task to the transfer, and changes nothing
      else, if it fits; it is ignored if its connection is not logged in; else the task is invalid. */
  lemma MoveGoesOn(t: Online, e: OnlineEvent)
    requires t.state in {WAITING_TRANSFER, TRANSFERING} && (e.Data? || e.Pull?)
    ensures var u := Step(t, e);
      && (u == t.(state := TRANSFERING) && e.conn in t.users <==> Fitting(t, e))
      && (e.conn !in t.users ==> u == t)
      && (u.state == INVALID <==> e.conn in t.users && !Fitting(t, e))
  {
  }

  /** Before both sides are in, it makes the task invalid. */
  lemma MoveTooEarly(t: Online, e: OnlineEvent)
    requires t.state !in {WAITING_TRANSFER, TRANSFERING} && (e.Data? || e.Pull?)
    ensures Step(t, e).state == if e.conn in t.users then INVALID else t.state
  {
  }

  ghost predicate SomeMisfit(t: Online, moves: seq<OnlineEvent>)
    requires OnlyMoves(moves)
  {
    exists k :: 0 <= k < |moves| && moves[k].conn in t.users && !Fitting(t, moves[k])
  }

  ghost predicate SomeFit(t: Online, moves: seq<OnlineEvent>)
    requires OnlyMoves(moves)
  {
    exists k :: 0 <= k < |moves| && Fitting(t, moves[k])
  }

  lemma OneMoreMove(t: Online, front: seq<OnlineEvent>, e: OnlineEvent)
    requires OnlyMoves(front) && (e.Data? || e.Pull?)
    ensures SomeMisfit(t, front + [e]) <==> SomeMisfit(t, front) || (e.conn in t.users && !Fitting(t, e))
    ensures SomeFit(t, front + [e]) <==> SomeFit(t, front) || Fitting(t, e)
  {
    hide Fitting;
    var run := front + [e];
    assert run[|front|] == e && forall i :: 0 <= i < |front| ==> run[i] == front[i];
  }

  lemma {:induction false} MovesGoOn(t: Online, moves: seq<OnlineEvent>)
    requires t.state in {WAITING_TRANSFER, TRANSFERING} && OnlyMoves(moves)
    ensures if SomeMisfit(t, moves) then Run(t, moves).state == INVALID
            else Run(t, moves) == t.(state := if SomeFit(t, moves) then TRANSFERING else t.state)
  {
    hide SomeMisfit, SomeFit, Step;
    if moves == [] {
      assert !SomeMisfit(t, moves) && !SomeFit(t, moves) by { NoMoves(t); }
    } else {
      var front, e := moves[..|moves| - 1], moves[|moves| - 1];
      assert moves == front + [e];
      MovesGoOn(t, front);
      OneMoreMove(t, front, e);
      if SomeMisfit(t, front) {
        StepGoesForward(Run(t, front), e);
      } else {
        MoveGoesOn(Run(t, front), e);
      }
    }
  }

  lemma NoMoves(t: Online)
    ensures !SomeMisfit(t, []) && !SomeFit(t, [])
  {
  }

  /** The connection last logged in as this user. */
  ghost predicate LoggedAs(logins: seq<OnlineEvent>, conn: nat, user: nat)
    requires OnlyLogins(logins)
  {
    exists j :: 0 <= j < |logins| && LastAt(logins, j, conn, user)
  }

  ghost predicate LastAt(logins: seq<OnlineEvent>, j: nat, conn: nat, user: nat)
    requires OnlyLogins(logins) && j < |logins|
  {
    logins[j].conn == conn && logins[j].user == user && forall k :: j < k < |logins| ==> logins[k].conn != conn
  }

  lemma LoggedAsMore(front: seq<OnlineEvent>, e: OnlineEvent, conn: nat, user: nat)
    requires OnlyLogins(front) && e.Login?
    ensures LoggedAs(front + [e], conn, user) <==>
      if e.conn == conn then e.user == user else LoggedAs(front, conn, user)
  {
    var run := front + [e];
    assert run[|front|] == e && forall i :: 0 <= i < |front| ==> run[i] == front[i];
    if e.conn == conn {
      forall j | 0 <= j < |run| && LastAt(run, j, conn, user) ensures j == |front| {
      }
      assert LastAt(run, |front|, conn, user) <==> e.user == user;
    } else {
      assert !LastAt(run, |front|, conn, user);
      forall j | 0 <= j < |front| ensures LastAt(run, j, conn, user) <==> LastAt(front, j, conn, user) {
      }
    }
  }

  /** After logins alone, each connection of the task is the one of its last login. */
  lemma {:induction false} UsersAreLast(fromUser: nat, toUser: nat, run: seq<OnlineEvent>)
    requires OnlyLogins(run)
    ensures var t := Run(NewOnline(fromUser, toUser), run);
      t.state != INVALID ==> forall c, u :: c in t.users ==> (LoggedAs(run, c, u) <==> t.users[c] == u)
  {
    if run == [] {
    } else {
      hide LoggedAs, Step;
      var front, e := run[..|run| - 1], run[|run| - 1];
      UsersAreLast(fromUser, toUser, front);
      assert run == front + [e];
      forall c, u ensures LoggedAs(run, c, u) <==> if e.conn == c then e.user == u else LoggedAs(front, c, u) {
        LoggedAsMore(front, e, c, u);
      }
      UsersOfLogin(Run(NewOnline(fromUser, toUser), front), e);
    }
  }

  lemma UsersOfLogin(t: Online, e: OnlineEvent)
    requires e.Login?
    ensures var u := Step(t, e);
      u.state != INVALID ==>
        && t.state != INVALID
        && forall c :: c in u.users ==>
             (c in t.users || c == e.conn) && u.users[c] == if c == e.conn then e.user else t.users[c]
  {
  }

  /** Whether data or a request fits, in terms of the logins before it. */
  ghost predicate Fit(fromUser: nat, toUser: nat, logins: seq<OnlineEvent>, e: OnlineEvent)
    requires OnlyLogins(logins) && (e.Data? || e.Pull?)
  {
    && LoggedIn(fromUser, toUser, logins, e.conn) && LoggedAs(logins, e.conn, e.user)
    && e.user == SideOf(fromUser, toUser, e)
  }

  ghost predicate MisfitIn(fromUser: nat, toUser: nat, logins: seq<OnlineEvent>, moves: seq<OnlineEvent>)
    requires OnlyLogins(logins) && OnlyMoves(moves)
  {
    exists k :: (0 <= k < |moves| && LoggedIn(fromUser, toUser, logins, moves[k].conn)
                 && !Fit(fromUser, toUser, logins, moves[k]))
  }

  ghost predicate FitIn(fromUser: nat, toUser: nat, logins: seq<OnlineEvent>, moves: seq<OnlineEvent>)
    requires OnlyLogins(logins) && OnlyMoves(moves)
  {
    exists k :: 0 <= k < |moves| && Fit(fromUser, toUser, logins, moves[k])
  }

  lemma {:induction false} RunJoin(t: Online, a: seq<OnlineEvent>, b: seq<OnlineEvent>)
    ensures Run(t, a + b) == Run(Run(t, a), b)
    decreases |b|
  {
    hide Step;
    if b == [] {
      assert a + b == a;
    } else {
      var front, e := b[..|b| - 1], b[|b| - 1];
      RunJoin(t, a, front);
      assert (a + b)[..|a + b| - 1] == a + front;
    }
  }

  /** After logins that meet: data from connections that are logged in as the sender, under its
      name, and requests from those of the receiver keep the transfer going, in any number and
      order. It ends exactly when a connection that is logged in sends what does not fit. */
  lemma TransferGoesOn(fromUser: nat, toUser: nat, logins: seq<OnlineEvent>, moves: seq<OnlineEvent>)
    requires OnlyLogins(logins) && SenderIn(logins, fromUser) && ReceiverIn(logins, toUser)
    requires fromUser != toUser && !Spoiled(fromUser, toUser, logins)
    requires OnlyMoves(moves)
    ensures Run(NewOnline(fromUser, toUser), logins + moves).state ==
      if MisfitIn(fromUser, toUser, logins, moves) then INVALID
      else if FitIn(fromUser, toUser, logins, moves) then TRANSFERING
      else WAITING_TRANSFER
  {
    hide Spoiled, LoggedIn, LoggedAs, SenderIn, ReceiverIn, Run;
    LoginsMeet(fromUser, toUser, logins);
    LoginsKeep(fromUser, toUser, logins);
    UsersAreLast(fromUser, toUser, logins);
    var t := Run(NewOnline(fromUser, toUser), logins);
    MovesGoOn(t, moves);
    RunJoin(NewOnline(fromUser, toUser), logins, moves);
    assert forall k :: 0 <= k < |moves| ==> (Fitting(t, moves[k]) <==> Fit(fromUser, toUser, logins, moves[k]));
  }

  /** A step moves the state forward by at most one stage or makes it invalid, which it stays. */
  lemma StepGoesForward(t: Online, e: OnlineEvent)
    ensures var s := Step(t, e).state;
      && (t.state == INVALID ==> s == INVALID)
      && (s == t.state || s == INVALID || Progress(s) == Progress(t.state) + 1)
      && (e.Close? && e.conn in t.users ==> s == INVALID)
      && (s == TRANSFERING && t.state != s ==> e.Data? || e.Pull?)
  {
  }

  lemma {:induction false} RunGoesForward(t: Online, run: seq<OnlineEvent>, k: nat)
    requires k <= |run|
    ensures var was, now := Run(t, run[..k]).state, Run(t, run).state;
      && (was == INVALID ==> now == INVALID)
      && (now != INVALID ==> Progress(was) <= Progress(now))
  {
    if k == |run| {
      assert run[..k] == run;
    } else {
      var front := run[..|run| - 1];
      assert front[..k] == run[..k];
      RunGoesForward(t, front, k);
      StepGoesForward(Run(t, front), run[|run| - 1]);
    }
  }

  /** A run in which some connection that is logged in closes ends invalid, and such a close is
      also what every login, data or request of it that fails ends in. */
  lemma ClosedIsInvalid(t: Online, run: seq<OnlineEvent>, k: nat)
    requires k < |run|
    requires var was := Run(t, run[..k]); run[k].conn in was.users && Step(was, run[k]) == Closed(was, run[k].conn)
    ensures Run(t, run).state == INVALID
  {
    var upto := run[..k + 1];
    assert upto[..|upto| - 1] == run[..k];
    StepGoesForward(Run(t, run[..k]), run[k]);
    RunGoesForward(t, run, k + 1);
  }

  /** The task, and of each connection that is logged in to it the user it logged in as. */
  class OnlineTransferTask {
    const fromUser: nat
    const toUser: nat
    var state: TransferState
    var fromConn: bool
    var toConn: bool
    var users: map<nat, nat>

    ghost function View(): Online
      reads this
    {
      Online(fromUser, toUser, state, fromConn, toConn, users)
    }

    constructor (fromUser: nat, toUser: nat)
      ensures View() == NewOnline(fromUser, toUser)
    {
      this.fromUser, this.toUser := fromUser, toUser;
      state, fromConn, toConn, users := READY, false, false, map[];
    }

    method ChangePullState(user: nat, role: Role) returns (ok: bool)
      modifies this`state
      ensures ok == Fits(fromUser, toUser, user, role)
      ensures state == if ok then NextPullState(old(state), role) else old(state)
    {
      ok := match role
        case RealtimeSender => user == fromUser
        case RealtimeReceiver => user == toUser
        case _ => false;
      if !ok || state !in {READY, WAITING_SENDER, WAITING_RECEIVER} {
        return;
      }
      if state == READY {
        state := if role == RealtimeSender then WAITING_RECEIVER else WAITING_SENDER;
        return;
      }
      if state == WAITING_RECEIVER && role != RealtimeReceiver {
        return;
      }
      if state == WAITING_SENDER && role != RealtimeSender {
        return;
      }
      state := WAITING_TRANSFER;
    }

    method SetConnByUserID(user: nat, conn: bool)
      modifies this`fromConn, this`toConn
      ensures View() == SetConn(old(View()), user, conn)
    {
      if fromUser == user {
        fromConn := conn;
      } else if toUser == user {
        toConn := conn;
      }
    }

    method CloseConn(conn: nat)
      modifies this
      ensures View() == Closed(old(View()), conn)
    {
      if conn in users {
        var user := users[conn];
        state := INVALID;
        SetConnByUserID(user, false);
        users := users - {conn};
      }
    }

    method HandleLogin(conn: nat, user: nat, role: Role)
      modifies this
      ensures View() == Step(old(View()), Login(conn, user, role))
    {
      var ok := ChangePullState(user, role);
      if ok {
        users := users[conn := user];
        SetConnByUserID(user, true);
        if state == WAITING_TRANSFER && !toConn {
          CloseConn(conn);
        }
      } else {
        CloseConn(conn);
      }
    }

    method DoTransfer() returns (code: int)
      modifies this`state
      ensures (state, code) == Transfers(old(state))
    {
      code := -1;
      if state == WAITING_TRANSFER || state == TRANSFERING {
        if state == WAITING_TRANSFER {
          state := TRANSFERING;
        }
        code := 0;
      }
    }

    method HandleData(conn: nat, user: nat)
      modifies this
      ensures View() == Step(old(View()), Data(conn, user))
    {
      if conn !in users {
        return;
      }
      var code := -1;
      if user == users[conn] && user == fromUser {
        code := DoTransfer();
      }
      if code != 0 {
        CloseConn(conn);
      }
    }

    method HandlePull(conn: nat, user: nat)
      modifies this
      ensures View() == Step(old(View()), Pull(conn, user))
    {
      if conn !in users {
        return;
      }
      var code := -1;
      if user == users[conn] && user == toUser {
        code := DoTransfer();
      }
      if code != 0 {
        CloseConn(conn);
      }
    }
  }
}
