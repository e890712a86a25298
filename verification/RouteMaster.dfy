/** The route servers of a message server: connections that are closed and made again after a wait
    that grows, and the cached choice of the connection that has been open longest. */
module RouteMaster {
  import opened CBytes

  type Ref = nat

  const MAX_RECONNECT_CNT: nat := 64
  const MIN_RECONNECT_CNT: nat := 4
  const NEVER: nat := 0xFFFF_FFFF_FFFF_FFFF

  datatype Conn = Conn(open: bool, connectTime: nat, idx: nat)

  datatype Slot = Slot(conn: Option<Ref>, idle: nat, reconnect: nat)

  /** The list of servers, the live connection objects, the cached master, and the clock. */
  datatype Routes = Routes(list: seq<Slot>, conns: map<Ref, Conn>, master: Option<Ref>, now: nat)

  datatype Event = Confirm(r: Ref, now: nat) | Lose(r: Ref) | Timer(refs: seq<Ref>)

  // ---- the choice ----

  predicate ListedAt(s: Routes, i: nat, r: Ref) {
    i < |s.list| && s.list[i].conn == Some(r) && r in s.conns
  }

  predicate OpenAt(s: Routes, i: nat, r: Ref) { ListedAt(s, i, r) && s.conns[r].open }

  /** The scan of the first `n` entries: the first of the oldest open connections. */
  function Oldest(s: Routes, n: nat): (o: Option<Ref>)
    requires n <= |s.list|
    ensures o.Some? ==> o.value in s.conns
  {
    if n == 0 then None
    else
      var o, c := Oldest(s, n - 1), s.list[n - 1].conn;
      if c.Some? && c.value in s.conns && s.conns[c.value].open &&
         s.conns[c.value].connectTime < (if o.Some? then s.conns[o.value].connectTime else NEVER)
      then c else o
  }

  /** No connection is chosen exactly when none is open; otherwise one of the oldest is. */
  ghost predicate IsOldest(s: Routes, o: Option<Ref>, n: nat) {
    match o
    case None => forall i: nat, r: Ref :: i < n ==> !OpenAt(s, i, r)
    case Some(m) =>
      && (exists i: nat :: i < n && OpenAt(s, i, m))
      && forall i: nat, r: Ref :: i < n && OpenAt(s, i, r) ==>
           m in s.conns && s.conns[m].connectTime <= s.conns[r].connectTime
  }

  lemma {:induction false} ScanFindsOldest(s: Routes, n: nat)
    requires n <= |s.list| && forall r :: r in s.conns ==> s.conns[r].connectTime < NEVER
    ensures IsOldest(s, Oldest(s, n), n)
  {
    if n > 0 {
      ScanFindsOldest(s, n - 1);
      var o, p := Oldest(s, n), Oldest(s, n - 1);
      if o.Some? {
        if o == p {
          var i: nat :| i < n - 1 && OpenAt(s, i, o.value);
          assert i < n && OpenAt(s, i, o.value);
        } else {
          assert OpenAt(s, n - 1, o.value);
        }
      }
    }
  }

  /** Listed at `i`, open, and older than every open connection that is listed before. */
  ghost predicate FirstOldest(s: Routes, i: nat, m: Ref) {
    && OpenAt(s, i, m)
    && forall j: nat, r: Ref :: j < i && OpenAt(s, j, r) ==> s.conns[m].connectTime < s.conns[r].connectTime
  }

  /** Of several that are as old the scan takes the first. */
  lemma {:induction false} ScanTakesFirst(s: Routes, n: nat)
    requires n <= |s.list| && forall r :: r in s.conns ==> s.conns[r].connectTime < NEVER
    ensures Oldest(s, n).Some? ==> exists i: nat :: i < n && FirstOldest(s, i, Oldest(s, n).value)
  {
    if n > 0 && Oldest(s, n).Some? {
      var m := Oldest(s, n).value;
      if Oldest(s, n) == Oldest(s, n - 1) {
        ScanTakesFirst(s, n - 1);
        var i: nat :| i < n - 1 && FirstOldest(s, i, m);
        assert i < n;
      } else {
        ScanFindsOldest(s, n - 1);
        assert FirstOldest(s, n - 1, m);
      }
    }
  }

  // ---- the steps ----

  function Reset(t: Slot): Slot {
    var c := t.reconnect * 2;
    Slot(None, 0, if c > MAX_RECONNECT_CNT then MIN_RECONNECT_CNT else c)
  }

  function Waited(t: Slot, r: Ref): Slot {
    if t.conn.Some? then t
    else if t.idle + 1 >= t.reconnect then Slot(Some(r), t.idle + 1, t.reconnect)
    else t.(idle := t.idle + 1)
  }

  function Update(s: Routes): Routes { s.(master := Oldest(s, |s.list|)) }

  /** OnConfirm: the connection is open; a master is looked for only when there is none. */
  function OnConfirm(s: Routes, r: Ref, now: nat): Routes
    requires r in s.conns && s.conns[r].idx < |s.list|
  {
    var i := s.conns[r].idx;
    var s1 := s.(conns := s.conns[r := Conn(true, now, i)], now := now,
                 list := s.list[i := s.list[i].(reconnect := MIN_RECONNECT_CNT / 2)]);
    if s1.master.None? then Update(s1) else s1
  }

  /** Close: the entry is empty, the object is gone, and a lost master is replaced. */
  function OnClose(s: Routes, r: Ref): Routes
    requires r in s.conns && s.conns[r].idx < |s.list|
  {
    var i := s.conns[r].idx;
    var s1 := s.(list := s.list[i := Reset(s.list[i])], conns := s.conns - {r});
    if s.master == Some(r) then Update(s1) else s1
  }

  /** One entry in a timer tick; `r` is the address of the new connection, if one is made. */
  function CheckOne(s: Routes, i: nat, r: Ref): Routes
    requires i < |s.list|
  {
    var t := Waited(s.list[i], r);
    var s1 := s.(list := s.list[i := t]);
    if s.list[i].conn.None? && t.conn.Some? then s1.(conns := s1.conns[r := Conn(false, 0, i)]) else s1
  }

  function CheckReconnect(s: Routes, refs: seq<Ref>, n: nat): (r: Routes)
    requires n <= |s.list| && n <= |refs|
    ensures |r.list| == |s.list|
  {
    if n == 0 then s else CheckOne(CheckReconnect(s, refs, n - 1), n - 1, refs[n - 1])
  }

  /** The clock does not go back, and new objects have addresses of their own. */
  predicate Possible(s: Routes, e: Event) {
    match e
    case Confirm(r, now) => r in s.conns && !s.conns[r].open && s.conns[r].idx < |s.list| && s.now <= now < NEVER
    case Lose(r) => r in s.conns && s.conns[r].idx < |s.list|
    case Timer(refs) =>
      && |refs| == |s.list| && (forall i :: 0 <= i < |refs| ==> refs[i] !in s.conns)
      && forall i, j :: 0 <= i < j < |refs| ==> refs[i] != refs[j]
  }

  function Step(s: Routes, e: Event): Routes
    requires Possible(s, e)
  {
    match e
    case Confirm(r, now) => OnConfirm(s, r, now)
    case Lose(r) => OnClose(s, r)
    case Timer(refs) => CheckReconnect(s, refs, |s.list|)
  }

  // ---- the invariant ----

  /** Entries and live objects belong to each other. */
  ghost predicate Listed(s: Routes) {
    && (forall r :: r in s.conns ==> ListedAt(s, s.conns[r].idx, r))
    && (forall i :: 0 <= i < |s.list| && s.list[i].conn.Some? ==>
          s.list[i].conn.value in s.conns && s.conns[s.list[i].conn.value].idx == i)
    && (forall r :: r in s.conns ==> s.conns[r].connectTime <= s.now)
    && s.now < NEVER
  }

  ghost predicate Ok(s: Routes) { Listed(s) && IsOldest(s, s.master, |s.list|) }

  lemma UpdateKeeps(s: Routes)
    requires Listed(s)
    ensures Ok(Update(s))
  {
    ScanFindsOldest(s, |s.list|);
    var u := Update(s);
    assert forall i: nat, r: Ref :: OpenAt(u, i, r) == OpenAt(s, i, r);
  }

  lemma ConfirmKeeps(s: Routes, r: Ref, now: nat)
    requires Ok(s) && Possible(s, Confirm(r, now))
    ensures Ok(OnConfirm(s, r, now))
  {
    var i := s.conns[r].idx;
    var s1 := s.(conns := s.conns[r := Conn(true, now, i)], now := now,
                 list := s.list[i := s.list[i].(reconnect := MIN_RECONNECT_CNT / 2)]);
    ConfirmListed(s, r, now, s1);
    if s.master.None? {
      UpdateKeeps(s1);
    } else {
      ConfirmOldest(s, r, now, s1);
    }
  }

  lemma ConfirmListed(s: Routes, r: Ref, now: nat, s1: Routes)
    requires Listed(s) && Possible(s, Confirm(r, now))
    requires var i := s.conns[r].idx;
      s1 == s.(conns := s.conns[r := Conn(true, now, i)], now := now,
               list := s.list[i := s.list[i].(reconnect := MIN_RECONNECT_CNT / 2)])
    ensures Listed(s1)
  {
    forall q | q in s1.conns ensures ListedAt(s1, s1.conns[q].idx, q) {
      assert ListedAt(s, s.conns[q].idx, q);
    }
  }

  /** The new open connection is not older than the master. */
  lemma ConfirmOldest(s: Routes, r: Ref, now: nat, s1: Routes)
    requires Ok(s) && Possible(s, Confirm(r, now)) && s.master.Some?
    requires var i := s.conns[r].idx;
      s1 == s.(conns := s.conns[r := Conn(true, now, i)], now := now,
               list := s.list[i := s.list[i].(reconnect := MIN_RECONNECT_CNT / 2)])
    ensures IsOldest(s1, s1.master, |s1.list|)
  {
    var m := s.master.value;
    var j: nat :| j < |s.list| && OpenAt(s, j, m);
    assert m != r && OpenAt(s1, j, m);
    forall k: nat, q: Ref | k < |s1.list| && OpenAt(s1, k, q)
      ensures s1.conns[m].connectTime <= s1.conns[q].connectTime
    {
      if q != r {
        assert OpenAt(s, k, q);
      }
    }
  }

  lemma CloseKeeps(s: Routes, r: Ref)
    requires Ok(s) && Possible(s, Lose(r))
    ensures Ok(OnClose(s, r))
  {
    var i := s.conns[r].idx;
    var s1 := s.(list := s.list[i := Reset(s.list[i])], conns := s.conns - {r});
    CloseListed(s, r, s1);
    if s.master == Some(r) {
      UpdateKeeps(s1);
    } else {
      CloseOldest(s, r, s1);
    }
  }

  lemma CloseListed(s: Routes, r: Ref, s1: Routes)
    requires Listed(s) && Possible(s, Lose(r))
    requires s1 == s.(list := s.list[s.conns[r].idx := Reset(s.list[s.conns[r].idx])], conns := s.conns - {r})
    ensures Listed(s1)
  {
    assert ListedAt(s, s.conns[r].idx, r);
    forall q | q in s1.conns ensures ListedAt(s1, s1.conns[q].idx, q) {
      assert ListedAt(s, s.conns[q].idx, q);
    }
  }

  lemma CloseOldest(s: Routes, r: Ref, s1: Routes)
    requires Ok(s) && Possible(s, Lose(r)) && s.master != Some(r)
    requires s1 == s.(list := s.list[s.conns[r].idx := Reset(s.list[s.conns[r].idx])], conns := s.conns - {r})
    ensures IsOldest(s1, s1.master, |s1.list|)
  {
    assert ListedAt(s, s.conns[r].idx, r);
    forall k: nat, q: Ref | k < |s1.list| && OpenAt(s1, k, q) ensures OpenAt(s, k, q) {
    }
    if s.master.Some? {
      var m := s.master.value;
      var j: nat :| j < |s.list| && OpenAt(s, j, m);
      assert OpenAt(s1, j, m);
    }
  }

  lemma CheckOneKeeps(s: Routes, i: nat, r: Ref)
    requires Ok(s) && i < |s.list| && r !in s.conns
    ensures Ok(CheckOne(s, i, r))
    ensures CheckOne(s, i, r).conns.Keys <= s.conns.Keys + {r}
  {
    var s1 := CheckOne(s, i, r);
    forall q | q in s1.conns ensures ListedAt(s1, s1.conns[q].idx, q) {
      if q in s.conns {
        assert ListedAt(s, s.conns[q].idx, q);
      }
    }
    CheckOneOldest(s, i, r);
  }

  lemma CheckOneOldest(s: Routes, i: nat, r: Ref)
    requires Ok(s) && i < |s.list| && r !in s.conns
    ensures var s1 := CheckOne(s, i, r); IsOldest(s1, s1.master, |s1.list|)
  {
    var s1 := CheckOne(s, i, r);
    forall k: nat, q: Ref | k < |s1.list| && OpenAt(s1, k, q) ensures OpenAt(s, k, q) {
    }
    if s.master.Some? {
      var m := s.master.value;
      var j: nat :| j < |s.list| && OpenAt(s, j, m);
      assert OpenAt(s1, j, m);
    }
  }

  lemma {:induction false} TimerKeeps(s: Routes, refs: seq<Ref>, n: nat)
    requires Ok(s) && Possible(s, Timer(refs)) && n <= |refs|
    ensures var t := CheckReconnect(s, refs, n);
      Ok(t) && forall i :: n <= i < |refs| ==> refs[i] !in t.conns
  {
    hide Ok, CheckOne;
    if n > 0 {
      TimerKeeps(s, refs, n - 1);
      CheckOneKeeps(CheckReconnect(s, refs, n - 1), n - 1, refs[n - 1]);
    }
  }

  lemma StepKeeps(s: Routes, e: Event)
    requires Ok(s) && Possible(s, e)
    ensures Ok(Step(s, e))
  {
    hide Ok, OnConfirm, OnClose, CheckReconnect;
    match e
    case Confirm(r, now) => ConfirmKeeps(s, r, now);
    case Lose(r) => CloseKeeps(s, r);
    case Timer(refs) => TimerKeeps(s, refs, |s.list|);
  }

  // ---- every run ----

  /** serv_init: one connection for each server, none of them open yet. */
  function Start(refs: seq<Ref>): Routes
    requires forall i, j :: 0 <= i < j < |refs| ==> refs[i] != refs[j]
  {
    Routes(seq(|refs|, i requires 0 <= i < |refs| => Slot(Some(refs[i]), 0, MIN_RECONNECT_CNT / 2)),
           StartConns(refs, |refs|), None, 0)
  }

  function StartConns(refs: seq<Ref>, n: nat): (m: map<Ref, Conn>)
    requires n <= |refs| && forall i, j :: 0 <= i < j < |refs| ==> refs[i] != refs[j]
    ensures forall r :: r in m <==> r in refs[..n]
    ensures forall i :: 0 <= i < n ==> m[refs[i]] == Conn(false, 0, i)
  {
    if n == 0 then map[] else StartConns(refs, n - 1)[refs[n - 1] := Conn(false, 0, n - 1)]
  }

  predicate PossibleRun(s: Routes, run: seq<Event>)
    decreases |run|
  {
    run == [] || (Possible(s, run[0]) && PossibleRun(Step(s, run[0]), run[1..]))
  }

  function Run(s: Routes, run: seq<Event>): Routes
    requires PossibleRun(s, run)
    decreases |run|
  {
    if run == [] then s else Run(Step(s, run[0]), run[1..])
  }

  lemma {:induction false} RunKeeps(s: Routes, run: seq<Event>)
    requires Ok(s) && PossibleRun(s, run)
    ensures Ok(Run(s, run))
    decreases |run|
  {
    hide Ok, Step;
    if run == [] {
    } else {
      StepKeeps(s, run[0]);
      RunKeeps(Step(s, run[0]), run[1..]);
    }
  }

  lemma StartOk(refs: seq<Ref>)
    requires forall i, j :: 0 <= i < j < |refs| ==> refs[i] != refs[j]
    ensures Ok(Start(refs))
  {
    var s := Start(refs);
    forall r | r in s.conns ensures ListedAt(s, s.conns[r].idx, r) {
      var i :| 0 <= i < |refs| && refs[i] == r;
      assert s.conns[refs[i]] == Conn(false, 0, i);
    }
    forall i: nat, r: Ref | i < |s.list| ensures !OpenAt(s, i, r) {
      assert s.conns[refs[i]] == Conn(false, 0, i);
    }
  }

  /** After every run, under a clock that does not go back: the cached master is none exactly when
      no listed connection is open, and otherwise is listed, open, and as old as any. */
  lemma MasterAgreesWithScan(refs: seq<Ref>, run: seq<Event>)
    requires forall i, j :: 0 <= i < j < |refs| ==> refs[i] != refs[j]
    requires PossibleRun(Start(refs), run)
    ensures var s := Run(Start(refs), run);
      && IsOldest(s, s.master, |s.list|)
      && (s.master.None? <==> Oldest(s, |s.list|).None?)
      && (s.master.Some? ==>
            s.master.value in s.conns && s.conns[s.master.value].open
            && s.conns[s.master.value].connectTime == s.conns[Oldest(s, |s.list|).value].connectTime)
  {
    StartOk(refs);
    RunKeeps(Start(refs), run);
    var s := Run(Start(refs), run);
    ScanFindsOldest(s, |s.list|);
    OldestAgree(s, s.master, Oldest(s, |s.list|));
  }

  lemma OldestAgree(s: Routes, a: Option<Ref>, b: Option<Ref>)
    requires IsOldest(s, a, |s.list|) && IsOldest(s, b, |s.list|)
    ensures a.None? <==> b.None?
    ensures a.Some? ==> a.value in s.conns && b.value in s.conns && s.conns[a.value].open
    ensures a.Some? ==> s.conns[a.value].connectTime == s.conns[b.value].connectTime
  {
    if a.Some? {
      var i: nat :| i < |s.list| && OpenAt(s, i, a.value);
    }
    if b.Some? {
      var j: nat :| j < |s.list| && OpenAt(s, j, b.value);
    }
  }

  // ---- the wait before a new connection ----

  /** What happens to an entry: its connection fails or is confirmed, or the timer ticks, and `r` is
      the address of a new connection. */
  datatype SlotEvent = Fail | Opened | Tick(r: Ref)

  function After(t: Slot, run: seq<SlotEvent>): Slot {
    if run == [] then t
    else
      var t1, e := After(t, run[..|run| - 1]), run[|run| - 1];
      match e
      case Fail => Reset(t1)
      case Opened => t1.(reconnect := 2)
      case Tick(r) => Waited(t1, r)
  }

  /** Failures in a row: since the last confirmation. */
  function Fails(run: seq<SlotEvent>): nat {
    if run == [] then 0
    else
      match run[|run| - 1]
      case Fail => Fails(run[..|run| - 1]) + 1
      case Opened => 0
      case Tick(_) => Fails(run[..|run| - 1])
  }

  /** The k-th failure in a row asks for 4, 8, 16, 32, 64 ticks, and then again, wherever the ticks
      of the timer fall. */
  lemma {:induction false} WaitAfterFailures(t: Slot, run: seq<SlotEvent>)
    requires t.reconnect == MIN_RECONNECT_CNT / 2
    ensures After(t, run).reconnect == if Fails(run) == 0 then 2 else Power2(2 + (Fails(run) - 1) % 5)
  {
    Powers();
    if run == [] {
    } else {
      var front := run[..|run| - 1];
      WaitAfterFailures(t, front);
      if Fails(front) > 0 {
        NextOfFive(Fails(front) - 1);
      }
    }
  }

  lemma NextOfFive(n: nat)
    ensures (n + 1) % 5 == if n % 5 == 4 then 0 else n % 5 + 1
  {
  }

  lemma Powers()
    ensures Power2(2) == 4 && Power2(3) == 8 && Power2(4) == 16 && Power2(5) == 32 && Power2(6) == 64
  {
    assert Power2(1) == 2;
  }

  function Ticked(t: Slot, refs: seq<Ref>): Slot {
    if refs == [] then t else Waited(Ticked(t, refs[..|refs| - 1]), refs[|refs| - 1])
  }

  /** An empty entry gets its connection with exactly that many ticks, and not before. */
  lemma {:induction false} WaitsThatLong(t: Slot, refs: seq<Ref>)
    requires t.conn.None? && t.idle == 0 && t.reconnect > 0 && |refs| <= t.reconnect
    ensures Ticked(t, refs).conn == if |refs| < t.reconnect then None else Some(refs[|refs| - 1])
    ensures Ticked(t, refs).idle == |refs| && Ticked(t, refs).reconnect == t.reconnect
  {
    if refs == [] {
    } else {
      WaitsThatLong(t, refs[..|refs| - 1]);
    }
  }

  /** After the k-th failure in a row the entry is empty until 4, 8, 16, 32, 64 ticks, and so on,
      have passed, and then it has the connection that the last of them made. */
  lemma ReconnectsAfterFailures(t: Slot, run: seq<SlotEvent>, refs: seq<Ref>)
    requires t.reconnect == MIN_RECONNECT_CNT / 2 && run != [] && run[|run| - 1] == Fail
    requires |refs| <= Power2(2 + (Fails(run) - 1) % 5)
    ensures Ticked(After(t, run), refs).conn ==
      if |refs| < Power2(2 + (Fails(run) - 1) % 5) then None else Some(refs[|refs| - 1])
  {
    hide Ticked, Waited;
    WaitAfterFailures(t, run);
    FailureEmpties(t, run);
    WaitsThatLong(After(t, run), refs);
  }

  lemma FailureEmpties(t: Slot, run: seq<SlotEvent>)
    requires run != [] && run[|run| - 1] == Fail
    ensures After(t, run).conn.None? && After(t, run).idle == 0 && Fails(run) > 0
  {
  }

  // ---- every entry, along every run ----

  /** What an event is for the entry `i`: it concerns the connection that is listed there. */
  function SlotEventOf(s: Routes, e: Event, i: nat): seq<SlotEvent>
    requires Possible(s, e) && i < |s.list|
  {
    match e
    case Confirm(r, _) => if s.list[i].conn == Some(r) then [Opened] else []
    case Lose(r) => if s.list[i].conn == Some(r) then [Fail] else []
    case Timer(refs) => [Tick(refs[i])]
  }

  function SlotRun(s: Routes, run: seq<Event>, i: nat): seq<SlotEvent>
    requires PossibleRun(s, run) && i < |s.list|
    decreases |run|
  {
    if run == [] then []
    else
      StepLength(s, run[0]);
      SlotEventOf(s, run[0], i) + SlotRun(Step(s, run[0]), run[1..], i)
  }

  lemma StepLength(s: Routes, e: Event)
    requires Possible(s, e)
    ensures |Step(s, e).list| == |s.list|
  {
  }

  /** A timer tick reaches every entry once. */
  lemma {:induction false} EveryEntryTicks(s: Routes, refs: seq<Ref>, n: nat, i: nat)
    requires n <= |s.list| == |refs| && i < |s.list|
    ensures CheckReconnect(s, refs, n).list[i] == if i < n then Waited(s.list[i], refs[i]) else s.list[i]
  {
    hide Waited;
    if n > 0 {
      EveryEntryTicks(s, refs, n - 1, i);
    }
  }

  lemma SlotStep(s: Routes, e: Event, i: nat)
    requires Ok(s) && Possible(s, e) && i < |s.list|
    ensures |Step(s, e).list| == |s.list| && Step(s, e).list[i] == After(s.list[i], SlotEventOf(s, e, i))
  {
    hide Reset, Waited, IsOldest, CheckReconnect, Oldest;
    StepLength(s, e);
    var es := SlotEventOf(s, e, i);
    if es != [] {
      assert es[..0] == [] && After(s.list[i], []) == s.list[i];
    }
    match e
    case Confirm(r, now) => assert ListedAt(s, s.conns[r].idx, r);
    case Lose(r) => assert ListedAt(s, s.conns[r].idx, r);
    case Timer(refs) => EveryEntryTicks(s, refs, |s.list|, i);
  }

  lemma {:induction false} AfterJoin(t: Slot, a: seq<SlotEvent>, b: seq<SlotEvent>)
    ensures After(t, a + b) == After(After(t, a), b)
    decreases |b|
  {
    hide Reset, Waited;
    if b == [] {
      assert a + b == a;
    } else {
      AfterJoin(t, a, b[..|b| - 1]);
      assert (a + b)[..|a + b| - 1] == a + b[..|b| - 1];
    }
  }

  /** Along every run an entry is what its own events make of it. */
  lemma {:induction false} EntryIsItsEvents(s: Routes, run: seq<Event>, i: nat)
    requires Ok(s) && PossibleRun(s, run) && i < |s.list|
    ensures |Run(s, run).list| == |s.list| && Run(s, run).list[i] == After(s.list[i], SlotRun(s, run, i))
    decreases |run|
  {
    hide Ok, Step, After;
    if run == [] {
      assert After(s.list[i], []) == s.list[i] by { NothingHappens(s.list[i]); }
    } else {
      var s1 := Step(s, run[0]);
      StepKeeps(s, run[0]);
      SlotStep(s, run[0], i);
      EntryIsItsEvents(s1, run[1..], i);
      AfterJoin(s.list[i], SlotEventOf(s, run[0], i), SlotRun(s1, run[1..], i));
    }
  }

  lemma NothingHappens(t: Slot)
    ensures After(t, []) == t
  {
  }

  lemma StartEntry(refs: seq<Ref>, i: nat)
    requires forall j, k :: 0 <= j < k < |refs| ==> refs[j] != refs[k]
    requires i < |refs|
    ensures |Start(refs).list| == |refs| && Start(refs).list[i] == Slot(Some(refs[i]), 0, 2)
  {
  }

  /** From the start of the program: the wait of every server is that of its failures in a row. */
  lemma WaitOfEveryServer(refs: seq<Ref>, run: seq<Event>, i: nat)
    requires forall j, k :: 0 <= j < k < |refs| ==> refs[j] != refs[k]
    requires PossibleRun(Start(refs), run) && i < |refs|
    ensures var s, n := Run(Start(refs), run), Fails(SlotRun(Start(refs), run, i));
      i < |s.list| && s.list[i].reconnect == if n == 0 then 2 else Power2(2 + (n - 1) % 5)
  {
    hide Ok, After, SlotRun, Run, Start, PossibleRun;
    StartOk(refs);
    StartEntry(refs, i);
    EntryIsItsEvents(Start(refs), run, i);
    WaitAfterFailures(Start(refs).list[i], SlotRun(Start(refs), run, i));
  }

  // ---- the connection objects ----

  /** An empty entry that has waited long enough. */
  predicate Due(t: Slot) { t.conn.None? && t.idle + 1 >= t.reconnect }

  /** A confirmation opens its connection, at the time of the clock; a close takes the object away;
      a tick makes closed ones for the entries that have waited; and no other object changes. */
  lemma ObjectsAfter(s: Routes, e: Event, r: Ref)
    requires Ok(s) && Possible(s, e)
    ensures var m, c := s.conns, Step(s, e).conns;
      match e
      case Confirm(q, now) => c == m[q := Conn(true, now, m[q].idx)]
      case Lose(q) => c == m - {q}
      case Timer(refs) =>
        if exists i :: 0 <= i < |refs| && refs[i] == r then
          var i :| 0 <= i < |refs| && refs[i] == r;
          if Due(s.list[i]) then r in c && c[r] == Conn(false, 0, i) else r !in c
        else (r in c <==> r in m) && (r in m ==> c[r] == m[r])
  {
    hide IsOldest, Oldest;
    if e.Timer? {
      ObjectsOfTick(s, e.refs, |s.list|, r);
    }
  }

  lemma {:induction false} ObjectsOfTick(s: Routes, refs: seq<Ref>, n: nat, r: Ref)
    requires Possible(s, Timer(refs)) && n <= |refs|
    ensures var m, c := s.conns, CheckReconnect(s, refs, n).conns;
      && (forall i :: 0 <= i < n && refs[i] == r ==>
            if Due(s.list[i]) then r in c && c[r] == Conn(false, 0, i) else r !in c)
      && ((forall i :: 0 <= i < n ==> refs[i] != r) ==> (r in c <==> r in m) && (r in m ==> c[r] == m[r]))
  {
    if n > 0 {
      ObjectsOfTick(s, refs, n - 1, r);
      EveryEntryTicks(s, refs, n - 1, n - 1);
    }
  }

  /** A confirmation changes the master only when there is none, a close only when it is the
      master's, and a tick never. */
  lemma MasterStays(s: Routes, e: Event)
    requires Possible(s, e)
    requires match e case Confirm(_, _) => s.master.Some? case Lose(r) => s.master != Some(r) case Timer(_) => true
    ensures Step(s, e).master == s.master
  {
    hide Oldest;
    if e.Timer? {
      TickKeepsMaster(s, e.refs, |s.list|);
    }
  }

  lemma {:induction false} TickKeepsMaster(s: Routes, refs: seq<Ref>, n: nat)
    requires n <= |s.list| && n <= |refs|
    ensures CheckReconnect(s, refs, n).master == s.master
  {
    if n > 0 {
      TickKeepsMaster(s, refs, n - 1);
    }
  }

  // ---- the globals of the program ----

  class RouteServers {
    var list: seq<Slot>
    var conns: map<Ref, Conn>
    var master: Option<Ref>
    ghost var now: nat

    ghost function View(): Routes
      reads this
    {
      Routes(list, conns, master, now)
    }

    constructor (refs: seq<Ref>)
      requires forall i, j :: 0 <= i < j < |refs| ==> refs[i] != refs[j]
      ensures View() == Start(refs)
    {
      list := seq(|refs|, i requires 0 <= i < |refs| => Slot(Some(refs[i]), 0, MIN_RECONNECT_CNT / 2));
      conns := StartConns(refs, |refs|);
      master, now := None, 0;
    }

    /** The scan for the connection that has been open longest. */
    method UpdateMaster()
      requires Listed(View())
      modifies this`master
      ensures View() == Update(old(View()))
    {
      var oldest, time := None, NEVER;
      var i := 0;
      while i < |list|
        invariant 0 <= i <= |list| && master == old(master)
        invariant oldest == Oldest(View(), i)
        invariant time == if oldest.Some? then conns[oldest.value].connectTime else NEVER
      {
        var c := list[i].conn;
        if c.Some? && conns[c.value].open && conns[c.value].connectTime < time {
          oldest, time := c, conns[c.value].connectTime;
        }
        i := i + 1;
      }
      ScanIgnoresMaster(View(), oldest, |list|);
      master := oldest;
    }

    method Confirmed(r: Ref, tick: nat)
      requires Ok(View()) && Possible(View(), Confirm(r, tick))
      modifies this
      ensures View() == Step(old(View()), Confirm(r, tick)) && Ok(View())
    {
      hide Ok, Listed;
      ConfirmKeeps(View(), r, tick);
      ghost var s := View();
      var i := conns[r].idx;
      conns := conns[r := Conn(true, tick, i)];
      list := list[i := list[i].(reconnect := MIN_RECONNECT_CNT / 2)];
      now := tick;
      OkIsListed(s);
      ConfirmListed(s, r, tick, View());
      if master.None? {
        UpdateMaster();
      }
    }

    method Close(r: Ref)
      requires Ok(View()) && Possible(View(), Lose(r))
      modifies this
      ensures View() == Step(old(View()), Lose(r)) && Ok(View())
    {
      hide Ok, Listed;
      CloseKeeps(View(), r);
      ghost var s := View();
      var i := conns[r].idx;
      list := list[i := Reset(list[i])];
      conns := conns - {r};
      OkIsListed(s);
      CloseListed(s, r, View());
      if master == Some(r) {
        UpdateMaster();
      }
    }

    /** The timer: every entry without a connection waits on or gets one. */
    method CheckReconnects(refs: seq<Ref>)
      requires Ok(View()) && Possible(View(), Timer(refs))
      modifies this
      ensures View() == Step(old(View()), Timer(refs)) && Ok(View())
    {
      hide Ok;
      ghost var s := View();
      TimerKeeps(s, refs, |refs|);
      var i := 0;
      while i < |list|
        invariant 0 <= i <= |list| == |refs|
        invariant View() == CheckReconnect(s, refs, i)
      {
        if list[i].conn.None? {
          var idle := list[i].idle + 1;
          if idle >= list[i].reconnect {
            conns := conns[refs[i] := Conn(false, 0, i)];
            list := list[i := Slot(Some(refs[i]), idle, list[i].reconnect)];
          } else {
            list := list[i := list[i].(idle := idle)];
          }
        } else {
          assert list[i := list[i]] == list;
        }
        i := i + 1;
      }
    }
  }

  lemma OkIsListed(s: Routes)
    requires Ok(s)
    ensures Listed(s)
  {
  }

  lemma {:induction false} ScanIgnoresMaster(s: Routes, m: Option<Ref>, n: nat)
    requires n <= |s.list|
    ensures Oldest(s.(master := m), n) == Oldest(s, n)
  {
    if n > 0 {
      ScanIgnoresMaster(s, m, n - 1);
    }
  }
}
