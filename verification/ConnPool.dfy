/** The monitor of the connection pools (of the data base and of the cache, which are the same):
    a free list under a lock, a condition to wait on, and growth up to a maximum. A step is what a
    thread does between taking the lock and leaving it, by returning or by waiting. */
module ConnPool {
  import opened CBytes

  type ConnId = nat
  type Thread = nat

  const MIN_CONN_CNT: nat := 2

  datatype Pool = Pool(
    free: seq<ConnId>, cur: int, max: int,
    held: map<ConnId, Thread>, waiting: set<Thread>, woken: set<Thread>)

  datatype Event =
    /** A thread asks for a connection; `c` is what a new connection would be, if its Init works. */
    | Get(t: Thread, c: ConnId, works: bool)
    /** A woken thread gets the lock back and looks again. */
    | Resume(t: Thread, c: ConnId, works: bool)
    /** A thread gives a connection back; `w` is the thread that Signal wakes, if any waits. */
    | Release(t: Thread, c: ConnId, w: Thread)
    /** A waiting thread wakes without a signal. */
    | Spurious(t: Thread)

  predicate Possible(p: Pool, e: Event) {
    match e
    case Get(t, c, works) => t !in p.waiting && t !in p.woken && c !in p.free && c !in p.held
    case Resume(t, c, works) => t in p.woken && c !in p.free && c !in p.held
    case Release(t, c, w) =>
      (c in p.free || (c in p.held && p.held[c] == t)) && (p.waiting != {} ==> w in p.waiting)
    case Spurious(t) => t in p.waiting
  }

  /** The loop of Get: take the first, or wait, or grow and take, or fail. */
  function Take(p: Pool, t: Thread, c: ConnId, works: bool): Pool {
    if p.free != [] then p.(free := p.free[1..], held := p.held[p.free[0] := t])
    else if p.cur >= p.max then p.(waiting := p.waiting + {t})
    else if works then p.(cur := p.cur + 1, held := p.held[c := t])
    else p
  }

  /** Release: back into the list unless it is there, and one waiting thread is woken. */
  function GiveBack(p: Pool, c: ConnId, w: Thread): Pool {
    var p1 := p.(free := if c in p.free then p.free else p.free + [c], held := p.held - {c});
    if w in p.waiting then p1.(waiting := p1.waiting - {w}, woken := p1.woken + {w}) else p1
  }

  function Step(p: Pool, e: Event): Pool {
    match e
    case Get(t, c, works) => Take(p, t, c, works)
    case Resume(t, c, works) => Take(p.(woken := p.woken - {t}), t, c, works)
    case Release(t, c, w) => GiveBack(p, c, w)
    case Spurious(t) => p.(waiting := p.waiting - {t}, woken := p.woken + {t})
  }

  predicate PossibleRun(p: Pool, run: seq<Event>)
    decreases |run|
  {
    run == [] || (Possible(p, run[0]) && PossibleRun(Step(p, run[0]), run[1..]))
  }

  function Run(p: Pool, run: seq<Event>): Pool
    decreases |run|
  {
    if run == [] then p else Run(Step(p, run[0]), run[1..])
  }

  /** After Init. */
  function Start(a: ConnId, b: ConnId, max: int): Pool {
    Pool([a, b], MIN_CONN_CNT, max, map[], {}, {})
  }

  predicate Distinct(s: seq<ConnId>) { forall i, j :: 0 <= i < j < |s| ==> s[i] != s[j] }

  function Max(a: int, b: int): int { if a < b then b else a }

  predicate Ok(p: Pool) {
    && Distinct(p.free)
    && (forall i :: 0 <= i < |p.free| ==> p.free[i] !in p.held)
    && |p.free| + |p.held| == p.cur
    && MIN_CONN_CNT <= p.cur <= Max(MIN_CONN_CNT, p.max)
    && p.waiting !! p.woken
    && (p.waiting != {} ==> |p.free| <= |p.woken| && p.cur >= p.max)
  }

  lemma Held(m: map<ConnId, Thread>, c: ConnId, t: Thread)
    ensures c !in m ==> |m[c := t]| == |m| + 1
    ensures c in m ==> |m - {c}| == |m| - 1
    ensures c !in m ==> m - {c} == m
  {
    if c !in m {
      assert m[c := t].Keys == m.Keys + {c};
    } else {
      assert (m - {c}).Keys == m.Keys - {c};
    }
  }

  lemma TakeKeeps(p: Pool, t: Thread, c: ConnId, works: bool)
    requires Distinct(p.free) && (forall i :: 0 <= i < |p.free| ==> p.free[i] !in p.held)
    requires |p.free| + |p.held| == p.cur && MIN_CONN_CNT <= p.cur <= Max(MIN_CONN_CNT, p.max)
    requires p.waiting !! p.woken && t !in p.waiting && t !in p.woken && c !in p.free && c !in p.held
    requires p.waiting != {} ==> |p.free| <= |p.woken| + 1 && p.cur >= p.max
    requires p.waiting != {} && |p.free| == 0 ==> |p.free| <= |p.woken|
    ensures Ok(Take(p, t, c, works))
  {
    if p.free != [] {
      TakeFree(p, t);
    } else if p.cur < p.max && works {
      Held(p.held, c, t);
    }
  }

  lemma TakeFree(p: Pool, t: Thread)
    requires Distinct(p.free) && (forall i :: 0 <= i < |p.free| ==> p.free[i] !in p.held) && p.free != []
    ensures var free, held := p.free[1..], p.held[p.free[0] := t];
      && Distinct(free) && (forall i :: 0 <= i < |free| ==> free[i] !in held)
      && |free| + |held| == |p.free| + |p.held|
  {
    hide Distinct;
    FirstTaken(p.free);
    Held(p.held, p.free[0], t);
  }

  lemma FirstTaken(free: seq<ConnId>)
    requires Distinct(free) && free != []
    ensures Distinct(free[1..]) && forall i :: 0 <= i < |free[1..]| ==> free[1..][i] != free[0]
  {
  }

  lemma GiveBackKeeps(p: Pool, t: Thread, c: ConnId, w: Thread)
    requires Ok(p) && Possible(p, Release(t, c, w))
    ensures Ok(GiveBack(p, c, w))
  {
    Held(p.held, c, t);
  }

  lemma StepKeeps(p: Pool, e: Event)
    requires Ok(p) && Possible(p, e)
    ensures Ok(Step(p, e)) && Step(p, e).max == p.max
  {
    match e
    case Get(t, c, works) => TakeKeeps(p, t, c, works);
    case Resume(t, c, works) =>
      assert |p.woken - {t}| == |p.woken| - 1;
      TakeKeeps(p.(woken := p.woken - {t}), t, c, works);
    case Release(t, c, w) => GiveBackKeeps(p, t, c, w);
    case Spurious(t) =>
  }

  lemma {:induction false} RunKeeps(p: Pool, run: seq<Event>)
    requires Ok(p) && PossibleRun(p, run)
    ensures Ok(Run(p, run)) && Run(p, run).max == p.max
    decreases |run|
  {
    if run == [] {
    } else {
      StepKeeps(p, run[0]);
      RunKeeps(Step(p, run[0]), run[1..]);
    }
  }

  /** After every interleaving: the free connections are distinct and none of them is held, they
      and the held ones are as many as were made, and those are at most the maximum. */
  lemma Conservation(a: ConnId, b: ConnId, max: int, run: seq<Event>)
    requires a != b && PossibleRun(Start(a, b, max), run)
    ensures var p := Run(Start(a, b, max), run);
      && Distinct(p.free) && (forall i :: 0 <= i < |p.free| ==> p.free[i] !in p.held)
      && |p.free| + |p.held| == p.cur <= Max(MIN_CONN_CNT, max)
  {
    RunKeeps(Start(a, b, max), run);
  }

  /** After every interleaving: while a thread waits, there are at most as many free connections as
      woken threads that have not run yet. When all of those have run, every connection there may
      be is in use; and in any case some step will serve or wake a thread. */
  lemma NobodyStranded(a: ConnId, b: ConnId, max: int, run: seq<Event>)
    requires a != b && PossibleRun(Start(a, b, max), run)
    requires Run(Start(a, b, max), run).waiting != {}
    ensures var p := Run(Start(a, b, max), run);
      && |p.free| <= |p.woken|
      && (p.woken == {} ==> p.free == [] && |p.held| == p.cur == Max(MIN_CONN_CNT, max))
      && (p.held == map[] ==> p.woken != {} && p.free != [])
  {
    RunKeeps(Start(a, b, max), run);
    var p := Run(Start(a, b, max), run);
    assert p.woken == {} ==> |p.woken| == 0;
    assert p.held == map[] ==> |p.held| == 0;
  }

  /** The connection that a thread gets was free or new, and no thread held it. */
  lemma TakesAlone(p: Pool, e: Event, d: ConnId)
    requires Ok(p) && Possible(p, e) && d in Step(p, e).held && (d in p.held ==> p.held[d] != Step(p, e).held[d])
    ensures (e.Get? || e.Resume?) && Step(p, e).held[d] == e.t && d !in p.held
    ensures d in p.free || (p.free == [] && p.cur < p.max && e.works && d == e.c)
  {
  }

  // ---- what a thread gets ----

  predicate Asks(e: Event) { e.Get? || e.Resume? }

  /** No free connection, and no more may be made. */
  predicate Exhausted(p: Pool) { p.free == [] && p.cur >= p.max }

  /** The thread has got this connection, and nobody else got or lost one. */
  predicate Got(p: Pool, v: Pool, t: Thread, d: ConnId) { d !in p.held && v.held == p.held[d := t] }

  /** A thread that asks gets a connection exactly when one is free, and then the one that has been
      free longest, or when a new one may be made and works; it waits exactly when the pool is
      exhausted; and otherwise it goes away with nothing. It is not woken any more, and no other
      thread changes its place. */
  lemma AskIsAnswered(p: Pool, e: Event)
    requires Ok(p) && Possible(p, e) && Asks(e)
    ensures var v := Step(p, e);
      && ((exists d :: Got(p, v, e.t, d)) <==> p.free != [] || (p.cur < p.max && e.works))
      && (p.free != [] ==> Got(p, v, e.t, p.free[0]) && [p.free[0]] + v.free == p.free && v.cur == p.cur)
      && (p.free == [] ==> v.free == [])
      && (p.free == [] && p.cur < p.max && e.works ==> Got(p, v, e.t, e.c) && v.cur == p.cur + 1)
      && ((forall d :: !Got(p, v, e.t, d)) ==> v.held == p.held && v.cur == p.cur)
      && v.waiting == (if Exhausted(p) then p.waiting + {e.t} else p.waiting) && v.woken == p.woken - {e.t}
  {
    var v := Step(p, e);
    if p.free != [] {
      assert Got(p, v, e.t, p.free[0]);
    } else if p.cur < p.max && e.works {
      assert Got(p, v, e.t, e.c);
    } else {
      assert v.held == p.held;
    }
  }

  /** A connection that is given back is free, behind all others; exactly the thread that the
      signal names is woken, if any waits. A wake-up without a signal moves that thread only. */
  lemma OthersStay(p: Pool, e: Event)
    requires Ok(p) && Possible(p, e) && !Asks(e)
    ensures var v := Step(p, e);
      match e
      case Release(t, c, w) =>
        && v.free == (if c in p.held then p.free + [c] else p.free) && v.held == p.held - {c} && v.cur == p.cur
        && (if p.waiting == {} then v.waiting == {} && v.woken == p.woken
            else w in p.waiting && v.waiting == p.waiting - {w} && v.woken == p.woken + {w})
      case Spurious(t) =>
        v == p.(waiting := v.waiting, woken := v.woken) && t in v.woken && t !in v.waiting
        && v.waiting + v.woken == p.waiting + p.woken && v.waiting + {t} == p.waiting
      case _ => true
  {
  }

  /** The connection that a signal hands on: the thread that it wakes gets it, if no other thread
      comes first. */
  lemma HandedOn(p: Pool, t: Thread, c: ConnId, w: Thread, d: ConnId, works: bool)
    requires Ok(p) && Possible(p, Release(t, c, w)) && p.free == [] && c in p.held && w in p.waiting
    requires d !in p.held
    ensures var v := Step(p, Release(t, c, w));
      Possible(v, Resume(w, d, works)) && Got(v, Step(v, Resume(w, d, works)), w, c)
  {
  }

  /** What a run takes out of the list of free connections, and what it puts in. */
  function TakenOut(p: Pool, run: seq<Event>): seq<ConnId>
    requires PossibleRun(p, run)
    decreases |run|
  {
    if run == [] then []
    else (if Asks(run[0]) && p.free != [] then [p.free[0]] else []) + TakenOut(Step(p, run[0]), run[1..])
  }

  function PutIn(p: Pool, run: seq<Event>): seq<ConnId>
    requires PossibleRun(p, run)
    decreases |run|
  {
    if run == [] then []
    else (if run[0].Release? && run[0].c !in p.free then [run[0].c] else []) + PutIn(Step(p, run[0]), run[1..])
  }

  /** Along every run the connections are handed out in the order in which they came back. */
  lemma {:induction false} FirstBackFirstOut(p: Pool, run: seq<Event>)
    requires Ok(p) && PossibleRun(p, run)
    ensures p.free + PutIn(p, run) == TakenOut(p, run) + Run(p, run).free
    decreases |run|
  {
    hide Step;
    if run == [] {
      assert p.free + [] == [] + p.free;
    } else {
      var v := Step(p, run[0]);
      StepKeeps(p, run[0]);
      FirstBackFirstOut(v, run[1..]);
      OneInOrder(p, run[0], PutIn(v, run[1..]));
      var out := if Asks(run[0]) && p.free != [] then [p.free[0]] else [];
      Regrouped(out, TakenOut(v, run[1..]), Run(v, run[1..]).free);
    }
  }

  lemma OneInOrder(p: Pool, e: Event, rest: seq<ConnId>)
    requires Ok(p) && Possible(p, e)
    ensures var v := Step(p, e);
      var out := if Asks(e) && p.free != [] then [p.free[0]] else [];
      var back := if e.Release? && e.c !in p.free then [e.c] else [];
      p.free + (back + rest) == out + (v.free + rest)
  {
    var v := Step(p, e);
    var out := if Asks(e) && p.free != [] then [p.free[0]] else [];
    var back := if e.Release? && e.c !in p.free then [e.c] else [];
    OneInList(p, e);
    calc {
      p.free + (back + rest);
    ==  { Regrouped(p.free, back, rest); }
      (p.free + back) + rest;
    ==
      (out + v.free) + rest;
    ==  { Regrouped(out, v.free, rest); }
      out + (v.free + rest);
    }
  }

  lemma OneInList(p: Pool, e: Event)
    requires Possible(p, e)
    ensures p.free + (if e.Release? && e.c !in p.free then [e.c] else []) ==
            (if Asks(e) && p.free != [] then [p.free[0]] else []) + Step(p, e).free
  {
    hide Ok, Distinct;
    var v := Step(p, e);
    assert forall s: seq<ConnId> :: s + [] == s && [] + s == s;
    if Asks(e) && p.free != [] {
      assert [p.free[0]] + p.free[1..] == p.free;
    }
  }

  /** One pool, with the sections that run under its lock. */
  class LockedPool {
    var free: seq<ConnId>
    var cur: int
    const max: int
    ghost var held: map<ConnId, Thread>
    var waiting: set<Thread>
    var woken: set<Thread>

    ghost function View(): Pool
      reads this
    {
      Pool(free, cur, max, held, waiting, woken)
    }

    constructor (a: ConnId, b: ConnId, max: int)
      ensures View() == Start(a, b, max)
    {
      this.max := max;
      free, cur, held, waiting, woken := [a, b], MIN_CONN_CNT, map[], {}, {};
    }

    /** From the lock to the return or to the wait: whether the thread returns, and with what. */
    method Acquire(t: Thread, c: ConnId, works: bool) returns (returned: bool, conn: int)
      modifies this
      ensures View() == Take(old(View()), t, c, works)
      ensures returned <==> old(free) != [] || old(cur) < max
      ensures returned ==> if conn >= 0 then conn in held && held[conn] == t else !works && View() == old(View())
    {
      returned, conn := true, -1;
      while free == []
        invariant free == old(free) || (old(free) == [] && free == [c] && works)
        invariant free == old(free) ==> cur == old(cur)
        invariant free != old(free) ==> cur == old(cur) + 1 <= max
        invariant held == old(held) && waiting == old(waiting) && woken == old(woken) && returned
        decreases |free| == 0
      {
        if cur >= max {
          waiting := waiting + {t};
          returned := false;
          return;
        }
        if !works {
          return;
        }
        free := free + [c];
        cur := cur + 1;
      }
      conn := free[0];
      held := held[free[0] := t];
      free := free[1..];
    }

    method Release(c: ConnId, w: Thread)
      modifies this
      ensures View() == GiveBack(old(View()), c, w)
    {
      var i := 0;
      while i < |free| && free[i] != c
        invariant 0 <= i <= |free| && c !in free[..i]
      {
        i := i + 1;
      }
      if i == |free| {
        free := free + [c];
      }
      held := held - {c};
      if w in waiting {
        waiting, woken := waiting - {w}, woken + {w};
      }
    }
  }
}
