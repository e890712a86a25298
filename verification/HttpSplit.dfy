/** Calls of the parser on the pieces of an input against one call on the whole of it. */
module HttpSplit {
  import opened CBytes
  import opened HttpTypes
  import opened HttpRun
  import opened HttpLog
  import opened HttpExecute
  import opened HttpInvariant

  /** The caller goes on after a call that used all its data without error or upgrade. */
  predicate GoesOn(piece: seq<byte>, after: Parser, consumed: nat) {
    consumed == |piece| && after.errno == OK && !after.upgrade
  }

  /** One call per piece, as long as the caller goes on. */
  ghost predicate CalledOn(before: Parser, pieces: seq<seq<byte>>, hc: HeadersAnswer,
                           after: Parser, consumed: nat, log: seq<Event>)
    decreases |pieces|
  {
    if pieces == [] then after == before && consumed == 0 && log == []
    else
      exists p, n: nat, front ::
        && Executed(before, pieces[0], hc, p, n, front)
        && if GoesOn(pieces[0], p, n)
           then n <= consumed && front <= log &&
                CalledOn(p, pieces[1..], hc, after, consumed - n, log[|front|..])
           else after == p && consumed == n && log == front
  }

  /** A single call against the machine of HttpRun, as its caller sees it. */
  lemma OneCall(before: Parser, data: seq<byte>, hc: HeadersAnswer, after: Parser, consumed: nat, log: seq<Event>)
    requires WellFormed(before) && before.errno == OK && !before.upgrade && data != []
    requires Executed(before, data, hc, after, consumed, log)
    ensures var r := Run(before, data, hc);
      && after == r.parser && consumed == r.consumed
      && (GoesOn(data, after, consumed) <==> r.status == Going)
      && (after.errno == OK <==> r.status != Failed)
      && (after.errno == OK ==> Flatten(log) == r.atoms)
      && (r.status == Going ==> WellFormed(after))
  {
    hide Run, WellFormed, Flatten;
    KeepsRun(before, data, hc);
    ErrnoOfRun(before, data, hc);
    UpgradeOfRun(before, data, hc);
  }

  lemma {:induction false} PiecesRun(before: Parser, pieces: seq<seq<byte>>, hc: HeadersAnswer,
                                     after: Parser, consumed: nat, log: seq<Event>)
    requires WellFormed(before) && before.errno == OK && !before.upgrade
    requires forall i :: 0 <= i < |pieces| ==> pieces[i] != []
    requires CalledOn(before, pieces, hc, after, consumed, log)
    ensures var r := RunPieces(before, pieces, hc);
      && after == r.parser && consumed == r.consumed
      && (after.errno == OK ==> Flatten(log) == r.atoms)
    decreases |pieces|
  {
    hide Run, WellFormed, Executed, Flatten;
    if pieces == [] {
      NothingFlattened();
    } else {
      var p, n: nat, front :|
        && Executed(before, pieces[0], hc, p, n, front)
        && if GoesOn(pieces[0], p, n)
           then n <= consumed && front <= log &&
                CalledOn(p, pieces[1..], hc, after, consumed - n, log[|front|..])
           else after == p && consumed == n && log == front;
      OneCall(before, pieces[0], hc, p, n, front);
      if GoesOn(pieces[0], p, n) {
        PiecesRun(p, pieces[1..], hc, after, consumed - n, log[|front|..]);
        assert front + log[|front|..] == log;
        FlattenJoin(front, log[|front|..]);
      }
    }
  }

  lemma NothingFlattened()
    ensures Flatten([]) == []
  {
  }

  /** Feeding an input in any non-empty pieces gives the struct, the errno and the total number
      of bytes used that feeding it whole gives; without an error it gives the same callbacks,
      but for empty data callbacks and for where data is cut. */
  lemma SplitIndependence(before: Parser, pieces: seq<seq<byte>>, hc: HeadersAnswer,
                          after: Parser, consumed: nat, log: seq<Event>,
                          whole: Parser, wholeConsumed: nat, wholeLog: seq<Event>)
    requires WellFormed(before) && before.errno == OK && !before.upgrade
    requires pieces != [] && forall i :: 0 <= i < |pieces| ==> pieces[i] != []
    requires CalledOn(before, pieces, hc, after, consumed, log)
    requires Executed(before, Joined(pieces), hc, whole, wholeConsumed, wholeLog)
    ensures after == whole && consumed == wholeConsumed
    ensures after.errno == OK ==> Normal(log) == Normal(wholeLog)
  {
    hide Run, WellFormed, Executed, Flatten, Normal, CalledOn;
    PiecesRun(before, pieces, hc, after, consumed, log);
    AnySplit(before, pieces, hc);
    assert Joined(pieces) == pieces[0] + Joined(pieces[1..]);
    OneCall(before, Joined(pieces), hc, whole, wholeConsumed, wholeLog);
    SameDelivery(log, wholeLog);
  }
}
