/** An upload in order, and then a download in order, give back the bytes; and the upload of an
    empty file, that never ends. */
module OfflineRoundTrip {
  import opened CBytes
  import opened OfflineFile
  import opened OfflineTask
  import opened OfflineRuns

  /** The blocks of the content from block `k` on, as the sender sends them. */
  function Blocks(i: Info, content: seq<byte>, now: nat, k: nat): seq<Event>
    requires |content| == i.size
    decreases Segments(i.size) - k
  {
    SegmentFacts(i.size, k);
    if k >= Segments(i.size) then []
    else
      [Block(i.fromUser, k * SEGMENT_SIZE, content[k * SEGMENT_SIZE..][..BlockSize(i.size, k)], now, true)]
      + Blocks(i, content, now, k + 1)
  }

  function Pulls(i: Info, k: nat): seq<Event>
    decreases Segments(i.size) - k
  {
    if k >= Segments(i.size) then [] else [Pull(i.toUser, k * SEGMENT_SIZE, true)] + Pulls(i, k + 1)
  }

  /** All that the pulls of a run return. */
  function Replies(h: History, run: seq<Event>): seq<byte>
    requires ProperRun(h, run)
    decreases |run|
  {
    if run == [] then []
    else (if run[0].Pull? && Step(h.server, run[0]).code >= 0 then Step(h.server, run[0]).data else [])
         + Replies(Advance(h, run[0]), run[1..])
  }

  // ---- the upload ----

  ghost predicate UploadedSoFar(h: History, i: Info, content: seq<byte>, k: nat) {
    && Ok(h, i) && k < Segments(i.size) && h.server.task.Some? && h.server.task.value.info == i && h.blocks == k
    && h.server.task.value.idx == k && |content| == i.size && k * SEGMENT_SIZE <= i.size
    && h.got == content[..k * SEGMENT_SIZE]
    && (h.server.task.value.state == WAITING_UPLOAD || h.server.task.value.state == UPLOADING)
  }

  lemma OneBlock(h: History, i: Info, content: seq<byte>, now: nat, k: nat)
    requires Transfer(i) && UploadedSoFar(h, i, content, k) && |Decimal(now)| <= 128
    ensures |content[k * SEGMENT_SIZE..]| >= BlockSize(i.size, k)
    ensures var e := Block(i.fromUser, k * SEGMENT_SIZE, content[k * SEGMENT_SIZE..][..BlockSize(i.size, k)],
                         now, true);
      && Proper(h.server, e)
      && (if k + 1 < Segments(i.size) then UploadedSoFar(Advance(h, e), i, content, k + 1)
          else Advance(h, e).server.task.None? && Advance(h, e).got == content)
  {
    hide Stores, HeaderBytes, CountOk, Appended, TaskOk;
    SegmentFacts(i.size, k);
    SegmentFacts(i.size, k + 1);
    var n := BlockSize(i.size, k);
    var e := Block(i.fromUser, k * SEGMENT_SIZE, content[k * SEGMENT_SIZE..][..n], now, true);
    StreamOfUpload(h, i, content, k);
    BlockKeeps(h, i, e);
    assert e.data[..n] == e.data;
    assert content[..k * SEGMENT_SIZE] + e.data == content[..k * SEGMENT_SIZE + n];
    assert content[..i.size] == content;
  }

  lemma StreamOfUpload(h: History, i: Info, content: seq<byte>, k: nat)
    requires UploadedSoFar(h, i, content, k)
    ensures h.server.task.value.state == UPLOADING ==> h.server.task.value.stream == Appending
  {
  }

  lemma {:induction false} UploadAll(h: History, i: Info, content: seq<byte>, now: nat, k: nat)
    requires Transfer(i) && UploadedSoFar(h, i, content, k) && |Decimal(now)| <= 128
    ensures ProperRun(h, Blocks(i, content, now, k))
    ensures var h1 := Run(h, Blocks(i, content, now, k)); h1.got == content && h1.server.task.None?
    decreases Segments(i.size) - k
  {
    hide Advance, Proper, BlockSize;
    OneBlock(h, i, content, now, k);
    var es := Blocks(i, content, now, k);
    var h1 := Advance(h, es[0]);
    assert es[1..] == Blocks(i, content, now, k + 1);
    if k + 1 < Segments(i.size) {
      UploadAll(h1, i, content, now, k + 1);
    } else {
      assert es[1..] == [];
      assert ProperRun(h1, []);
    }
  }

  // ---- the download ----

  ghost predicate DownloadedSoFar(h: History, i: Info, content: seq<byte>, k: nat) {
    && Ok(h, i) && k < Segments(i.size) && h.server.task.Some? && h.got == content && |content| == i.size
    && (if k == 0 then h.server.task.value.state == WAITING_DOWNLOAD
        else h.server.task.value.state == DOWNLOADING && h.server.task.value.idx == k)
  }

  lemma OnePull(h: History, i: Info, content: seq<byte>, k: nat)
    requires Transfer(i) && DownloadedSoFar(h, i, content, k)
    ensures k * SEGMENT_SIZE + BlockSize(i.size, k) <= i.size
    ensures var e := Pull(i.toUser, k * SEGMENT_SIZE, true);
      && Step(h.server, e).code >= 0
      && Step(h.server, e).data == content[k * SEGMENT_SIZE..k * SEGMENT_SIZE + BlockSize(i.size, k)]
      && (k + 1 < Segments(i.size) ==> DownloadedSoFar(Advance(h, e), i, content, k + 1))
  {
    hide CountOk, Stores, TaskOk, PullFile, BlockSize;
    SegmentFacts(i.size, k);
    var e := Pull(i.toUser, k * SEGMENT_SIZE, true);
    SizeKept(h, i);
    PullSucceeds(h, i, content, k);
    PullReturnsBlock(h, i, e);
    PullKeeps(h, i, e);
  }

  lemma PullSucceeds(h: History, i: Info, content: seq<byte>, k: nat)
    requires Transfer(i) && DownloadedSoFar(h, i, content, k)
    ensures var (t, code, data) := PullFile(h.server.task.value, h.server.file, k * SEGMENT_SIZE, true);
      && code == (if k + 1 < Segments(i.size) then 0 else 1)
      && (k + 1 < Segments(i.size) ==> t.state == DOWNLOADING && t.idx == k + 1)
  {
    hide HeaderBytes, CountOk;
    SegmentFacts(i.size, k);
    var t := h.server.task.value;
    assert h.got != [];
    var now: nat :| StoresAt(h.server.file, i, h.got, now);
  }

  lemma {:induction false} DownloadAll(h: History, i: Info, content: seq<byte>, k: nat)
    requires Transfer(i) && DownloadedSoFar(h, i, content, k)
    ensures ProperRun(h, Pulls(i, k)) && k * SEGMENT_SIZE <= |content|
    ensures Replies(h, Pulls(i, k)) == content[k * SEGMENT_SIZE..]
    decreases Segments(i.size) - k
  {
    hide Advance, Step, Ok, BlockSize;
    SegmentFacts(i.size, k);
    assert |content| == i.size;
    OnePull(h, i, content, k);
    var es := Pulls(i, k);
    var h1 := Advance(h, es[0]);
    assert es[1..] == Pulls(i, k + 1);
    if k + 1 < Segments(i.size) {
      DownloadAll(h1, i, content, k + 1);
    } else {
      assert es[1..] == [];
      assert ProperRun(h1, []);
      assert Replies(h1, []) == [];
    }
  }

  // ---- both ----

  lemma {:induction false} RunJoin(h: History, a: seq<Event>, b: seq<Event>)
    requires ProperRun(h, a) && ProperRun(Run(h, a), b)
    ensures ProperRun(h, a + b) && Run(h, a + b) == Run(Run(h, a), b)
    decreases |a|
  {
    if a == [] {
      assert a + b == b;
    } else {
      assert (a + b)[1..] == a[1..] + b;
      RunJoin(Advance(h, a[0]), a[1..], b);
    }
  }

  /** The sender logs in and sends its blocks in order: the task is then gone from memory. The
      receiver logs in, the task comes back from disk, and pulls at successive offsets return the
      bytes of the sender in order. */
  lemma RoundTrip(i: Info, content: seq<byte>, now: nat)
    requires Transfer(i) && |content| == i.size && |Decimal(now)| <= 128
    ensures var up := [Login(i.fromUser, OfflineUpload, true)] + Blocks(i, content, now, 0);
      var down := [Login(i.toUser, OfflineDownload, true)] + Pulls(i, 0);
      && ProperRun(Start(i), up) && Run(Start(i), up).got == content && Run(Start(i), up).server.task.None?
      && ProperRun(Run(Start(i), up), down) && Replies(Run(Start(i), up), down) == content
  {
    hide Ok, Blocks, Pulls, PullFile, RecvData, LoadFromDisk;
    UploadBegins(i, content);
    var login := Login(i.fromUser, OfflineUpload, true);
    var h := Advance(Start(i), login);
    UploadAll(h, i, content, now, 0);
    var up := [login] + Blocks(i, content, now, 0);
    assert up[1..] == Blocks(i, content, now, 0);
    assert Run(Start(i), up) == Run(h, Blocks(i, content, now, 0));
    DownloadAfter(i, content, up);
  }

  lemma DownloadAfter(i: Info, content: seq<byte>, up: seq<Event>)
    requires Transfer(i) && |content| == i.size && ProperRun(Start(i), up)
    requires Run(Start(i), up).got == content && Run(Start(i), up).server.task.None?
    ensures var down := [Login(i.toUser, OfflineDownload, true)] + Pulls(i, 0);
      ProperRun(Run(Start(i), up), down) && Replies(Run(Start(i), up), down) == content
  {
    hide Ok, Pulls, PullFile, RecvData, LoadFromDisk;
    StartOk(i);
    RunKeeps(Start(i), i, up);
    NoPrefixLoads(i, up);
    SegmentFacts(i.size, 0);
    var h := Run(Start(i), up);
    var login := Login(i.toUser, OfflineDownload, true);
    LoginKeeps(h, i, login);
    var h1 := Advance(h, login);
    assert DownloadedSoFar(h1, i, content, 0);
    DownloadAll(h1, i, content, 0);
    var down := [login] + Pulls(i, 0);
    assert down[1..] == Pulls(i, 0);
    assert ProperRun(h, down);
    assert Replies(h, down) == [] + Replies(h1, Pulls(i, 0));
    assert content[0 * SEGMENT_SIZE..] == content;
  }

  // ---- across a lost connection ----

  /** A close leaves the file as it is; the task is gone unless it waits for an upload, and is then
      as it was. */
  lemma CloseLeaves(s: Server)
    requires s.task.Some?
    ensures var v := Step(s, Close).server;
      v.file == s.file && if s.task.value.state == WAITING_UPLOAD then v.task == s.task else v.task.None?
  {
  }

  /** What fails, or is the last block either way, closes the connection: so the task is gone, or
      waits for an upload. */
  lemma FailureCloses(s: Server, e: Event)
    requires Proper(s, e) && (e.Block? || e.Pull?) && s.task.Some? && Step(s, e).code != 0
    ensures var v := Step(s, e).server; v.task.Some? ==> v.task.value.state == WAITING_UPLOAD
  {
    hide RecvData, PullFile;
  }

  /** After any run that has brought the upload to its end, with a download under way or not: when
      the connection closes and the receiver logs in again, pulls from the start return the whole
      file. */
  lemma FetchedAfterClose(i: Info, run: seq<Event>)
    requires Transfer(i) && ProperRun(Start(i), run) && |Run(Start(i), run).got| == i.size
    ensures var h, down := Run(Start(i), run), [Close, Login(i.toUser, OfflineDownload, true)] + Pulls(i, 0);
      ProperRun(h, down) && Replies(h, down) == h.got
  {
    hide Ok, Pulls, PullFile, RecvData, LoadFromDisk;
    var h := Run(Start(i), run);
    StartOk(i);
    RunKeeps(Start(i), i, run);
    ClosedAtEnd(h, i);
    var h1 := Advance(h, Close);
    assert [Close][1..] == [];
    assert ProperRun(h1, []) && Run(h1, []) == h1;
    assert Run(h, [Close]) == h1;
    RunJoin(Start(i), run, [Close]);
    DownloadAfter(i, h.got, run + [Close]);
    var rest := [Login(i.toUser, OfflineDownload, true)] + Pulls(i, 0);
    var down := [Close, Login(i.toUser, OfflineDownload, true)] + Pulls(i, 0);
    assert down[1..] == rest;
    assert Replies(h, down) == [] + Replies(h1, rest);
  }

  lemma ClosedAtEnd(h: History, i: Info)
    requires Ok(h, i) && Transfer(i) && |h.got| == i.size
    ensures var h1 := Advance(h, Close); h1.server.task.None? && h1.got == h.got
  {
    hide Stores, CountOk;
  }

  /** An upload that a close interrupts is lost: the task is gone, and whatever is tried afterwards
      fails and changes nothing. */
  lemma InterruptedIsLost(i: Info, run: seq<Event>, later: seq<Event>)
    requires Transfer(i) && ProperRun(Start(i), run) && 0 < |Run(Start(i), run).got| < i.size
    requires ProperRun(Advance(Run(Start(i), run), Close), later)
    ensures var h1 := Advance(Run(Start(i), run), Close);
      && h1.server.task.None? && Run(h1, later) == h1
      && forall e :: Proper(h1.server, e) ==> Step(h1.server, e) == Result(h1.server, -1, [])
  {
    hide Ok, PullFile, RecvData, LoadFromDisk;
    var h := Run(Start(i), run);
    StartOk(i);
    RunKeeps(Start(i), i, run);
    NoPrefixLoads(i, run);
    ClosedMidway(h, i);
    NothingLeft(Advance(h, Close), later);
  }

  lemma ClosedMidway(h: History, i: Info)
    requires Ok(h, i) && Transfer(i) && 0 < |h.got| < i.size
    ensures var h1 := Advance(h, Close); h1.server.task.None? && h1.server.file == h.server.file && h1.got == h.got
  {
    hide Stores, CountOk;
  }

  lemma {:induction false} NothingLeft(h: History, later: seq<Event>)
    requires h.server.task.None? && LoadFromDisk(h.server.file).None? && ProperRun(h, later)
    ensures Run(h, later) == h
    ensures forall e :: Proper(h.server, e) ==> Step(h.server, e) == Result(h.server, -1, [])
    decreases |later|
  {
    hide LoadFromDisk, PullFile, RecvData;
    if later == [] {
    } else {
      assert Step(h.server, later[0]) == Result(h.server, -1, []);
      assert Advance(h, later[0]) == h;
      NothingLeft(h, later[1..]);
    }
  }

  // ---- the empty file ----

  /** Some run brings the upload to its end. */
  ghost predicate CanEnd(i: Info) {
    exists run, e :: ProperRun(Start(i), run) && Ends(Run(Start(i), run).server, e)
  }

  predicate Ends(s: Server, e: Event) {
    e.Block? && Proper(s, e) && s.task.Some? && Step(s, e).code == 1
  }

  /** The upload of an empty file: after each block it goes on. */
  ghost predicate EmptyOk(h: History, i: Info) {
    && Stores(h.server.file, i, h.got)
    && (h.server.task.Some? ==>
         && h.server.task.value.info == i
         && (h.server.task.value.state in {READY, WAITING_UPLOAD} ==> h.got == [])
         && (h.server.task.value.state == UPLOADING ==> h.got != [])
         && h.server.task.value.state in {READY, WAITING_UPLOAD, UPLOADING})
  }

  lemma EmptyBlock(h: History, i: Info, e: Event)
    requires EmptyOk(h, i) && i.size == 0 && e.Block? && Proper(h.server, e) && h.server.task.Some?
    ensures EmptyOk(Advance(h, e), i) && !Ends(h.server, e)
  {
    hide HeaderBytes, Decimal;
    var t := h.server.task.value;
    var block := e.data[..SEGMENT_SIZE];
    if Step(h.server, e).code >= 0 {
      if h.got == [] {
        assert h.got + block == block;
        assert [] + (HeaderBytes(t.info, e.now) + block) == HeaderBytes(t.info, e.now) + block;
        assert StoresAt(Some([] + (HeaderBytes(t.info, e.now) + block)), i, block, e.now);
      } else {
        var now: nat :| StoresAt(h.server.file, i, h.got, now);
        assert HeaderBytes(i, now) + h.got + ([] + block) == HeaderBytes(i, now) + (h.got + block);
        assert StoresAt(Some(HeaderBytes(i, now) + h.got + ([] + block)), i, h.got + block, now);
      }
    }
  }

  lemma EmptyStep(h: History, i: Info, e: Event)
    requires EmptyOk(h, i) && i.size == 0 && |i.taskId| < 128 && NUL !in i.taskId && Proper(h.server, e)
    ensures EmptyOk(Advance(h, e), i) && !Ends(h.server, e)
  {
    hide HeaderBytes, RecvData, LoadFromDisk;
    if e.Block? && h.server.task.Some? {
      EmptyBlock(h, i, e);
    } else if h.server.task.None? {
      NothingLoads();
      if h.got != [] {
        var now: nat :| StoresAt(h.server.file, i, h.got, now);
        IdReadBack(i);
        LoadsIffComplete(i, now, h.got);
      }
    }
  }

  lemma {:induction false} EmptyRun(h: History, i: Info, run: seq<Event>)
    requires EmptyOk(h, i) && i.size == 0 && |i.taskId| < 128 && NUL !in i.taskId && ProperRun(h, run)
    ensures EmptyOk(Run(h, run), i)
    decreases |run|
  {
    hide EmptyOk, Advance;
    if run == [] {
    } else {
      EmptyStep(h, i, run[0]);
      EmptyRun(Advance(h, run[0]), i, run[1..]);
    }
  }

  lemma {:induction false} ReachLast(h: History, i: Info, content: seq<byte>, now: nat,
                                     k: nat) returns (run: seq<Event>)
    requires Transfer(i) && UploadedSoFar(h, i, content, k) && |Decimal(now)| <= 128
    ensures ProperRun(h, run) && UploadedSoFar(Run(h, run), i, content, Segments(i.size) - 1)
    decreases Segments(i.size) - k
  {
    hide Advance, Ok, BlockSize, Proper;
    run := [];
    if k + 1 < Segments(i.size) {
      OneBlock(h, i, content, now, k);
      var e := Block(i.fromUser, k * SEGMENT_SIZE, content[k * SEGMENT_SIZE..][..BlockSize(i.size, k)], now, true);
      var rest := ReachLast(Advance(h, e), i, content, now, k + 1);
      run := [e] + rest;
      assert run[1..] == rest;
    }
  }

  lemma LastBlockEnds(h: History, i: Info, content: seq<byte>, now: nat)
    requires Transfer(i) && 0 < Segments(i.size) && UploadedSoFar(h, i, content, Segments(i.size) - 1)
    requires |Decimal(now)| <= 128
    ensures exists e :: Ends(h.server, e)
  {
    hide Ok, BlockSize, Proper, Stores, HeaderBytes, Appended;
    var k := Segments(i.size) - 1;
    OneBlock(h, i, content, now, k);
    StreamOfUpload(h, i, content, k);
    var e := Block(i.fromUser, k * SEGMENT_SIZE, content[k * SEGMENT_SIZE..][..BlockSize(i.size, k)], now, true);
    assert Step(h.server, e).code == 1;
    assert Ends(h.server, e);
  }

  /** An upload can end exactly when the file is not empty. */
  lemma UploadCanEndIffNotEmpty(i: Info)
    requires i.size < 0x8000_0000 && 2 <= |i.taskId| < 128 && NUL !in i.taskId
    ensures CanEnd(i) <==> i.size > 0
  {
    hide Ok, EmptyOk, Ends, Advance, UploadedSoFar;
    if i.size == 0 {
      if CanEnd(i) {
        var run, e :| ProperRun(Start(i), run) && Ends(Run(Start(i), run).server, e);
        EmptyStart(i);
        EmptyRun(Start(i), i, run);
        EndsIsProper(Run(Start(i), run).server, e);
        EmptyStep(Run(Start(i), run), i, e);
        assert false;
      }
    } else {
      var content := seq(i.size, _ => NUL);
      UploadBegins(i, content);
      var login := Login(i.fromUser, OfflineUpload, true);
      var run := ReachLast(Advance(Start(i), login), i, content, 0, 0);
      SegmentFacts(i.size, 0);
      LastBlockEnds(Run(Advance(Start(i), login), run), i, content, 0);
      assert ([login] + run)[1..] == run;
      assert Run(Start(i), [login] + run) == Run(Advance(Start(i), login), run);
    }
  }

  lemma EmptyStart(i: Info)
    ensures EmptyOk(Start(i), i)
  {
  }

  lemma EndsIsProper(s: Server, e: Event)
    requires Ends(s, e)
    ensures Proper(s, e)
  {
  }

  lemma UploadBegins(i: Info, content: seq<byte>)
    requires Transfer(i) && |content| == i.size
    ensures UploadedSoFar(Advance(Start(i), Login(i.fromUser, OfflineUpload, true)), i, content, 0)
  {
    hide Ok;
    SegmentFacts(i.size, 0);
    StartOk(i);
    LoginKeeps(Start(i), i, Login(i.fromUser, OfflineUpload, true));
  }
}
