/** The file server and one offline transfer, over every run: logins, blocks, pulls and closes,
    also across the deletion of the task and its return from disk. */
module OfflineRuns {
  import opened CBytes
  import opened OfflineFile
  import opened OfflineTask

  /** The task of the id, when the manager has one, and the file of the id. */
  datatype Server = Server(task: Option<Task>, file: File)

  /** A login that fails on a connection of the task closes it: a `Close` follows. */
  datatype Event =
    | Login(user: nat, role: Role, opens: bool)
    | Block(user: nat, offset: nat, data: seq<byte>, now: nat, opens: bool)
    | Pull(user: nat, offset: nat, opens: bool)
    | Close

  datatype Result = Result(server: Server, code: int, data: seq<byte>)

  /** The client sends the block that was asked for; the clock fits its field. */
  predicate Proper(s: Server, e: Event) {
    && (e.Block? ==> |Decimal(e.now)| <= 128)
    && (e.Block? && s.task.Some? ==> |e.data| >= BlockSize(s.task.value.info.size, s.task.value.idx))
  }

  /** A connection of the task closes: the task is deleted unless it still waits for an upload. */
  function CloseTask(s: Server): Server
    requires s.task.Some?
  {
    var t := s.task.value;
    var t1 := if t.state >= UPLOAD_END then t.(state := WAITING_DOWNLOAD) else t;
    if t1.state != WAITING_UPLOAD then s.(task := None) else s.(task := Some(t1))
  }

  function Finish(s: Server, code: int, data: seq<byte>): Result
    requires s.task.Some?
  {
    Result(if code != 0 then CloseTask(s) else s, code, data)
  }

  /** A download of a task that is not in memory loads it from disk first. */
  function HandleLogin(s: Server, user: nat, role: Role, opens: bool): Result {
    var found := if s.task.None? && role.OfflineDownload? && opens then LoadFromDisk(s.file) else None;
    var s1 := if found.Some? then s.(task := Some(NewTask(found.value).(state := WAITING_DOWNLOAD))) else s;
    if s1.task.None? then Result(s1, -1, [])
    else
      var (t, ok) := ChangePullState(s1.task.value, user, role);
      Result(s1.(task := Some(t)), if ok then 0 else -1, [])
  }

  function Step(s: Server, e: Event): Result
    requires Proper(s, e)
  {
    if e.Login? then HandleLogin(s, e.user, e.role, e.opens)
    else if s.task.None? then Result(s, -1, [])
    else
      var t := s.task.value;
      match e
      case Block(user, offset, data, now, opens) =>
        var (t1, f1, code) := RecvData(t, s.file, user, offset, data, now, opens);
        Finish(Server(Some(t1), f1), code, [])
      case Pull(user, offset, opens) =>
        if user != t.info.toUser then Finish(s, -1, [])
        else
          var (t1, code, data) := PullFile(t, s.file, offset, opens);
          Finish(Server(Some(t1), s.file), code, data)
      case _ => Result(CloseTask(s), 0, [])
  }

  /** A run, with the bytes that were accepted and the number of their blocks. */
  datatype History = History(server: Server, got: seq<byte>, blocks: nat)

  function Advance(h: History, e: Event): History
    requires Proper(h.server, e)
  {
    var r := Step(h.server, e);
    if e.Block? && r.code >= 0 && h.server.task.Some? then
      var t := h.server.task.value;
      History(r.server, h.got + e.data[..BlockSize(t.info.size, t.idx)], h.blocks + 1)
    else h.(server := r.server)
  }

  predicate ProperRun(h: History, run: seq<Event>)
    decreases |run|
  {
    run == [] || (Proper(h.server, run[0]) && ProperRun(Advance(h, run[0]), run[1..]))
  }

  function Run(h: History, run: seq<Event>): History
    requires ProperRun(h, run)
    decreases |run|
  {
    if run == [] then h else Run(Advance(h, run[0]), run[1..])
  }

  function Start(i: Info): History { History(Server(Some(NewTask(i)), None), [], 0) }

  // ---- the invariant ----

  ghost predicate StoresAt(f: File, i: Info, got: seq<byte>, now: nat) {
    |Decimal(now)| <= 128 && f == Some(HeaderBytes(i, now) + got)
  }

  /** The file is the header and what was accepted. */
  ghost predicate Stores(f: File, i: Info, got: seq<byte>) {
    if got == [] then f.None? else exists now: nat :: StoresAt(f, i, got, now)
  }

  predicate TaskOk(t: Task, i: Info, got: seq<byte>, blocks: nat) {
    && t.info.(fileName := []) == i.(fileName := [])
    && (t.state in {READY, WAITING_UPLOAD} ==> t.idx == 0 && t.stream.NoStream? && got == [])
    && (t.state == UPLOADING ==> t.stream.Appending? && t.idx == blocks && 0 < t.idx < Segments(i.size))
    && (t.state in {UPLOAD_END, WAITING_DOWNLOAD, DOWNLOADING} ==> |got| == i.size)
    && (t.state == DOWNLOADING ==>
         t.idx < Segments(i.size) && t.stream == Reading(HEADER_SIZE + t.idx * SEGMENT_SIZE))
    && t.state in {READY, WAITING_UPLOAD, UPLOADING, UPLOAD_END, WAITING_DOWNLOAD, DOWNLOADING}
  }

  /** All blocks are full but the last; complete means as many as there are segments. */
  predicate CountOk(i: Info, got: seq<byte>, blocks: nat) {
    && |got| == (if blocks < Segments(i.size) then blocks * SEGMENT_SIZE else i.size)
    && blocks <= Segments(i.size)
  }

  ghost predicate Ok(h: History, i: Info) {
    && Stores(h.server.file, i, h.got) && CountOk(i, h.got, h.blocks)
    && (h.server.task.Some? ==> TaskOk(h.server.task.value, i, h.got, h.blocks))
  }

  /** What the property is promised for. */
  predicate Transfer(i: Info) {
    0 < i.size < 0x8000_0000 && 2 <= |i.taskId| < 128 && NUL !in i.taskId
  }

  lemma SegmentFacts(size: nat, k: nat)
    ensures (k < Segments(size)) <==> (k * SEGMENT_SIZE < size)
    ensures k < Segments(size) ==>
      BlockSize(size, k) == (if k + 1 < Segments(size) then SEGMENT_SIZE else size - k * SEGMENT_SIZE) > 0
    ensures k < Segments(size) ==> BlockSize(size, k) <= SEGMENT_SIZE
  {
  }

  lemma LoginKeeps(h: History, i: Info, e: Event)
    requires Ok(h, i) && Transfer(i) && e.Login?
    ensures Ok(Advance(h, e), i)
  {
    hide LoadFromDisk, HeaderBytes;
    if h.server.task.None? && h.server.file.Some? {
      var now: nat :| StoresAt(h.server.file, i, h.got, now);
      IdReadBack(i);
      LoadsIffComplete(i, now, h.got);
    } else if h.server.file.None? {
      assert LoadFromDisk(None).None? by {
        NothingLoads();
      }
    }
  }

  lemma NothingLoads()
    ensures LoadFromDisk(None).None?
  {
  }

  lemma CloseKeeps(s: Server, i: Info, got: seq<byte>, blocks: nat)
    requires Ok(History(s, got, blocks), i) && s.task.Some?
    ensures Ok(History(CloseTask(s), got, blocks), i)
  {
    hide Stores, CountOk;
  }

  /** An accepted block is the next one, of the full size unless it is the last; the code tells
      whether the upload is complete. */
  lemma BlockAccepted(h: History, i: Info, e: Event)
    requires Ok(h, i) && Transfer(i) && e.Block? && Proper(h.server, e) && h.server.task.Some?
    requires Step(h.server, e).code >= 0
    ensures h.blocks < Segments(i.size) && e.offset == |h.got| == h.blocks * SEGMENT_SIZE
    ensures h.server.task.value.idx == h.blocks && h.server.task.value.state in {WAITING_UPLOAD, UPLOADING}
    ensures h.server.task.value.state == WAITING_UPLOAD <==> h.got == []
    ensures Step(h.server, e).code == if h.blocks + 1 == Segments(i.size) then 1 else 0
  {
    hide Stores, HeaderBytes, Appended;
    SegmentFacts(i.size, h.blocks);
    SegmentFacts(i.size, 0);
  }

  lemma BlockKeeps(h: History, i: Info, e: Event)
    requires Ok(h, i) && Transfer(i) && e.Block? && Proper(h.server, e) && h.server.task.Some?
    ensures Ok(Advance(h, e), i)
  {
    hide Stores, CountOk, HeaderBytes, Appended;
    var t := h.server.task.value;
    var (t1, f1, code) := RecvData(t, h.server.file, e.user, e.offset, e.data, e.now, e.opens);
    if code < 0 {
      assert t1 == t && f1 == h.server.file;
      CloseKeeps(h.server, i, h.got, h.blocks);
    } else {
      BlockAccepted(h, i, e);
      var got := h.got + e.data[..BlockSize(t.info.size, t.idx)];
      StoresNext(h, i, e);
      CountNext(h, i, got);
      if code != 0 {
        CloseKeeps(Server(Some(t1), f1), i, got, h.blocks + 1);
      }
    }
  }

  lemma CountNext(h: History, i: Info, got: seq<byte>)
    requires CountOk(i, h.got, h.blocks) && h.blocks < Segments(i.size)
    requires |got| == |h.got| + BlockSize(i.size, h.blocks)
    ensures CountOk(i, got, h.blocks + 1)
    ensures h.blocks + 1 == Segments(i.size) ==> |got| == i.size
  {
    SegmentFacts(i.size, h.blocks);
  }

  lemma StoresNext(h: History, i: Info, e: Event)
    requires Ok(h, i) && Transfer(i) && e.Block? && Proper(h.server, e) && h.server.task.Some?
    requires Step(h.server, e).code >= 0
    ensures var t := h.server.task.value;
      Stores(RecvData(t, h.server.file, e.user, e.offset, e.data, e.now, e.opens).1, i,
             h.got + e.data[..BlockSize(t.info.size, t.idx)])
  {
    hide HeaderBytes, Decimal;
    BlockAccepted(h, i, e);
    SegmentFacts(i.size, h.blocks);
    var t := h.server.task.value;
    var block := e.data[..BlockSize(t.info.size, t.idx)];
    if h.got == [] {
      SameHeader(t.info, i, e.now);
      assert h.got + block == block;
      assert [] + (HeaderBytes(t.info, e.now) + block) == HeaderBytes(t.info, e.now) + block;
      assert StoresAt(Some([] + (HeaderBytes(t.info, e.now) + block)), i, block, e.now);
    } else {
      var now: nat :| StoresAt(h.server.file, i, h.got, now);
      assert HeaderBytes(i, now) + h.got + ([] + block) == HeaderBytes(i, now) + (h.got + block);
      assert StoresAt(Some(HeaderBytes(i, now) + h.got + ([] + block)), i, h.got + block, now);
    }
  }

  lemma SameHeader(a: Info, b: Info, now: nat)
    requires a.(fileName := []) == b.(fileName := []) && |Decimal(now)| <= 128
    ensures HeaderBytes(a, now) == HeaderBytes(b, now)
  {
  }

  // ---- pulls ----

  /** A pull that succeeds returns the block at its offset of the complete upload, and its code
      tells whether it is the last. */
  lemma BlockEnds(size: nat, k: nat)
    ensures k < Segments(size) ==>
      && k * SEGMENT_SIZE < size
      && BlockSize(size, k) == Min(SEGMENT_SIZE, size - k * SEGMENT_SIZE)
      && (k + 1 == Segments(size) <==> k * SEGMENT_SIZE + BlockSize(size, k) == size)
  {
    SegmentFacts(size, k);
    SegmentFacts(size, k + 1);
  }

  lemma SomeSegment(size: nat)
    ensures size > 0 ==> 0 < Segments(size)
  {
    SegmentFacts(size, 0);
  }

  lemma PullReturnsBlock(h: History, i: Info, e: Event)
    requires Ok(h, i) && Transfer(i) && e.Pull? && h.server.task.Some?
    requires Step(h.server, e).code >= 0
    ensures var n := Min(SEGMENT_SIZE, i.size - e.offset);
      && |h.got| == i.size && e.offset < i.size && e.user == i.toUser
      && Step(h.server, e).data == h.got[e.offset..e.offset + n]
      && Step(h.server, e).code == if e.offset + n == i.size then 1 else 0
  {
    hide HeaderBytes, CountOk, Segments, BlockSize;
    var t := h.server.task.value;
    assert h.got != [];
    var now: nat :| StoresAt(h.server.file, i, h.got, now);
    PulledBlock(t, i, h.got, now, e.offset, e.opens);
  }

  lemma PulledBlock(t: Task, i: Info, got: seq<byte>, now: nat, offset: nat, opens: bool)
    requires |Decimal(now)| <= 128 && Transfer(i) && got != [] && TaskOk(t, i, got, Segments(i.size))
    requires PullFile(t, Some(HeaderBytes(i, now) + got), offset, opens).1 >= 0
    ensures var n := Min(SEGMENT_SIZE, i.size - offset);
      && |got| == i.size && offset < i.size
      && PullFile(t, Some(HeaderBytes(i, now) + got), offset, opens).2 == got[offset..offset + n]
      && PullFile(t, Some(HeaderBytes(i, now) + got), offset, opens).1 == if offset + n == i.size then 1 else 0
  {
    hide HeaderBytes, Segments, BlockSize;
    var t1 := if t.state == WAITING_DOWNLOAD then StartDownload(t, Some(HeaderBytes(i, now) + got), opens) else t;
    BlockEnds(i.size, t1.idx);
    SomeSegment(i.size);
    Skip(HeaderBytes(i, now), got, offset, BlockSize(i.size, t1.idx));
  }

  lemma Skip(a: seq<byte>, b: seq<byte>, k: nat, n: nat)
    requires k + n <= |b|
    ensures (a + b)[|a| + k..|a| + k + n] == b[k..k + n]
  {
  }

  lemma PullKeeps(h: History, i: Info, e: Event)
    requires Ok(h, i) && Transfer(i) && e.Pull? && h.server.task.Some?
    ensures Ok(Advance(h, e), i)
  {
    hide HeaderBytes, CountOk, Stores;
    var t := h.server.task.value;
    if e.user != t.info.toUser {
      CloseKeeps(h.server, i, h.got, h.blocks);
    } else {
      PulledOk(h, i, e);
      var (t1, code, data) := PullFile(t, h.server.file, e.offset, e.opens);
      if code != 0 {
        CloseKeeps(Server(Some(t1), h.server.file), i, h.got, h.blocks);
      }
    }
  }

  lemma PulledOk(h: History, i: Info, e: Event)
    requires Ok(h, i) && Transfer(i) && e.Pull? && h.server.task.Some?
    ensures TaskOk(PullFile(h.server.task.value, h.server.file, e.offset, e.opens).0, i, h.got, h.blocks)
  {
    hide HeaderBytes, CountOk;
    var t := h.server.task.value;
    SegmentFacts(i.size, 0);
    if t.state == WAITING_DOWNLOAD || t.state == DOWNLOADING {
      var t1 := if t.state == WAITING_DOWNLOAD then StartDownload(t, h.server.file, e.opens) else t;
      SegmentFacts(i.size, t1.idx);
      assert h.got != [];
      var now: nat :| StoresAt(h.server.file, i, h.got, now);
    }
  }

  // ---- every run ----

  lemma StepKeeps(h: History, i: Info, e: Event)
    requires Ok(h, i) && Transfer(i) && Proper(h.server, e)
    ensures Ok(Advance(h, e), i)
  {
    hide Ok, TaskOk, RecvData, PullFile;
    if e.Login? {
      LoginKeeps(h, i, e);
    } else if h.server.task.Some? {
      match e
      case Block(_, _, _, _, _) => BlockKeeps(h, i, e);
      case Pull(_, _, _) => PullKeeps(h, i, e);
      case _ => CloseKeeps(h.server, i, h.got, h.blocks);
    }
  }

  lemma {:induction false} RunKeeps(h: History, i: Info, run: seq<Event>)
    requires Ok(h, i) && Transfer(i) && ProperRun(h, run)
    ensures Ok(Run(h, run), i)
    decreases |run|
  {
    hide Ok, Advance;
    if run == [] {
    } else {
      StepKeeps(h, i, run[0]);
      RunKeeps(Advance(h, run[0]), i, run[1..]);
    }
  }

  lemma StartOk(i: Info)
    requires Transfer(i)
    ensures Ok(Start(i), i)
  {
    SegmentFacts(i.size, 0);
  }

  /** In every run the next block that is accepted starts where the accepted bytes end, and the
      upload is over exactly with the last of its blocks; the number of its blocks is the number
      of segments. */
  lemma UploadIsOrdered(i: Info, run: seq<Event>, e: Event)
    requires Transfer(i) && ProperRun(Start(i), run) && e.Block? && Proper(Run(Start(i), run).server, e)
    ensures var h := Run(Start(i), run);
      h.server.task.Some? && Step(h.server, e).code >= 0 ==>
        && e.offset == |h.got| < i.size && h.got <= Advance(h, e).got <= h.got + e.data
        && |Advance(h, e).got| == |h.got| + Min(SEGMENT_SIZE, i.size - |h.got|)
        && (Step(h.server, e).code == 1 <==> |Advance(h, e).got| == i.size)
        && (Step(h.server, e).code == 1 <==> h.blocks + 1 == Segments(i.size))
  {
    hide Ok, RecvData;
    StartOk(i);
    RunKeeps(Start(i), i, run);
    var h := Run(Start(i), run);
    if h.server.task.Some? && Step(h.server, e).code >= 0 {
      BlockAccepted(h, i, e);
      SegmentFacts(i.size, h.blocks);
      SegmentFacts(i.size, h.blocks + 1);
      SizeKept(h, i);
    }
  }

  lemma SizeKept(h: History, i: Info)
    requires Ok(h, i) && h.server.task.Some?
    ensures h.server.task.value.info.size == i.size && h.server.task.value.info.toUser == i.toUser
  {
  }

  /** In every run: what is on disk loads exactly when the upload is complete, and what loads is
      the task; so no proper prefix of an upload loads. */
  lemma NoPrefixLoads(i: Info, run: seq<Event>)
    requires Transfer(i) && ProperRun(Start(i), run)
    ensures var h := Run(Start(i), run);
      && |h.got| <= i.size
      && LoadFromDisk(h.server.file) == if |h.got| == i.size then Some(i.(fileName := [])) else None
  {
    hide HeaderBytes, LoadFromDisk, TaskOk;
    StartOk(i);
    RunKeeps(Start(i), i, run);
    var h := Run(Start(i), run);
    SegmentFacts(i.size, h.blocks);
    if h.got == [] {
      NothingLoads();
    } else {
      var now: nat :| StoresAt(h.server.file, i, h.got, now);
      IdReadBack(i);
      LoadsIffComplete(i, now, h.got);
    }
  }

  /** In every run: a pull that succeeds returns what was uploaded at its offset, all of it having
      been uploaded before. */
  lemma PullsReturnTheUpload(i: Info, run: seq<Event>, e: Event)
    requires Transfer(i) && ProperRun(Start(i), run) && e.Pull?
    ensures var h := Run(Start(i), run);
      h.server.task.Some? && Step(h.server, e).code >= 0 ==>
        && |h.got| == i.size && e.offset < i.size && e.user == i.toUser
        && Step(h.server, e).data == h.got[e.offset..e.offset + Min(SEGMENT_SIZE, i.size - e.offset)]
  {
    hide Ok, PullFile;
    StartOk(i);
    RunKeeps(Start(i), i, run);
    var h := Run(Start(i), run);
    if h.server.task.Some? && Step(h.server, e).code >= 0 {
      PullReturnsBlock(h, i, e);
    }
  }
}
