/** What the file server answers in an offline transfer, in every history that it may be in: exactly
    when a login, a block and a pull succeed, and what a failure leaves. */
module OfflineAnswers {
  import opened CBytes
  import opened OfflineFile
  import opened OfflineTask
  import opened OfflineRuns

  /** The sender uploads, the receiver downloads. */
  predicate Fitting(i: Info, user: nat, role: Role) {
    (role == OfflineUpload && user == i.fromUser) || (role == OfflineDownload && user == i.toUser)
  }

  /** The task is in memory, or a download finds the whole upload on disk. */
  predicate There(h: History, i: Info, e: Event)
    requires e.Login?
  {
    h.server.task.Some? || (e.role == OfflineDownload && e.opens && |h.got| == i.size)
  }

  /** What is on disk loads exactly when the upload is complete. */
  lemma LoadsWhole(h: History, i: Info)
    requires Ok(h, i) && Transfer(i)
    ensures LoadFromDisk(h.server.file) == if |h.got| == i.size then Some(i.(fileName := [])) else None
  {
    hide HeaderBytes, LoadFromDisk, TaskOk;
    if h.got == [] {
      NothingLoads();
    } else {
      var now: nat :| StoresAt(h.server.file, i, h.got, now);
      IdReadBack(i);
      LoadsIffComplete(i, now, h.got);
    }
  }

  /** A login succeeds exactly when the task is there and the role fits the user. An upload may then
      begin, or a download; a login that does not fit leaves the state, of a task that it found on
      disk too. */
  lemma LoginSucceedsIff(h: History, i: Info, e: Event)
    requires Ok(h, i) && Transfer(i) && e.Login?
    ensures var r, there, fits := Step(h.server, e), There(h, i, e), Fitting(i, e.user, e.role);
      && r.code == (if there && fits then 0 else -1) && r.data == [] && r.server.file == h.server.file
      && (r.server.task.Some? <==> there)
      && (there ==>
            var t := r.server.task.value;
            if h.server.task.None? then t == Task(i.(fileName := []), WAITING_DOWNLOAD, NoStream, 0)
            else
              var was := h.server.task.value;
              t == was.(state :=
                if fits && e.role == OfflineUpload && was.state == READY then WAITING_UPLOAD
                else if fits && e.role == OfflineDownload && was.state == UPLOAD_END then WAITING_DOWNLOAD
                else was.state))
  {
    hide HeaderBytes, LoadFromDisk, Stores, CountOk;
    LoadsWhole(h, i);
  }

  /** A block succeeds exactly when the sender sends the next one while the upload is on; the first
      one needs the file to open. */
  lemma BlockSucceedsIff(h: History, i: Info, e: Event)
    requires Ok(h, i) && Transfer(i) && e.Block? && Proper(h.server, e) && h.server.task.Some?
    ensures var r, s := Step(h.server, e), h.server.task.value.state;
      && (r.code >= 0 <==>
           e.user == i.fromUser && e.offset == |h.got| && (s == UPLOADING || (s == WAITING_UPLOAD && e.opens)))
      && r.code <= 1 && r.data == [] && (r.code < 0 ==> r.code == -1 && r.server == CloseTask(h.server))
  {
    hide Stores, HeaderBytes, Appended;
    SegmentFacts(i.size, h.blocks);
    SegmentFacts(i.size, 0);
  }

  /** A pull succeeds exactly when the receiver asks for the next block of a complete upload; the
      first one needs the file to open. */
  lemma PullSucceedsIff(h: History, i: Info, e: Event)
    requires Ok(h, i) && Transfer(i) && e.Pull? && h.server.task.Some?
    ensures var r, t := Step(h.server, e), h.server.task.value;
      && (r.code >= 0 <==>
           e.user == i.toUser && ((t.state == WAITING_DOWNLOAD && e.opens && e.offset == 0)
                                  || (t.state == DOWNLOADING && e.offset == t.idx * SEGMENT_SIZE)))
      && r.code <= 1 && r.server.file == h.server.file
      && (r.code < 0 ==> r.code == -1 && r.data == [] && r.server.task.None? == (t.state != WAITING_UPLOAD))
  {
    hide HeaderBytes, CountOk;
    var t := h.server.task.value;
    SegmentFacts(i.size, 0);
    SegmentFacts(i.size, t.idx);
    if t.state == WAITING_DOWNLOAD || t.state == DOWNLOADING {
      assert h.got != [];
      var now: nat :| StoresAt(h.server.file, i, h.got, now);
    }
  }
}
