/** One offline transfer: the upload of a file in blocks to the server, and its download. */
module OfflineTask {
  import opened CBytes
  import opened OfflineFile

  const SEGMENT_SIZE: nat := 32768

  /** The states of a transfer, numbered as in the source, which compares them. */
  type TransferState = s: int | 0 <= s <= 13

  const INVALID: TransferState := 0
  const READY: TransferState := 1
  const WAITING_SENDER: TransferState := 2
  const WAITING_RECEIVER: TransferState := 3
  const WAITING_TRANSFER: TransferState := 4
  const TRANSFERING: TransferState := 5
  const WAITING_UPLOAD: TransferState := 7
  const UPLOADING: TransferState := 8
  const UPLOAD_END: TransferState := 9
  const WAITING_DOWNLOAD: TransferState := 10
  const DOWNLOADING: TransferState := 11

  datatype Role = RealtimeSender | RealtimeReceiver | OfflineUpload | OfflineDownload

  /** A task keeps its file open: for appending, or for reading at a position. */
  datatype Stream = NoStream | Appending | Reading(pos: nat)

  datatype Task = Task(info: Info, state: TransferState, stream: Stream, idx: nat)

  type File = Option<seq<byte>>

  function NewTask(i: Info): Task { Task(i, READY, NoStream, 0) }

  function Segments(size: nat): nat {
    if size % SEGMENT_SIZE != 0 then size / SEGMENT_SIZE + 1 else size / SEGMENT_SIZE
  }

  /** The size of block `idx`: full, but for the last. */
  function BlockSize(size: nat, idx: nat): (n: nat) {
    if idx + 1 == Segments(size) then size - idx * SEGMENT_SIZE else SEGMENT_SIZE
  }

  predicate RoleFits(i: Info, user: nat, role: Role) {
    match role
    case OfflineUpload => user == i.fromUser
    case OfflineDownload => user == i.toUser
    case _ => false
  }

  /** ChangePullState. Its result says only whether the role fits the user. */
  function ChangePullState(t: Task, user: nat, role: Role): (Task, bool) {
    if !RoleFits(t.info, user, role) then (t, false)
    else if t.state == READY && role.OfflineUpload? then (t.(state := WAITING_UPLOAD), true)
    else if t.state in {UPLOAD_END, WAITING_DOWNLOAD} && role.OfflineDownload? then
      (t.(state := WAITING_DOWNLOAD), true)
    else (t, true)
  }

  function Stored(f: File): seq<byte> { if f.Some? then f.value else [] }

  function Appended(f: File, bytes: seq<byte>): File { Some(Stored(f) + bytes) }

  /** Can the file of a task be opened: its id needs two characters. */
  predicate CanOpen(id: seq<byte>, opens: bool) { opens && |id| >= 2 }

  /** DoRecvData: the task, the file, and the code -1, 0, or 1 for the last block. What is stored
      is the size that the server asked for, whatever came. */
  function RecvData(t: Task, f: File, user: nat, offset: nat, data: seq<byte>, now: nat, opens: bool): (Task, File, int)
    requires |data| >= BlockSize(t.info.size, t.idx) && |Decimal(now)| <= 128
  {
    if user != t.info.fromUser || t.state !in {WAITING_UPLOAD, UPLOADING} || offset != t.idx * SEGMENT_SIZE then
      (t, f, -1)
    else if t.state == WAITING_UPLOAD && t.stream.NoStream? && !CanOpen(t.info.taskId, opens) then (t, f, -1)
    else if t.state == UPLOADING && t.stream.NoStream? then (t, f, -1)
    else
      var block := data[..BlockSize(t.info.size, t.idx)];
      var head := if t.state == WAITING_UPLOAD then HeaderBytes(t.info, now) else [];
      var done := t.idx + 1 == Segments(t.info.size);
      (Task(t.info, if done then UPLOAD_END else UPLOADING, if done then NoStream else Appending, t.idx + 1),
       Appended(f, head + block), if done then 1 else 0)
  }

  /** The first pull opens the file and skips the header. */
  function StartDownload(t: Task, f: File, opens: bool): Task {
    var t0 := t.(idx := 0, stream := NoStream);
    if !CanOpen(t.info.taskId, opens) || f.None? || |f.value| < HEADER_SIZE then t0
    else t0.(stream := Reading(HEADER_SIZE), state := DOWNLOADING)
  }

  /** DoPullFileRequest: the task, the code, and the block. */
  function PullFile(t: Task, f: File, offset: nat, opens: bool): (Task, int, seq<byte>) {
    if t.state !in {WAITING_DOWNLOAD, DOWNLOADING} then (t, -1, [])
    else
      var t1 := if t.state == WAITING_DOWNLOAD then StartDownload(t, f, opens) else t;
      if t1.state != DOWNLOADING || !t1.stream.Reading? || f.None? || offset != t1.idx * SEGMENT_SIZE then (t1, -1, [])
      else
        var n, pos := BlockSize(t1.info.size, t1.idx), t1.stream.pos;
        if |f.value| < pos + n then (t1.(stream := Reading(if pos < |f.value| then |f.value| else pos)), -1, [])
        else
          var done := t1.idx + 1 == Segments(t1.info.size);
          (Task(t1.info, if done then UPLOAD_END else DOWNLOADING,
                if done then NoStream else Reading(pos + n), t1.idx + 1),
           if done then 1 else 0, f.value[pos..pos + n])
  }
}
