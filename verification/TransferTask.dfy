/** The offline task as the object that the file server updates in place, and the disk. Each method
    is proved to do what the functions of the model of a transfer say. */
module TransferTask {
  import opened CBytes
  import opened OfflineFile
  import opened OfflineTask

  /** The files of the server, under the id of their task. */
  class Disk {
    var files: map<seq<byte>, seq<byte>>

    function FileOf(id: seq<byte>): File
      reads this
    {
      if id in files then Some(files[id]) else None
    }

    /** Opening for appending creates a file that is not there. */
    method Create(id: seq<byte>)
      modifies this
      ensures files == old(files)[id := if id in old(files) then old(files)[id] else []]
    {
      if id !in files {
        files := files[id := []];
      }
    }

    method Append(id: seq<byte>, bytes: seq<byte>)
      requires id in files
      modifies this
      ensures files == old(files)[id := old(files)[id] + bytes]
    {
      files := files[id := files[id] + bytes];
    }
  }

  class OfflineTransferTask {
    const info: Info
    const segments: nat
    var state: TransferState
    var stream: Stream
    var idx: nat

    ghost predicate Valid() { segments == Segments(info.size) }

    ghost function View(): Task
      reads this
    {
      Task(info, state, stream, idx)
    }

    constructor (i: Info)
      ensures Valid() && View() == NewTask(i)
    {
      info, segments := i, Segments(i.size);
      state, stream, idx := READY, NoStream, 0;
    }

    static method Load(disk: Disk, id: seq<byte>, opens: bool) returns (t: OfflineTransferTask?)
      ensures t != null <==> opens && LoadFromDisk(disk.FileOf(id)).Some?
      ensures t != null ==> fresh(t) && t.Valid()
      ensures t != null ==> t.View() == NewTask(LoadFromDisk(disk.FileOf(id)).value).(state := WAITING_DOWNLOAD)
    {
      t := null;
      if opens && id in disk.files {
        var file := disk.files[id];
        if |file| >= HEADER_SIZE {
          var header := HeaderInfo(file[..HEADER_SIZE]);
          if |file| - HEADER_SIZE == header.size {
            t := new OfflineTransferTask(header);
            t.state := WAITING_DOWNLOAD;
          }
        }
      }
    }

    method NextSegmentBlockSize() returns (n: int)
      requires Valid()
      ensures n == BlockSize(info.size, idx)
    {
      n := SEGMENT_SIZE;
      if idx + 1 == segments {
        n := info.size - idx * SEGMENT_SIZE;
      }
    }

    method ChangePull(user: nat, role: Role) returns (ok: bool)
      modifies this
      ensures (View(), ok) == ChangePullState(old(View()), user, role)
    {
      ok := RoleFits(info, user, role);
      if !ok || state !in {READY, UPLOAD_END, WAITING_DOWNLOAD} {
        return;
      }
      if state == READY {
        if role == OfflineUpload {
          state := WAITING_UPLOAD;
        }
      } else if role == OfflineDownload {
        state := WAITING_DOWNLOAD;
      }
    }

    /** The first block: opens the file, unless it is open, and writes the header. */
    method WriteHeader(disk: Disk, now: nat, opens: bool) returns (ok: bool)
      requires Valid() && |Decimal(now)| <= 128 && !stream.Reading?
      requires stream.Appending? ==> info.taskId in disk.files
      modifies this`state, this`stream, disk
      ensures ok == (old(stream).Appending? || CanOpen(info.taskId, opens))
      ensures !ok ==> state == old(state) && stream == old(stream) && disk.files == old(disk.files)
      ensures ok ==> state == UPLOADING && stream == Appending && info.taskId in disk.files
      ensures ok ==>
        disk.files == old(disk.files)[info.taskId := Stored(old(disk.FileOf(info.taskId))) + HeaderBytes(info, now)]
    {
      hide HeaderBytes, Decimal;
      ok := true;
      if stream == NoStream {
        if !CanOpen(info.taskId, opens) {
          return false;
        }
        disk.Create(info.taskId);
        stream := Appending;
      }
      disk.Append(info.taskId, HeaderBytes(info, now));
      state := UPLOADING;
    }

    /** On to the next segment; the last one closes the file. */
    method NextSegment() returns (code: int)
      requires Valid() && state == UPLOADING && stream == Appending
      modifies this`idx, this`state, this`stream
      ensures idx == old(idx) + 1
      ensures var done := idx == segments;
        && state == (if done then UPLOAD_END else UPLOADING) && stream == (if done then NoStream else Appending)
        && code == if done then 1 else 0
    {
      idx := idx + 1;
      code := 0;
      if idx == segments {
        state, stream, code := UPLOAD_END, NoStream, 1;
      }
    }

    /** A block that came; the file that is written is the one of the task. */
    method DoRecvData(disk: Disk, user: nat, offset: nat, data: seq<byte>, now: nat, opens: bool) returns (code: int)
      requires Valid() && |data| >= BlockSize(info.size, idx) && |Decimal(now)| <= 128
      requires stream.Appending? ==> info.taskId in disk.files
      requires !stream.Reading?
      modifies this, disk
      ensures (View(), disk.FileOf(info.taskId), code) ==
        RecvData(old(View()), old(disk.FileOf(info.taskId)), user, offset, data, now, opens)
      ensures forall id :: id != info.taskId ==> disk.FileOf(id) == old(disk.FileOf(id))
    {
      hide HeaderBytes, Decimal;
      code := -1;
      if user != info.fromUser || state !in {WAITING_UPLOAD, UPLOADING} || offset != idx * SEGMENT_SIZE {
        return;
      }
      var size := NextSegmentBlockSize();
      ghost var was := Stored(disk.FileOf(info.taskId));
      ghost var head := if state == WAITING_UPLOAD then HeaderBytes(info, now) else [];
      if state == WAITING_UPLOAD {
        var ok := WriteHeader(disk, now, opens);
        if !ok {
          return;
        }
      }
      if stream == NoStream {
        return;
      }
      assert disk.files[info.taskId] == was + head;
      disk.Append(info.taskId, data[..size]);
      Regrouped(was, head, data[..size]);
      code := NextSegment();
    }

    /** A pull: the block that the offset asks for, when it is the next one. */
    method DoPullFileRequest(disk: Disk, offset: nat, opens: bool) returns (code: int, data: seq<byte>)
      requires Valid()
      requires state == DOWNLOADING && stream.Reading? ==> disk.FileOf(info.taskId).Some?
      modifies this
      ensures (View(), code, data) == PullFile(old(View()), disk.FileOf(info.taskId), offset, opens)
    {
      hide HeaderInfo;
      code, data := -1, [];
      if state !in {WAITING_DOWNLOAD, DOWNLOADING} {
        return;
      }
      if state == WAITING_DOWNLOAD {
        idx, stream := 0, NoStream;
        if !CanOpen(info.taskId, opens) || info.taskId !in disk.files {
          return;
        }
        if |disk.files[info.taskId]| < HEADER_SIZE {
          return;
        }
        stream, state := Reading(HEADER_SIZE), DOWNLOADING;
      }
      if !stream.Reading? || offset != idx * SEGMENT_SIZE {
        return;
      }
      var size := NextSegmentBlockSize();
      var file, pos := disk.files[info.taskId], stream.pos;
      if |file| < pos + size {
        stream := Reading(if pos < |file| then |file| else pos);
        return;
      }
      data := file[pos..pos + size];
      stream := Reading(pos + size);
      idx := idx + 1;
      if idx == segments {
        state, stream, code := UPLOAD_END, NoStream, 1;
      } else {
        code := 0;
      }
    }
  }
}
