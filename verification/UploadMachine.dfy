/**
 * Resumable uploads as a machine of atomic steps.
 *
 * `writeBlobs` (src/files/files.service.ts:76-120) starts one asynchronous loop per directory. Such a loop
 * runs without interruption between its two `await`s, so each stretch of it is one step here: the prefix up to
 * the first `await` (`Tick`), the resumption after a disk write (`WriteDone`, `WriteFail`) and the resumption
 * after the file information was read (`Finalise`, `FinaliseFail`). The endpoints of the controller and the
 * arrival of a new measurement of the used space are the remaining steps. `Step` says what each event does to the
 * value of the state; the class `UploadPipeline` does the same in place.
 */
module UploadMachine {
  import opened TempStorage

  /** A suspended loop: waiting for a disk write, or for the file information of a completed upload. */
  datatype Task =
    | Writing(dir: Path, blob: Blob)
    | Finalising(dir: Path, blob: Blob)

  datatype Sys = Sys(
    store: Store,
    tasks: map<nat, Task>,
    nextTask: nat,
    disk: map<Path, seq<Byte>>,
    used: int,
    total: int,
    limit: int,
    reserve: bool)

  datatype Event =
    | Init(dir: Path, size: nat, userId: string, path: Path, overwrite: bool)
    | Receive(dir: Path, blob: Blob)
    | Tick
    | WriteDone(task: nat)
    | WriteFail(task: nat, touched: bool, landed: nat)
    | Finalise(task: nat)
    | FinaliseFail(task: nat)
    | Delete(dir: Path)
    | Recount(measured: int)

  datatype InitVerdict = NoSpace | AlreadyInitialised | FileExists | NotFound | Created

  // ----- The steps of the write loop -----

  /** One turn of the inner loop up to its `await`: raise the flag, take the oldest chunk, start writing it. */
  function BeginWrite(s: Sys, t: nat, d: Path): Sys
    requires d in s.store.files && s.store.files[d].blobs != []
  {
    var u := s.store.files[d].(writting := true);
    s.(store := s.store.Put(d, Deallocate(u)), tasks := s.tasks[t := Writing(d, Oldest(u))])
  }

  /** The loop condition after a resumption: go on with the next chunk or end the loop. */
  function ContinueLoop(s: Sys, t: nat, d: Path): Sys {
    if d in s.store.files && s.store.files[d].blobs != [] then BeginWrite(s, t, d)
    else s.(tasks := s.tasks - {t})
  }

  /** The per-directory callback of one interval tick, up to its first `await`. */
  function StartWriter(s: Sys, d: Path): Sys {
    if d in s.store.files && s.store.files[d].writting then s
    else if s.store.CountWritting() > s.limit then s
    else if d !in s.store.files || s.store.files[d].blobs == [] then s
    else BeginWrite(s, s.nextTask, d).(nextTask := s.nextTask + 1)
  }

  function TickOver(s: Sys, dirs: seq<Path>): Sys {
    if dirs == [] then s else StartWriter(TickOver(s, dirs[..|dirs| - 1]), dirs[|dirs| - 1])
  }

  function Content(disk: map<Path, seq<Byte>>, d: Path): seq<Byte> {
    if d in disk then disk[d] else []
  }

  /** The store after `setWritting(false)`, `updateBytesWriten` and `isCompleted`. */
  function RecordWrite(u: Upload, b: Blob): Upload {
    var v := UpdateBytesWritten(u.(writting := false), b);
    v.(completed := Complete(v))
  }

  function AfterWrite(s: Sys, t: nat, d: Path, b: Blob): Sys
    requires b.position >= 0
  {
    var s1 := s.(disk := s.disk[d := WriteAt(Content(s.disk, d), b.position, b.bytes)]);
    if d !in s1.store.files then s1.(tasks := s1.tasks - {t})
    else
      var u := RecordWrite(s1.store.files[d], b);
      var s2 := s1.(store := s1.store.Put(d, u));
      if u.completed then s2.(tasks := s2.tasks[t := Finalising(d, b)]) else ContinueLoop(s2, t, d)
  }

  /** The `catch`: the chunk goes back to the queue's tail; without an upload that throws and the loop dies. */
  function AfterError(s: Sys, t: nat, d: Path, b: Blob): Sys {
    if d !in s.store.files then s.(tasks := s.tasks - {t})
    else ContinueLoop(s.(store := s.store.Put(d, Allocate(s.store.files[d], b))), t, d)
  }

  // ----- The endpoints -----

  /** What a path denotes on disk: the file itself, or the files of the folder it names. */
  function Below(disk: map<Path, seq<Byte>>, d: Path): set<Path> {
    set e | e in disk && (e == d || d + "/" <= e)
  }

  function RemoveTree(disk: map<Path, seq<Byte>>, d: Path): map<Path, seq<Byte>> {
    disk - Below(disk, d)
  }

  predicate Present(disk: map<Path, seq<Byte>>, d: Path) {
    Below(disk, d) != {}
  }

  function VerdictOf(s: Sys, d: Path, size: nat, overwrite: bool): InitVerdict {
    if !(s.used + size + s.store.SpaceToUse() <= s.total) then NoSpace
    else if d in s.store.files then AlreadyInitialised
    else if Present(s.disk, d) && !overwrite then FileExists
    else if overwrite && !Present(s.disk, d) then NotFound
    else Created
  }

  function Reservation(disk: map<Path, seq<Byte>>, d: Path, size: nat, reserve: bool): map<Path, seq<Byte>> {
    if reserve && size > 0 then disk[d := Zeros(size)] else disk
  }

  /** What an initialisation does once its checks are over and the old content is removed. */
  function Create(s: Sys, d: Path, size: nat, userId: string, path: Path): Sys {
    s.(store := s.store.CreateFileTemp(d, size, userId, path), disk := Reservation(s.disk, d, size, s.reserve))
  }

  function Step(s: Sys, e: Event): Sys {
    match e
    case Init(d, size, userId, path, overwrite) =>
      if VerdictOf(s, d, size, overwrite) != Created then s
      else Create(s.(disk := RemoveTree(s.disk, d)), d, size, userId, path)
    case Receive(d, b) =>
      if d in s.store.files then s.(store := s.store.Put(d, Allocate(s.store.files[d], b))) else s
    case Tick => TickOver(s, s.store.dirs)
    case WriteDone(t) =>
      if t in s.tasks && s.tasks[t].Writing? && s.tasks[t].blob.position >= 0
      then AfterWrite(s, t, s.tasks[t].dir, s.tasks[t].blob) else s
    case WriteFail(t, touched, landed) =>
      if t in s.tasks && s.tasks[t].Writing? && landed <= |s.tasks[t].blob.bytes|
         && (touched ==> s.tasks[t].blob.position >= 0)
      then
        var Writing(d, b) := s.tasks[t];
        var disk := if touched then s.disk[d := WriteAt(Content(s.disk, d), b.position, b.bytes[..landed])]
                    else s.disk;
        AfterError(s.(disk := disk), t, d, b)
      else s
    case Finalise(t) =>
      if t in s.tasks && s.tasks[t].Finalising?
      then s.(store := s.store.DelFile(s.tasks[t].dir), tasks := s.tasks - {t}) else s
    case FinaliseFail(t) =>
      if t in s.tasks && s.tasks[t].Finalising?
      then AfterError(s, t, s.tasks[t].dir, s.tasks[t].blob) else s
    case Delete(d) =>
      s.(store := if d in s.store.files then s.store.DelFile(d) else s.store, disk := RemoveTree(s.disk, d))
    case Recount(measured) => s.(used := measured)
  }

  // ----- The same steps in place -----

  class UploadPipeline {
    const storage: TempStorageService
    const reserve: bool
    const dedicatedSpaceBytes: int
    var usedSpaceBytes: int
    var disk: map<Path, seq<Byte>>
    var tasks: map<nat, Task>
    var nextTask: nat

    ghost function State(): Sys
      reads this, storage
    {
      Sys(storage.State(), tasks, nextTask, disk, usedSpaceBytes, dedicatedSpaceBytes,
          storage.filesAtSameTime, reserve)
    }

    constructor (storage: TempStorageService, total: int, used: int, disk: map<Path, seq<Byte>>, reserve: bool)
      ensures State() == Sys(storage.State(), map[], 0, disk, used, total, storage.filesAtSameTime, reserve)
    {
      this.storage := storage;
      this.reserve := reserve;
      this.dedicatedSpaceBytes := total;
      this.usedSpaceBytes := used;
      this.disk := disk;
      this.tasks := map[];
      this.nextTask := 0;
    }

    method InitializeFile(d: Path, size: nat, userId: string, path: Path, overwrite: bool)
        returns (verdict: InitVerdict)
      requires State().store.Consistent()
      modifies this, storage
      ensures State() == Step(old(State()), Init(d, size, userId, path, overwrite))
      ensures verdict == VerdictOf(old(State()), d, size, overwrite)
    {
      var unsavedBytes := storage.GetSpaceToUse();
      if !(usedSpaceBytes + size + unsavedBytes <= dedicatedSpaceBytes) { return NoSpace; }
      if d in storage.storage { return AlreadyInitialised; }
      if Present(disk, d) && !overwrite { return FileExists; }
      if overwrite {
        if !Present(disk, d) { return NotFound; }
        disk := RemoveTree(disk, d);
      }
      assert disk == RemoveTree(old(disk), d);
      storage.CreateFileTemp(d, size, userId, path);
      if reserve && size > 0 {
        disk := disk[d := Zeros(size)];
      }
      return Created;
    }

    method ReciveBlob(d: Path, b: Blob) returns (found: bool)
      modifies storage
      ensures State() == Step(old(State()), Receive(d, b))
      ensures found == (d in old(storage.storage))
    {
      found := storage.AllocateBlob(d, b);
    }

    method WriteBlobs()
      modifies this, storage
      ensures State() == Step(old(State()), Tick)
    {
      var dirs := storage.filesDirectories;
      for i := 0 to |dirs|
        invariant State() == TickOver(old(State()), dirs[..i])
      {
        assert dirs[..i + 1][..i] == dirs[..i];
        StartWriterFor(dirs[i]);
      }
      assert dirs[..|dirs|] == dirs;
    }

    method StartWriterFor(d: Path)
      modifies this, storage
      ensures State() == StartWriter(old(State()), d)
    {
      if d in storage.storage && storage.storage[d].writting { return; }
      var allowed := storage.AllowWriteMoreFiles();
      if !allowed { return; }
      if d in storage.storage && |storage.storage[d].blobs| != 0 {
        Begin(nextTask, d);
        nextTask := nextTask + 1;
      }
    }

    method Begin(t: nat, d: Path)
      requires d in storage.storage && storage.storage[d].blobs != []
      modifies this`tasks, storage
      ensures State() == BeginWrite(old(State()), t, d)
    {
      storage.SetWritting(d, true);
      var blob := storage.DeallocateBlob(d);
      tasks := tasks[t := Writing(d, blob.value)];
    }

    method Continue(t: nat, d: Path)
      modifies this`tasks, storage
      ensures State() == ContinueLoop(old(State()), t, d)
    {
      if d in storage.storage && |storage.storage[d].blobs| != 0 {
        Begin(t, d);
      } else {
        tasks := tasks - {t};
      }
    }

    method Catch(t: nat, d: Path, blob: Blob)
      modifies this`tasks, storage
      ensures State() == AfterError(old(State()), t, d, blob)
    {
      var ok := storage.AllocateBlob(d, blob);
      if ok {
        Continue(t, d);
      } else {
        tasks := tasks - {t};
      }
    }

    method Record(d: Path, blob: Blob) returns (ok: bool, done: bool)
      modifies storage
      ensures ok == (d in old(storage.storage))
      ensures ok ==> done == RecordWrite(old(storage.storage)[d], blob).completed
      ensures storage.State() == if ok then old(storage.State()).Put(d, RecordWrite(old(storage.storage)[d], blob))
                                 else old(storage.State())
    {
      storage.SetWritting(d, false);
      ok := storage.UpdateBytesWriten(d, blob);
      done := false;
      if ok {
        done := storage.IsCompleted(d);
      }
    }

    method ResumeAfterWrite(t: nat)
      requires t in tasks && tasks[t].Writing? && tasks[t].blob.position >= 0
      modifies this, storage
      ensures State() == Step(old(State()), WriteDone(t))
    {
      var Writing(d, blob) := tasks[t];
      disk := disk[d := WriteAt(Content(disk, d), blob.position, blob.bytes)];
      var ok, done := Record(d, blob);
      if !ok {
        tasks := tasks - {t};
      } else if done {
        tasks := tasks[t := Finalising(d, blob)];
      } else {
        Continue(t, d);
      }
    }

    method ResumeAfterWriteError(t: nat, touched: bool, landed: nat)
      requires t in tasks && tasks[t].Writing? && landed <= |tasks[t].blob.bytes|
      requires touched ==> tasks[t].blob.position >= 0
      modifies this, storage
      ensures State() == Step(old(State()), WriteFail(t, touched, landed))
    {
      var Writing(d, blob) := tasks[t];
      if touched {
        disk := disk[d := WriteAt(Content(disk, d), blob.position, blob.bytes[..landed])];
      }
      Catch(t, d, blob);
    }

    /** The new measurement that is started here arrives as a step of its own. */
    method ResumeAfterFileInfo(t: nat)
      requires t in tasks && tasks[t].Finalising?
      modifies this, storage
      ensures State() == Step(old(State()), Finalise(t))
    {
      storage.DelFile(tasks[t].dir);
      Continue(t, tasks[t].dir);
    }

    method ResumeAfterFileInfoError(t: nat)
      requires t in tasks && tasks[t].Finalising?
      modifies this, storage
      ensures State() == Step(old(State()), FinaliseFail(t))
    {
      Catch(t, tasks[t].dir, tasks[t].blob);
    }

    method DeleteFile(d: Path) returns (found: bool)
      modifies this, storage
      ensures State() == Step(old(State()), Delete(d))
      ensures found == Present(old(disk), d)
    {
      if d in storage.storage {
        storage.DelFile(d);
      }
      found := Present(disk, d);
      disk := RemoveTree(disk, d);
    }

    method UpdateUsedSpace(measured: int)
      modifies this`usedSpaceBytes
      ensures State() == Step(old(State()), Recount(measured))
    {
      if usedSpaceBytes != measured {
        usedSpaceBytes := measured;
      }
    }
  }
}
