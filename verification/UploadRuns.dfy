/** The upload invariant over whole runs, and what follows from it. */
module UploadRuns {
  import opened Basics
  import opened Seqs
  import opened TempStorage
  import opened UploadMachine
  import opened UploadCoverage
  import opened UploadSafety

  // ----- The system invariant -----

  ghost predicate OneTaskPerFile(tasks: map<nat, Task>) {
    forall i, j :: i in tasks && j in tasks && tasks[i].dir == tasks[j].dir ==> i == j
  }

  ghost function DiskAt(disk: map<Path, seq<Byte>>, d: Path): Option<seq<Byte>> {
    if d in disk then Some(disk[d]) else None
  }

  ghost predicate UploadInv(s: Sys, h: Histories, d: Path)
    requires d in s.store.files
  {
    UploadOk(s.store.files[d], TaskFor(s.tasks, d), Past(h, d), DiskAt(s.disk, d))
  }

  /** A loop may outlive its upload: its path need not be in the store. */
  ghost predicate Inv(s: Sys, h: Histories) {
    && s.store.Consistent()
    && OneTaskPerFile(s.tasks)
    && (forall t :: t in s.tasks ==> t < s.nextTask)
    && forall d :: d in s.store.files ==> UploadInv(s, h, d)
  }

  // ----- Looking up the task of an upload -----

  lemma TaskForIs(tasks: map<nat, Task>, t: nat)
    requires OneTaskPerFile(tasks) && t in tasks
    ensures TaskFor(tasks, tasks[t].dir) == Some(tasks[t])
  {}

  lemma TaskForIdle(tasks: map<nat, Task>, d: Path)
    requires forall t :: t in tasks ==> tasks[t].dir != d
    ensures TaskFor(tasks, d) == None
  {}

  lemma TaskForSame(tasks: map<nat, Task>, tasks': map<nat, Task>, d: Path)
    requires OneTaskPerFile(tasks) && OneTaskPerFile(tasks')
    requires forall t :: t in tasks && tasks[t].dir == d ==> t in tasks' && tasks'[t] == tasks[t]
    requires forall t :: t in tasks' && tasks'[t].dir == d ==> t in tasks && tasks'[t] == tasks[t]
    ensures TaskFor(tasks', d) == TaskFor(tasks, d)
  {
    if t :| t in tasks && tasks[t].dir == d {
      TaskForIs(tasks, t);
      TaskForIs(tasks', t);
    }
  }

  /** A step that touches one upload only leaves the others' invariant alone. */
  lemma OthersKept(s: Sys, h: Histories, s': Sys, h': Histories, d: Path)
    requires Inv(s, h) && OneTaskPerFile(s'.tasks)
    requires forall t :: t in s.tasks && s.tasks[t].dir != d ==> t in s'.tasks && s'.tasks[t] == s.tasks[t]
    requires forall t :: t in s'.tasks && s'.tasks[t].dir != d ==> t in s.tasks && s'.tasks[t] == s.tasks[t]
    requires forall e :: e in s'.store.files && e != d ==>
               && e in s.store.files && s'.store.files[e] == s.store.files[e]
               && Past(h', e) == Past(h, e)
               && (DiskAt(s'.disk, e) == DiskAt(s.disk, e)
                   || (DiskAt(s'.disk, e) == None && s.store.files[e].bytesWritten == []))
    ensures forall e :: e in s'.store.files && e != d ==> UploadInv(s', h', e)
  {
    hide UploadOk, TaskFor, TaskOn;
    forall e | e in s'.store.files && e != d ensures UploadInv(s', h', e) {
      TaskForSame(s.tasks, s'.tasks, e);
      assert UploadInv(s, h, e);
      UnwrittenOk(s.store.files[e], TaskFor(s.tasks, e), Past(h, e), DiskAt(s.disk, e));
    }
  }

  // ----- Each step keeps the invariant -----

  /** The state in which upload `d` waits for its loop to take the next chunk. */
  function Rested(s: Sys, t: nat, d: Path): Sys
    requires d in s.store.files
  {
    s.(store := s.store.Put(d, s.store.files[d].(writting := false)), tasks := s.tasks - {t})
  }

  lemma ContinueInv(s: Sys, h: Histories, t: nat, d: Path)
    requires d in s.store.files && t < s.nextTask
    requires Inv(Rested(s, t, d), h) && Idle(Rested(s, t, d), d)
    ensures s.store.files[d].blobs != [] ==> Inv(BeginWrite(s, t, d), h)
  {
    hide UploadOk, TaskFor, TaskOn;
    if s.store.files[d].blobs != [] {
      var r, s', u := Rested(s, t, d), BeginWrite(s, t, d), s.store.files[d];
      forall i, j | i in s'.tasks && j in s'.tasks && s'.tasks[i].dir == s'.tasks[j].dir ensures i == j {
        assert i != t ==> i in r.tasks;
        assert j != t ==> j in r.tasks;
      }
      OthersKept(r, h, s', h, d);
      TaskForIs(s'.tasks, t);
      assert UploadInv(r, h, d);
      TaskForIdle(r.tasks, d);
      PopOk(u, Past(h, d), DiskAt(s.disk, d), d);
      assert UploadInv(s', h, d);
    }
  }

  /** An upload with queued chunks and its flag down has no loop. */
  lemma ReadyIsIdle(s: Sys, h: Histories, d: Path)
    requires Inv(s, h) && d in s.store.files && !s.store.files[d].writting && s.store.files[d].blobs != []
    ensures Idle(s, d)
  {
    assert UploadInv(s, h, d);
    if t :| t in s.tasks && s.tasks[t].dir == d {
      TaskForIs(s.tasks, t);
      assert false;
    }
  }

  lemma StartWriterInv(s: Sys, h: Histories, d: Path)
    requires Inv(s, h)
    ensures Inv(StartWriter(s, d), h)
  {
    hide UploadOk, TaskFor, TaskOn;
    if d in s.store.files && !s.store.files[d].writting && s.store.files[d].blobs != []
       && s.store.CountWritting() <= s.limit
    {
      ReadyIsIdle(s, h, d);
      var s1 := s.(nextTask := s.nextTask + 1);
      assert s.store.files[d].(writting := false) == s.store.files[d];
      assert s.store.files[d := s.store.files[d]] == s.store.files;
      assert s.tasks - {s.nextTask} == s.tasks;
      assert Rested(s1, s.nextTask, d) == s1;
      ContinueInv(s1, h, s.nextTask, d);
      assert BeginWrite(s1, s.nextTask, d) == StartWriter(s, d);
    }
  }

  lemma {:induction false} TickInv(s: Sys, h: Histories, dirs: seq<Path>)
    requires Inv(s, h)
    ensures Inv(TickOver(s, dirs), h)
  {
    if dirs != [] {
      TickInv(s, h, dirs[..|dirs| - 1]);
      StartWriterInv(TickOver(s, dirs[..|dirs| - 1]), h, dirs[|dirs| - 1]);
    }
  }

  /** Removing a path from disk takes away what is at it or inside it, and nothing else. */
  lemma RemoveTreeOthers(disk: map<Path, seq<Byte>>, d: Path, e: Path)
    requires e != d
    ensures DiskAt(RemoveTree(disk, d), e) == if d + "/" <= e then None else DiskAt(disk, e)
  {
    assert e in Below(disk, d) <==> e in disk && d + "/" <= e;
  }

  lemma InitInv(s: Sys, h: Histories, d: Path, size: nat, userId: string, path: Path, overwrite: bool)
    requires Inv(s, h) && Orderly(s, h, Init(d, size, userId, path, overwrite))
    ensures Inv(Step(s, Init(d, size, userId, path, overwrite)), Observe(h, s, Init(d, size, userId, path, overwrite)))
  {
    hide UploadOk, TaskFor, TaskOn, Below;
    var e := Init(d, size, userId, path, overwrite);
    var s', h' := Step(s, e), Observe(h, s, e);
    if VerdictOf(s, d, size, overwrite) == Created {
      assert d !in s.store.dirs;
      assert NoDup(s'.store.dirs);
      forall x | x in s.store.files && x != d
        ensures DiskAt(s'.disk, x) == if d + "/" <= x then None else DiskAt(s.disk, x)
      {
        RemoveTreeOthers(s.disk, d, x);
      }
      OthersKept(s, h, s', h', d);
      RemovedItself(s.disk, d);
      NewUploadOk(size, userId, path, DiskAt(s'.disk, d));
      TaskForIdle(s.tasks, d);
      assert UploadInv(s', h', d);
    }
  }

  lemma RemovedItself(disk: map<Path, seq<Byte>>, d: Path)
    ensures d !in RemoveTree(disk, d)
  {}

  lemma ReceiveInv(s: Sys, h: Histories, d: Path, b: Blob)
    requires Inv(s, h) && Orderly(s, h, Receive(d, b))
    ensures Inv(Step(s, Receive(d, b)), Observe(h, s, Receive(d, b)))
  {
    hide UploadOk, TaskFor, TaskOn;
    if d in s.store.files {
      var s', h' := Step(s, Receive(d, b)), Observe(h, s, Receive(d, b));
      OthersKept(s, h, s', h', d);
      assert UploadInv(s, h, d);
      ReceiveOk(s.store.files[d], TaskFor(s.tasks, d), Past(h, d), DiskAt(s.disk, d), b);
      assert UploadInv(s', h', d);
    }
  }

  lemma DiskAtOthers(disk: map<Path, seq<Byte>>, disk': map<Path, seq<Byte>>, d: Path)
    requires disk - {d} == disk' - {d}
    ensures forall e :: e != d ==> DiskAt(disk', e) == DiskAt(disk, e)
  {
    forall e | e != d ensures DiskAt(disk', e) == DiskAt(disk, e) {
      assert e in disk' <==> e in disk' - {d};
      assert e in disk <==> e in disk - {d};
      if e in disk { assert (disk - {d})[e] == disk[e]; }
    }
  }

  /** After an upload's loop let go of it, the rested state satisfies the invariant. */
  lemma RestedInv(s: Sys, h: Histories, s': Sys, h': Histories, t: nat, d: Path, u: Upload)
    requires Inv(s, h) && t in s.tasks && s.tasks[t].dir == d && d in s.store.files
    requires s'.store == s.store.Put(d, u) && s'.tasks == s.tasks && s'.nextTask == s.nextTask
    requires s'.disk - {d} == s.disk - {d}
    requires forall e :: e != d ==> Past(h', e) == Past(h, e)
    requires UploadOk(u.(writting := false), None, Past(h', d), DiskAt(s'.disk, d))
    ensures Inv(Rested(s', t, d), h') && Idle(Rested(s', t, d), d)
  {
    hide UploadOk, TaskFor, TaskOn;
    var r := Rested(s', t, d);
    DiskAtOthers(s.disk, s'.disk, d);
    assert OneTaskPerFile(r.tasks);
    assert Idle(r, d);
    OthersKept(s, h, r, h', d);
    TaskForIdle(r.tasks, d);
    assert UploadInv(r, h', d);
  }

  /** The loop goes on from the rested state, or ends in it. */
  lemma LoopOnInv(s: Sys, h: Histories, s': Sys, h': Histories, t: nat, d: Path, u: Upload)
    requires Inv(s, h) && t in s.tasks && s.tasks[t].dir == d && d in s.store.files
    requires s'.store == s.store.Put(d, u) && s'.tasks == s.tasks && s'.nextTask == s.nextTask
    requires s'.disk - {d} == s.disk - {d}
    requires forall e :: e != d ==> Past(h', e) == Past(h, e)
    requires UploadOk(u.(writting := false), None, Past(h', d), DiskAt(s'.disk, d))
    requires u.blobs == [] ==> !u.writting
    ensures Inv(ContinueLoop(s', t, d), h')
  {
    hide UploadOk, TaskFor, TaskOn, UploadInv;
    RestedInv(s, h, s', h', t, d, u);
    ContinueInv(s', h', t, d);
    if u.blobs == [] {
      assert u.(writting := false) == u;
      assert s'.(tasks := s'.tasks - {t}) == Rested(s', t, d);
    }
  }

  /** A completed upload's task moves on to read the file information. */
  lemma CompletedInv(s: Sys, h: Histories, s': Sys, h': Histories, t: nat, d: Path, b: Blob, u: Upload)
    requires Inv(s, h) && t in s.tasks && s.tasks[t].dir == d && d in s.store.files
    requires s'.store == s.store.Put(d, u) && s'.nextTask == s.nextTask
    requires s'.tasks == s.tasks[t := Finalising(d, b)]
    requires s'.disk - {d} == s.disk - {d}
    requires forall e :: e != d ==> Past(h', e) == Past(h, e)
    requires UploadOk(u, Some(Finalising(d, b)), Past(h', d), DiskAt(s'.disk, d))
    ensures Inv(s', h')
  {
    hide UploadOk, TaskFor, TaskOn;
    DiskAtOthers(s.disk, s'.disk, d);
    OthersKept(s, h, s', h', d);
    TaskForIs(s'.tasks, t);
    assert UploadInv(s', h', d);
  }

  /** A loop whose upload is gone ends after its write, which concerns no upload. */
  lemma OrphanInv(s: Sys, h: Histories, s': Sys, t: nat, d: Path)
    requires Inv(s, h) && t in s.tasks && s.tasks[t].dir == d && d !in s.store.files
    requires s'.store == s.store && s'.tasks == s.tasks - {t} && s'.nextTask == s.nextTask
    requires s'.disk - {d} == s.disk - {d}
    ensures Inv(s', h)
  {
    hide UploadOk, TaskFor, TaskOn;
    DiskAtOthers(s.disk, s'.disk, d);
    OthersKept(s, h, s', h, d);
  }

  lemma WriteDoneInv(s: Sys, h: Histories, t: nat)
    requires Inv(s, h)
    ensures Inv(Step(s, WriteDone(t)), Observe(h, s, WriteDone(t)))
  {
    hide UploadOk, TaskFor, TaskOn, RecordWrite, WriteAt;
    if t in s.tasks && s.tasks[t].Writing? && s.tasks[t].blob.position >= 0 {
      var Writing(d, b) := s.tasks[t];
      if d !in s.store.files {
        OrphanInv(s, h, Step(s, WriteDone(t)), t, d);
      } else {
        WriteDoneOnUpload(s, h, t, d, b);
      }
    }
  }

  lemma WriteDoneOnUpload(s: Sys, h: Histories, t: nat, d: Path, b: Blob)
    requires Inv(s, h) && t in s.tasks && s.tasks[t] == Writing(d, b) && b.position >= 0 && d in s.store.files
    ensures Inv(AfterWrite(s, t, d, b), Observe(h, s, WriteDone(t)))
  {
    hide UploadOk, TaskFor, TaskOn, RecordWrite, WriteAt;
    var h' := Observe(h, s, WriteDone(t));
    var u := RecordWrite(s.store.files[d], b);
    var s2 := s.(disk := s.disk[d := WriteAt(Content(s.disk, d), b.position, b.bytes)], store := s.store.Put(d, u));
    TaskForIs(s.tasks, t);
    assert UploadInv(s, h, d);
    LandOk(s.store.files[d], d, b, Past(h, d), DiskAt(s.disk, d));
    assert Bytes(DiskAt(s.disk, d)) == Content(s.disk, d);
    if u.completed {
      CompletedInv(s, h, s2.(tasks := s.tasks[t := Finalising(d, b)]), h', t, d, b, u);
    } else {
      RecordedFields(s.store.files[d], b);
      assert u.(writting := false) == u;
      LoopOnInv(s, h, s2, h', t, d, u);
    }
  }

  lemma WriteFailInv(s: Sys, h: Histories, t: nat, touched: bool, landed: nat)
    requires Inv(s, h)
    ensures Inv(Step(s, WriteFail(t, touched, landed)), Observe(h, s, WriteFail(t, touched, landed)))
  {
    hide UploadOk, TaskFor, TaskOn, WriteAt;
    if t in s.tasks && s.tasks[t].Writing? && landed <= |s.tasks[t].blob.bytes|
       && (touched ==> s.tasks[t].blob.position >= 0)
    {
      var Writing(d, b) := s.tasks[t];
      if d !in s.store.files {
        OrphanInv(s, h, Step(s, WriteFail(t, touched, landed)), t, d);
      } else {
        var h' := Observe(h, s, WriteFail(t, touched, landed));
        var u := Allocate(s.store.files[d], b);
        var disk := if touched then s.disk[d := WriteAt(Content(s.disk, d), b.position, b.bytes[..landed])] else s.disk;
        TaskForIs(s.tasks, t);
        assert UploadInv(s, h, d);
        RequeueOk(s.store.files[d], d, b, Past(h, d), DiskAt(s.disk, d), touched, landed);
        assert Bytes(DiskAt(s.disk, d)) == Content(s.disk, d);
        LoopOnInv(s, h, s.(disk := disk, store := s.store.Put(d, u)), h', t, d, u);
      }
    }
  }

  lemma FinaliseFailInv(s: Sys, h: Histories, t: nat)
    requires Inv(s, h)
    ensures Inv(Step(s, FinaliseFail(t)), Observe(h, s, FinaliseFail(t)))
  {
    hide UploadOk, TaskFor, TaskOn;
    if t in s.tasks && s.tasks[t].Finalising? {
      var Finalising(d, b) := s.tasks[t];
      if d !in s.store.files {
        OrphanInv(s, h, Step(s, FinaliseFail(t)), t, d);
      } else {
        var u := Allocate(s.store.files[d], b);
        TaskForIs(s.tasks, t);
        assert UploadInv(s, h, d);
        RedoOk(s.store.files[d], d, b, Past(h, d), DiskAt(s.disk, d));
        LoopOnInv(s, h, s.(store := s.store.Put(d, u)), Observe(h, s, FinaliseFail(t)), t, d, u);
      }
    }
  }

  /** An upload leaves the store; a loop may still be suspended on its path. */
  lemma DropInv(s: Sys, h: Histories, s': Sys, d: Path)
    requires Inv(s, h) && OneTaskPerFile(s'.tasks) && s'.nextTask == s.nextTask
    requires s'.store == s.store.DelFile(d) || (d !in s.store.files && s'.store == s.store)
    requires forall t :: t in s'.tasks ==> t in s.tasks && s'.tasks[t] == s.tasks[t]
    requires forall t :: t in s.tasks && s.tasks[t].dir != d ==> t in s'.tasks
    requires forall e :: e in s.store.files && e != d ==>
               DiskAt(s'.disk, e) == DiskAt(s.disk, e)
               || (DiskAt(s'.disk, e) == None && s.store.files[e].bytesWritten == [])
    ensures Inv(s', h)
  {
    hide UploadOk, TaskFor, TaskOn;
    WithoutNoDup(s.store.dirs, d);
    OthersKept(s, h, s', h, d);
  }

  lemma DeleteInv(s: Sys, h: Histories, d: Path)
    requires Inv(s, h) && NothingWrittenInside(s, d)
    ensures Inv(Step(s, Delete(d)), h)
  {
    hide UploadOk, TaskFor, TaskOn, RemoveTree;
    forall e | e in s.store.files && e != d
      ensures DiskAt(RemoveTree(s.disk, d), e) == if d + "/" <= e then None else DiskAt(s.disk, e)
    {
      RemoveTreeOthers(s.disk, d, e);
    }
    DropInv(s, h, Step(s, Delete(d)), d);
  }

  /** Removing a folder keeps the invariant of all uploads if and only if none has written anything inside it. */
  lemma DeleteInvIff(s: Sys, h: Histories, d: Path)
    requires Inv(s, h)
    ensures Inv(Step(s, Delete(d)), h) <==> NothingWrittenInside(s, d)
  {
    hide UploadOk, TaskFor, TaskOn, RemoveTree;
    if NothingWrittenInside(s, d) {
      DeleteInv(s, h, d);
    } else {
      var e :| e in s.store.files && s.store.files[e].bytesWritten != [] && d + "/" <= e;
      assert |d| < |e|;
      RemoveTreeOthers(s.disk, d, e);
      assert UploadInv(s, h, e);
      UnwrittenOk(s.store.files[e], TaskFor(s.tasks, e), Past(h, e), DiskAt(s.disk, e));
      var s' := Step(s, Delete(d));
      assert e in s'.store.files && s'.store.files[e] == s.store.files[e] && s'.tasks == s.tasks;
      assert !UploadInv(s', h, e);
    }
  }

  lemma StepInv(s: Sys, h: Histories, e: Event)
    requires Inv(s, h) && Orderly(s, h, e)
    ensures Inv(Step(s, e), Observe(h, s, e))
  {
    hide UploadOk, TaskFor, TaskOn, StartWriter, AfterWrite, AfterError, Reservation, RemoveTree;
    match e
    case Init(d, size, userId, path, overwrite) => InitInv(s, h, d, size, userId, path, overwrite);
    case Receive(d, b) => ReceiveInv(s, h, d, b);
    case Tick => TickInv(s, h, s.store.dirs);
    case WriteDone(t) => WriteDoneInv(s, h, t);
    case WriteFail(t, touched, landed) => WriteFailInv(s, h, t, touched, landed);
    case Finalise(t) =>
      if t in s.tasks && s.tasks[t].Finalising? { DropInv(s, h, Step(s, e), s.tasks[t].dir); }
    case FinaliseFail(t) => FinaliseFailInv(s, h, t);
    case Delete(d) => DeleteInv(s, h, d);
    case Recount(_) => OthersKept(s, h, Step(s, e), h, "");
      if "" in s.store.files { assert UploadInv(s, h, ""); }
  }
}
