/**
 * The space quota over runs of the upload machine. Admission (src/files/guards/space.guard.ts) adds the last
 * measured use, the declared sizes of the uploads in progress and the new size. The measured use may count partly
 * written files a second time, and it may miss what was finished since, or what landed after its upload was deleted:
 * what that costs, in every run, is the subject of this module.
 */
module Quota {
  import opened Seqs
  import opened TempStorage
  import opened UploadMachine
  import opened UploadCoverage
  import opened UploadSafety
  import opened UploadRuns
  import opened UploadTheorems

  /** Bytes of all files on a disk. */
  ghost function DiskBytes(disk: map<Path, seq<Byte>>): nat {
    if disk == map[] then 0
    else
      var d :| d in disk;
      |disk[d]| + DiskBytes(disk - {d})
  }

  /** The order in which files are added up does not matter. */
  lemma {:induction false} DiskBytesSplit(disk: map<Path, seq<Byte>>, d: Path)
    requires d in disk
    ensures DiskBytes(disk) == |disk[d]| + DiskBytes(disk - {d})
    decreases |disk|
  {
    var e :| e in disk && DiskBytes(disk) == |disk[e]| + DiskBytes(disk - {e});
    if e != d {
      DiskBytesSplit(disk - {e}, d);
      DiskBytesSplit(disk - {d}, e);
      assert disk - {e} - {d} == disk - {d} - {e};
    }
  }

  lemma {:induction false} DiskBytesMonotone(disk: map<Path, seq<Byte>>, ds: set<Path>)
    ensures DiskBytes(disk - ds) <= DiskBytes(disk)
    decreases |disk|
  {
    hide DiskBytes;
    if d :| d in disk && d in ds {
      DiskBytesSplit(disk, d);
      DiskBytesMonotone(disk - {d}, ds);
      assert disk - {d} - ds == disk - ds;
    } else {
      assert disk - ds == disk;
    }
  }

  /** Files on disk that no upload is still writing. */
  ghost function Finished(s: Sys): map<Path, seq<Byte>> {
    s.disk - s.store.files.Keys
  }

  /** What the dedicated space has been promised to: the finished files and the uploads in progress. */
  ghost function Promised(s: Sys): int {
    DiskBytes(Finished(s)) + s.store.SpaceToUse()
  }

  // ----- What each step does to the accounts -----

  predicate Admits(s: Sys, e: Event) {
    e.Init? && VerdictOf(s, e.dir, e.size, e.overwrite) == Created
  }

  /** The finished files that are left when `d` is initialised: what `d` names is removed. */
  ghost function Remaining(s: Sys, d: Path): map<Path, seq<Byte>> {
    Finished(s) - (Below(s.disk, d) + {d})
  }

  function Growth(content: seq<Byte>, position: nat, bytes: seq<Byte>): nat {
    |WriteAt(content, position, bytes)| - |content|
  }

  /** The bytes that a write adds to a path whose upload is gone. */
  function Stray(s: Sys, e: Event): nat {
    match e
    case WriteDone(t) =>
      if t in s.tasks && s.tasks[t].Writing? && s.tasks[t].blob.position >= 0 && s.tasks[t].dir !in s.store.files
      then Growth(Content(s.disk, s.tasks[t].dir), s.tasks[t].blob.position, s.tasks[t].blob.bytes) else 0
    case WriteFail(t, touched, landed) =>
      if t in s.tasks && s.tasks[t].Writing? && landed <= |s.tasks[t].blob.bytes| && touched
         && s.tasks[t].blob.position >= 0 && s.tasks[t].dir !in s.store.files
      then Growth(Content(s.disk, s.tasks[t].dir), s.tasks[t].blob.position, s.tasks[t].blob.bytes[..landed]) else 0
    case _ => 0
  }

  /** The bytes that join the finished files: stray ones, or those of an upload that leaves the store. */
  function Joining(s: Sys, e: Event): nat {
    if e.Finalise? && e.task in s.tasks && s.tasks[e.task].Finalising? && s.tasks[e.task].dir in s.store.files
    then |Content(s.disk, s.tasks[e.task].dir)| else Stray(s, e)
  }

  /**
   * Only two kinds of steps can promise more than before: an admission, which then promises what remains finished
   * and all declared sizes, and a stray write, which adds its bytes.
   */
  ghost predicate Accounts(s: Sys, e: Event, s': Sys) {
    && s'.total == s.total && s'.used == (if e.Recount? then e.measured else s.used)
    && DiskBytes(Finished(s')) <= DiskBytes(Finished(s)) + Joining(s, e)
    && (Stray(s, e) > 0 ==> Promised(s') == Promised(s) + Stray(s, e))
    && if Admits(s, e) then Promised(s') == DiskBytes(Remaining(s, e.dir)) + s.store.SpaceToUse() + e.size
       else Promised(s') <= Promised(s) + Stray(s, e)
  }

  lemma InitFinished(disk: map<Path, seq<Byte>>, live: set<Path>, d: Path, size: nat, reserve: bool)
    ensures Reservation(RemoveTree(disk, d), d, size, reserve) - (live + {d})
         == disk - live - (Below(disk, d) + {d})
  {}

  lemma CreateSpace(st: Store, d: Path, size: nat, userId: string, path: Path)
    requires st.Consistent() && d !in st.files
    ensures st.CreateFileTemp(d, size, userId, path).SpaceToUse() == st.SpaceToUse() + size
  {
    var st' := st.CreateFileTemp(d, size, userId, path);
    assert st'.dirs[..|st.dirs|] == st.dirs;
    SumFrame(st.dirs, st.files, st'.files, DeclaredSize);
  }

  /** An admission promises the declared size on top of what remains. */
  lemma InitAccounts(s: Sys, e: Event)
    requires s.store.Consistent() && Admits(s, e)
    ensures Accounts(s, e, Step(s, e)) && Finished(Step(s, e)) == Remaining(s, e.dir)
  {
    hide DiskBytes, Reservation, SumOver, RemoveTree, Present, Below;
    var Init(d, size, userId, path, overwrite) := e;
    CreateSpace(s.store, d, size, userId, path);
    InitFinished(s.disk, s.store.files.Keys, d, size, s.reserve);
    assert Step(s, e).store.files.Keys == s.store.files.Keys + {d};
    DiskBytesMonotone(Finished(s), Below(s.disk, d) + {d});
  }

  lemma SpacePut(st: Store, d: Path, u: Upload)
    requires st.Consistent() && d in st.files && u.size == st.files[d].size
    ensures st.Put(d, u).SpaceToUse() == st.SpaceToUse() && st.Put(d, u).files.Keys == st.files.Keys
    ensures st.Put(d, u).Consistent()
  {
    SumUpdate(st.dirs, st.files, DeclaredSize, d, u);
  }

  /** The write loop changes neither which files are in progress nor their declared sizes. */
  ghost predicate SameUploads(s: Sys, s': Sys) {
    && s'.store.Consistent() && s'.store.files.Keys == s.store.files.Keys
    && s'.store.SpaceToUse() == s.store.SpaceToUse()
    && s'.used == s.used && s'.total == s.total
    && (WritersListed(s) ==> WritersListed(s'))
  }

  lemma ContinueSame(s: Sys, t: nat, d: Path)
    requires s.store.Consistent()
    ensures SameUploads(s, ContinueLoop(s, t, d)) && ContinueLoop(s, t, d).disk == s.disk
  {
    if d in s.store.files && s.store.files[d].blobs != [] {
      SpacePut(s.store, d, Deallocate(s.store.files[d].(writting := true)));
    }
  }

  lemma {:induction false} TickSame(s: Sys, dirs: seq<Path>)
    requires s.store.Consistent()
    ensures SameUploads(s, TickOver(s, dirs)) && TickOver(s, dirs).disk == s.disk
  {
    if dirs != [] {
      TickSame(s, dirs[..|dirs| - 1]);
      var m, d := TickOver(s, dirs[..|dirs| - 1]), dirs[|dirs| - 1];
      ContinueSame(m, m.nextTask, d);
    }
  }

  /** A resumed loop changes the content and the record of its own upload at most. */
  lemma LoopSame(s: Sys, d: Path, content: seq<Byte>, u: Upload, touched: bool, t: nat)
    requires s.store.Consistent() && d in s.store.files && u.size == s.store.files[d].size
    ensures
      var s2 := s.(disk := if touched then s.disk[d := content] else s.disk, store := s.store.Put(d, u));
      && SameUploads(s, s2) && Finished(s2) == Finished(s)
      && SameUploads(s, ContinueLoop(s2, t, d)) && Finished(ContinueLoop(s2, t, d)) == Finished(s)
  {
    hide SumOver;
    var s2 := s.(disk := if touched then s.disk[d := content] else s.disk, store := s.store.Put(d, u));
    SpacePut(s.store, d, u);
    assert Finished(s2) == Finished(s);
    ContinueSame(s2, t, d);
    assert Finished(ContinueLoop(s2, t, d)) == Finished(s2);
  }

  lemma WriteDoneSame(s: Sys, t: nat)
    requires s.store.Consistent() && t in s.tasks && s.tasks[t].Writing? && s.tasks[t].blob.position >= 0
    requires s.tasks[t].dir in s.store.files
    ensures SameUploads(s, Step(s, WriteDone(t))) && Finished(Step(s, WriteDone(t))) == Finished(s)
  {
    hide WriteAt, ContinueLoop, SumOver, RecordWrite;
    var Writing(d, b) := s.tasks[t];
    var u, content := RecordWrite(s.store.files[d], b), WriteAt(Content(s.disk, d), b.position, b.bytes);
    RecordedFields(s.store.files[d], b);
    LoopSame(s, d, content, u, true, t);
    var s2 := s.(disk := s.disk[d := content], store := s.store.Put(d, u));
    var s3 := s2.(tasks := s.tasks[t := Finalising(d, b)]);
    assert Finished(s3) == Finished(s2);
    assert WritersListed(s2) ==> WritersListed(s3);
  }

  lemma WriteFailSame(s: Sys, t: nat, touched: bool, landed: nat)
    requires s.store.Consistent() && t in s.tasks && s.tasks[t].Writing? && s.tasks[t].dir in s.store.files
    ensures var s' := Step(s, WriteFail(t, touched, landed)); SameUploads(s, s') && Finished(s') == Finished(s)
  {
    hide WriteAt, ContinueLoop, SumOver;
    if landed <= |s.tasks[t].blob.bytes| && (touched ==> s.tasks[t].blob.position >= 0) {
      var Writing(d, b) := s.tasks[t];
      var content := if touched then WriteAt(Content(s.disk, d), b.position, b.bytes[..landed]) else [];
      LoopSame(s, d, content, Allocate(s.store.files[d], b), touched, t);
    }
  }

  lemma FitsDeclared(s: Sys, h: Histories, d: Path)
    requires Inv(s, h) && d in s.store.files
    ensures d in s.disk ==> |s.disk[d]| <= s.store.files[d].size
  {
    assert UploadInv(s, h, d);
  }

  /** A finished upload's reservation is at least what it left on disk. */
  lemma FinaliseAccounts(s: Sys, h: Histories, t: nat)
    requires Inv(s, h) && t in s.tasks && s.tasks[t].Finalising?
    ensures Accounts(s, Finalise(t), Step(s, Finalise(t)))
  {
    hide DiskBytes, UploadInv, SumOver, AfterWrite, AfterError, TickOver, RemoveTree, Reservation, VerdictOf, NoDup,
         OneTaskPerFile;
    var d := s.tasks[t].dir;
    var s' := Step(s, Finalise(t));
    if d in s.store.files {
      FitsDeclared(s, h, d);
      hide Inv;
      LeavesStore(s, d);
      assert Finished(s') == Finished(s.(store := s.store.DelFile(d)));
    } else {
      WithoutAbsent(s.store.dirs, d);
      assert s'.store == s.store;
      assert Finished(s') == Finished(s);
    }
  }

  /** When an upload leaves the store its declared size is released, and its file joins the finished ones. */
  lemma LeavesStore(s: Sys, d: Path)
    requires s.store.Consistent() && d in s.store.files
    ensures var s' := s.(store := s.store.DelFile(d));
      && s'.store.Consistent()
      && s'.store.SpaceToUse() == s.store.SpaceToUse() - s.store.files[d].size
      && DiskBytes(Finished(s')) == DiskBytes(Finished(s)) + |Content(s.disk, d)|
  {
    hide DiskBytes, SumOver;
    SumRemove(s.store.dirs, s.store.files, DeclaredSize, d);
    WithoutNoDup(s.store.dirs, d);
    ReleaseOne(s.disk, s.store.files.Keys, d);
    assert s.store.DelFile(d).files.Keys == s.store.files.Keys - {d};
  }

  lemma ReleaseOne(disk: map<Path, seq<Byte>>, live: set<Path>, d: Path)
    requires d in live
    ensures DiskBytes(disk - (live - {d})) == DiskBytes(disk - live) + |Content(disk, d)|
  {
    hide DiskBytes;
    var after := disk - (live - {d});
    if d in disk {
      DiskBytesSplit(after, d);
      assert after - {d} == disk - live;
    } else {
      assert after == disk - live;
    }
  }

  lemma DeleteAccounts(s: Sys, d: Path)
    requires s.store.Consistent()
    ensures
      var s' := Step(s, Delete(d));
      && Accounts(s, Delete(d), s') && Finished(s') == Finished(s) - Below(s.disk, d)
      && s'.store.SpaceToUse() == s.store.SpaceToUse() - if d in s.store.files then s.store.files[d].size else 0
  {
    hide DiskBytes, SumOver;
    var s' := Step(s, Delete(d));
    DiskBytesMonotone(Finished(s), Below(s.disk, d));
    assert Finished(s') == Finished(s) - Below(s.disk, d);
    if d in s.store.files {
      SumRemove(s.store.dirs, s.store.files, DeclaredSize, d);
    }
  }

  /** New content at a path without an upload is new finished content. */
  lemma StrayFinished(s: Sys, d: Path, content: seq<Byte>)
    requires d !in s.store.files
    ensures
      DiskBytes(Finished(s.(disk := s.disk[d := content])))
        == DiskBytes(Finished(s)) - |Content(s.disk, d)| + |content|
  {
    hide DiskBytes;
    var f, f' := Finished(s), Finished(s.(disk := s.disk[d := content]));
    DiskBytesSplit(f', d);
    assert f' - {d} == f - {d};
    if d in s.disk {
      DiskBytesSplit(f, d);
    } else {
      assert f - {d} == f;
    }
  }

  lemma StrayAccounts(s: Sys, e: Event)
    requires e.WriteDone? || e.WriteFail?
    requires e.task in s.tasks && s.tasks[e.task].Writing? && s.tasks[e.task].dir !in s.store.files
    ensures Accounts(s, e, Step(s, e)) && Promised(Step(s, e)) == Promised(s) + Stray(s, e)
  {
    hide DiskBytes, WriteAt, SumOver;
    var Writing(d, b) := s.tasks[e.task];
    var s' := Step(s, e);
    assert Finished(s.(tasks := s.tasks - {e.task})) == Finished(s);
    if b.position >= 0 {
      var bytes := if e.WriteFail? && e.landed <= |b.bytes| then b.bytes[..e.landed] else b.bytes;
      var content := WriteAt(Content(s.disk, d), b.position, bytes);
      StrayFinished(s, d, content);
      var s2 := s.(disk := s.disk[d := content]);
      assert Finished(s2.(tasks := s.tasks - {e.task})) == Finished(s2);
    }
  }

  lemma SameAccounts(s: Sys, e: Event, s': Sys)
    requires SameUploads(s, s') && Finished(s') == Finished(s) && Stray(s, e) == 0 && !e.Init? && !e.Recount?
    ensures Accounts(s, e, s')
  {
    hide DiskBytes, SumOver, Joining, Stray;
  }

  lemma StepAccounts(s: Sys, h: Histories, e: Event)
    requires Inv(s, h)
    ensures Accounts(s, e, Step(s, e))
  {
    hide UploadInv, WriteAt, StartWriter, DiskBytes, ContinueLoop, SumOver, RecordWrite, RemoveTree, Joining, Accounts;
    var s' := Step(s, e);
    match e
    case Init(d, size, userId, path, overwrite) =>
      if Admits(s, e) { InitAccounts(s, e); } else { NoAccounts(s, e); }
    case Receive(d, b) =>
      if d in s.store.files {
        SpacePut(s.store, d, Allocate(s.store.files[d], b));
        assert Finished(s') == Finished(s);
        SameAccounts(s, e, s');
      } else {
        NoAccounts(s, e);
      }
    case Tick =>
      TickSame(s, s.store.dirs);
      assert Finished(s') == Finished(s);
      SameAccounts(s, e, s');
    case WriteDone(t) => WriteAccounts(s, e);
    case WriteFail(t, touched, landed) => WriteAccounts(s, e);
    case Finalise(t) =>
      if t in s.tasks && s.tasks[t].Finalising? { FinaliseAccounts(s, h, t); } else { NoAccounts(s, e); }
    case FinaliseFail(t) => FinaliseFailAccounts(s, t);
    case Delete(d) => DeleteAccounts(s, d);
    case Recount(measured) => RecountAccounts(s, measured);
  }

  lemma NoAccounts(s: Sys, e: Event)
    requires Step(s, e) == s && !Admits(s, e) && !e.Recount? && Stray(s, e) == 0
    ensures Accounts(s, e, Step(s, e))
  {}

  lemma WriteAccounts(s: Sys, e: Event)
    requires s.store.Consistent() && (e.WriteDone? || e.WriteFail?)
    ensures Accounts(s, e, Step(s, e))
  {
    hide WriteAt, DiskBytes, ContinueLoop, SumOver, RecordWrite, Accounts, AfterWrite, AfterError, Growth;
    if e.task !in s.tasks || !s.tasks[e.task].Writing? {
      NoAccounts(s, e);
    } else if s.tasks[e.task].dir !in s.store.files {
      StrayAccounts(s, e);
    } else if e.WriteFail? {
      WriteFailSame(s, e.task, e.touched, e.landed);
      SameAccounts(s, e, Step(s, e));
    } else if s.tasks[e.task].blob.position >= 0 {
      WriteDoneSame(s, e.task);
      SameAccounts(s, e, Step(s, e));
    } else {
      NoAccounts(s, e);
    }
  }

  lemma FinaliseFailAccounts(s: Sys, t: nat)
    requires s.store.Consistent()
    ensures Accounts(s, FinaliseFail(t), Step(s, FinaliseFail(t)))
  {
    hide DiskBytes, ContinueLoop, SumOver, Accounts;
    var e := FinaliseFail(t);
    if t in s.tasks && s.tasks[t].Finalising? {
      var Finalising(d, b) := s.tasks[t];
      if d in s.store.files {
        LoopSame(s, d, [], Allocate(s.store.files[d], b), false, t);
      } else {
        assert Finished(Step(s, e)) == Finished(s);
      }
      SameAccounts(s, e, Step(s, e));
    } else {
      NoAccounts(s, e);
    }
  }

  lemma RecountAccounts(s: Sys, measured: int)
    ensures Accounts(s, Recount(measured), Step(s, Recount(measured)))
    ensures Finished(Step(s, Recount(measured))) == Finished(s)
  {
    assert Finished(Step(s, Recount(measured))) == Finished(s);
  }

  // ----- The debt of a run -----

  /**
   * By how much the finished files may exceed the measured use, and what is promised the total; below zero it is
   * what is left.
   */
  datatype Debt = Debt(unmeasured: int, over: int)

  ghost predicate Covers(debt: Debt, s: Sys) {
    && DiskBytes(Finished(s)) <= s.used + debt.unmeasured
    && Promised(s) <= s.total + debt.over
  }

  /**
   * An admission promises at most as much too much as has not been measured; bytes that join the finished files
   * have not been measured; stray bytes were not promised either; a measurement settles what it counts.
   */
  ghost function DebtAfter(s: Sys, debt: Debt, e: Event): Debt {
    if Admits(s, e) then Debt(debt.unmeasured, debt.unmeasured)
    else if e.Recount? then Debt(DiskBytes(Finished(s)) - e.measured, debt.over)
    else Debt(debt.unmeasured + Joining(s, e), debt.over + Stray(s, e))
  }

  lemma StepDebt(s: Sys, h: Histories, debt: Debt, e: Event)
    requires Inv(s, h) && Covers(debt, s)
    ensures Covers(DebtAfter(s, debt, e), Step(s, e))
  {
    StepAccounts(s, h, e);
    hide DiskBytes, SumOver, Inv, Joining, Stray, Step;
    if Admits(s, e) {
      DiskBytesMonotone(Finished(s), Below(s.disk, e.dir) + {e.dir});
      AdmittedFits(s, e);
      InitAccounts(s, e) by { InvConsistent(s, h); }
    } else if e.Recount? {
      RecountAccounts(s, e.measured);
    }
  }

  lemma InvConsistent(s: Sys, h: Histories)
    requires Inv(s, h)
    ensures s.store.Consistent()
  {}

  lemma AdmittedFits(s: Sys, e: Event)
    requires Admits(s, e)
    ensures s.used + e.size + s.store.SpaceToUse() <= s.total
  {}

  ghost function RunDebt(w: Watch, debt: Debt, es: seq<Event>): Debt
    decreases es
  {
    if es == [] then debt else RunDebt(Advance(w, es[0]), DebtAfter(w.sys, debt, es[0]), es[1..])
  }

  lemma {:induction false} RunCovered(w: Watch, debt: Debt, es: seq<Event>)
    requires Inv(w.sys, w.seen) && OrderlyRun(w, es) && Covers(debt, w.sys)
    ensures Covers(RunDebt(w, debt, es), Run(w, es).sys)
    decreases es
  {
    hide Inv, Orderly, Observe, Step, Covers, DebtAfter;
    if es != [] {
      StepInv(w.sys, w.seen, es[0]);
      StepDebt(w.sys, w.seen, debt, es[0]);
      RunCovered(Advance(w, es[0]), DebtAfter(w.sys, debt, es[0]), es[1..]);
    }
  }

  lemma {:induction false} RunKeepsTotal(w: Watch, es: seq<Event>)
    ensures Run(w, es).sys.total == w.sys.total
    decreases es
  {
    if es != [] {
      StepKeepsLimit(w.sys, es[0]);
      RunKeepsTotal(Advance(w, es[0]), es[1..]);
    }
  }

  ghost function OpeningDebt(s: Sys): Debt {
    Debt(DiskBytes(s.disk) - s.used, DiskBytes(s.disk) - s.total)
  }

  /**
   * In every orderly run, whatever is admitted, deleted, finished and measured when, the debt that the run has
   * accumulated bounds what is promised, what is on disk, and what the measured use misses.
   */
  lemma DebtBoundsQuota(w: Watch, es: seq<Event>)
    requires Start(w) && OrderlyRun(w, es)
    ensures
      var end, debt := Run(w, es).sys, RunDebt(w, OpeningDebt(w.sys), es);
      && Promised(end) <= w.sys.total + debt.over
      && DiskBytes(end.disk) <= w.sys.total + debt.over
      && DiskBytes(Finished(end)) <= end.used + debt.unmeasured
  {
    hide DiskBytes, OrderlyRun, Run, RunDebt, Inv;
    StartInv(w);
    StartCovered(w);
    RunCovered(w, OpeningDebt(w.sys), es);
    RunInv(w, es);
    RunKeepsTotal(w, es);
    DiskWithinPromise(Run(w, es).sys, Run(w, es).seen);
  }

  lemma StartCovered(w: Watch)
    requires Start(w)
    ensures Finished(w.sys) == w.sys.disk && Promised(w.sys) == DiskBytes(w.sys.disk)
    ensures Covers(OpeningDebt(w.sys), w.sys)
  {
    hide DiskBytes;
    assert Finished(w.sys) == w.sys.disk;
  }

  /** The bytes on disk are part of what has been promised. */
  lemma DiskWithinPromise(s: Sys, h: Histories)
    requires Inv(s, h)
    ensures DiskBytes(s.disk) <= Promised(s)
  {
    hide DiskBytes, UploadInv, OneTaskPerFile;
    forall d | d in s.store.files && d in s.disk ensures |s.disk[d]| <= s.store.files[d].size {
      FitsDeclared(s, h, d);
    }
    PartialFilesFit(s.disk, s.store.files, s.store.dirs);
    assert s.disk - Listed(s.store.dirs) == Finished(s);
  }

  ghost function Listed(dirs: seq<Path>): set<Path> {
    set d | d in dirs
  }

  /** Partly written files take no more than their declared sizes. */
  lemma {:induction false} PartialFilesFit(disk: map<Path, seq<Byte>>, files: map<Path, Upload>, dirs: seq<Path>)
    requires NoDup(dirs) && forall d :: d in dirs ==> d in files
    requires forall d :: d in files && d in disk ==> |disk[d]| <= files[d].size
    ensures DiskBytes(disk) <= DiskBytes(disk - Listed(dirs)) + SumOver(dirs, files, DeclaredSize)
  {
    hide DiskBytes;
    if dirs == [] {
      assert disk - Listed(dirs) == disk;
    } else {
      var front, d := dirs[..|dirs| - 1], dirs[|dirs| - 1];
      assert dirs == front + [d];
      PartialFilesFit(disk, files, front);
      var rest := disk - Listed(front);
      assert rest - {d} == disk - Listed(dirs);
      assert d !in front;
      if d in disk {
        DiskBytesSplit(rest, d);
      } else {
        assert rest - {d} == rest;
      }
    }
  }

  // ----- Exactly when the quota holds -----

  /** An admission that the true figure would have allowed too, or a stray write into room that is left. */
  ghost predicate Fits(s: Sys, e: Event) {
    && (Admits(s, e) ==> DiskBytes(Remaining(s, e.dir)) + e.size + s.store.SpaceToUse() <= s.total)
    && (Stray(s, e) > 0 ==> Promised(s) + Stray(s, e) <= s.total)
  }

  ghost predicate FittingRun(w: Watch, es: seq<Event>)
    decreases es
  {
    es == [] || (Fits(w.sys, es[0]) && FittingRun(Advance(w, es[0]), es[1..]))
  }

  /** Nothing beyond the total is promised at any moment of the run. */
  ghost predicate AlwaysWithin(w: Watch, es: seq<Event>)
    decreases es
  {
    Promised(w.sys) <= w.sys.total && (es == [] || AlwaysWithin(Advance(w, es[0]), es[1..]))
  }

  lemma StepWithinIff(s: Sys, h: Histories, e: Event)
    requires Inv(s, h) && Promised(s) <= s.total
    ensures Promised(Step(s, e)) <= Step(s, e).total <==> Fits(s, e)
  {
    StepAccounts(s, h, e);
    hide DiskBytes, SumOver, Inv, Stray, Step, Joining, Remaining;
    if Admits(s, e) { NoStray(s, e); }
  }

  lemma NoStray(s: Sys, e: Event)
    requires e.Init?
    ensures Stray(s, e) == 0
  {}

  lemma {:induction false} RunWithinIff(w: Watch, es: seq<Event>)
    requires Inv(w.sys, w.seen) && OrderlyRun(w, es)
    ensures AlwaysWithin(w, es) <==> Promised(w.sys) <= w.sys.total && FittingRun(w, es)
    decreases es
  {
    hide Inv, Orderly, Observe, Step, Fits, Promised;
    if es != [] {
      StepInv(w.sys, w.seen, es[0]);
      RunWithinIff(Advance(w, es[0]), es[1..]);
      if Promised(w.sys) <= w.sys.total { StepWithinIff(w.sys, w.seen, es[0]); }
    }
  }

  /**
   * An orderly run keeps to the dedicated space throughout if and only if it starts within it, each admission is one
   * that the true size of the finished files would have allowed in place of the measured one, and each chunk that
   * lands after its upload was deleted finds room.
   */
  lemma QuotaHoldsIff(w: Watch, es: seq<Event>)
    requires Start(w) && OrderlyRun(w, es)
    ensures AlwaysWithin(w, es) <==> DiskBytes(w.sys.disk) <= w.sys.total && FittingRun(w, es)
  {
    hide DiskBytes, OrderlyRun, Inv, AlwaysWithin, FittingRun;
    StartInv(w);
    StartCovered(w);
    RunWithinIff(w, es);
  }

  // ----- A discipline that owes nothing -----

  /** No chunk can land on a path whose upload is gone. */
  ghost predicate WritersListed(s: Sys) {
    forall t :: t in s.tasks && s.tasks[t].Writing? ==> s.tasks[t].dir in s.store.files
  }

  /** Whether a measurement has arrived since an upload last joined the finished files. */
  function Settled(s: Sys, e: Event, settled: bool): bool {
    match e
    case Finalise(t) => settled && t !in s.tasks
    case Recount(_) => true
    case _ => settled
  }

  /**
   * A measurement counts every finished file, an upload is admitted only once the last finished one has been
   * measured, and none is deleted while one of its chunks is being written.
   */
  ghost predicate Thrifty(s: Sys, settled: bool, e: Event) {
    match e
    case Init(d, size, _, _, overwrite) => VerdictOf(s, d, size, overwrite) == Created ==> settled
    case Delete(d) => forall t :: t in s.tasks && s.tasks[t].Writing? ==> s.tasks[t].dir != d
    case Recount(measured) => measured >= DiskBytes(Finished(s))
    case _ => true
  }

  ghost predicate ThriftyRun(w: Watch, settled: bool, es: seq<Event>)
    decreases es
  {
    es == []
    || (Thrifty(w.sys, settled, es[0])
        && ThriftyRun(Advance(w, es[0]), Settled(w.sys, es[0], settled), es[1..]))
  }

  lemma StepKeepsWriters(s: Sys, h: Histories, settled: bool, e: Event)
    requires Inv(s, h) && WritersListed(s) && Thrifty(s, settled, e)
    ensures WritersListed(Step(s, e))
  {
    hide UploadInv, WriteAt, StartWriter, DiskBytes, ContinueLoop, SumOver, RecordWrite, RemoveTree, AfterWrite,
         VerdictOf;
    match e
    case Tick => TickSame(s, s.store.dirs);
    case WriteDone(t) =>
      if t in s.tasks && s.tasks[t].Writing? && s.tasks[t].blob.position >= 0 { WriteDoneSame(s, t); }
    case WriteFail(t, touched, landed) =>
      if t in s.tasks && s.tasks[t].Writing? { WriteFailSame(s, t, touched, landed); }
    case FinaliseFail(t) =>
      if t in s.tasks && s.tasks[t].Finalising? && s.tasks[t].dir in s.store.files {
        var Finalising(d, b) := s.tasks[t];
        LoopSame(s, d, [], Allocate(s.store.files[d], b), false, t);
      }
    case _ =>
  }

  predicate Clear(debt: Debt, settled: bool) {
    debt.over <= 0 && (settled ==> debt.unmeasured <= 0)
  }

  lemma StepKeepsClear(s: Sys, settled: bool, debt: Debt, e: Event)
    requires WritersListed(s) && Thrifty(s, settled, e) && Clear(debt, settled)
    ensures Clear(DebtAfter(s, debt, e), Settled(s, e, settled))
  {
    hide DiskBytes, Growth;
  }

  lemma {:induction false} ThriftyOwesNothing(w: Watch, settled: bool, debt: Debt, es: seq<Event>)
    requires Inv(w.sys, w.seen) && OrderlyRun(w, es) && WritersListed(w.sys)
    requires ThriftyRun(w, settled, es) && Clear(debt, settled)
    ensures RunDebt(w, debt, es).over <= 0
    decreases es
  {
    hide Inv, Orderly, Observe, Step, Thrifty, Settled, WritersListed, DebtAfter;
    if es != [] {
      StepInv(w.sys, w.seen, es[0]);
      StepKeepsWriters(w.sys, w.seen, settled, es[0]);
      StepKeepsClear(w.sys, settled, debt, es[0]);
      ThriftyOwesNothing(Advance(w, es[0]), Settled(w.sys, es[0], settled), DebtAfter(w.sys, debt, es[0]), es[1..]);
    }
  }

  /** In every orderly run that keeps this discipline, neither promises nor files exceed the dedicated space. */
  lemma QuotaIsNeverExceeded(w: Watch, es: seq<Event>)
    requires Start(w) && OrderlyRun(w, es) && ThriftyRun(w, true, es)
    requires DiskBytes(w.sys.disk) <= w.sys.used && DiskBytes(w.sys.disk) <= w.sys.total
    ensures
      var end := Run(w, es).sys;
      Promised(end) <= w.sys.total && DiskBytes(end.disk) <= w.sys.total
  {
    hide DiskBytes, OrderlyRun, ThriftyRun, Run, RunDebt, Inv, Promised;
    StartInv(w);
    ThriftyOwesNothing(w, true, OpeningDebt(w.sys), es);
    DebtBoundsQuota(w, es);
  }

  // ----- What each part of the discipline is worth, from any state -----

  /** Whatever size is admitted for `p`, no more than the total is promised afterwards. */
  ghost predicate AdmitsSafely(s: Sys, p: Path, userId: string, path: Path) {
    forall size: nat, overwrite: bool :: VerdictOf(s, p, size, overwrite) == Created
      ==> Promised(Step(s, Init(p, size, userId, path, overwrite))) <= s.total
  }

  /**
   * The guard admits nothing too large if and only if it admits nothing at all, or the measured use covers what
   * remains finished.
   */
  lemma AdmissionSafeIff(s: Sys, p: Path, userId: string, path: Path)
    requires s.store.Consistent() && p !in s.store.files
    ensures AdmitsSafely(s, p, userId, path)
       <==> s.used + s.store.SpaceToUse() > s.total || DiskBytes(Remaining(s, p)) <= s.used
  {
    hide DiskBytes, SumOver, Step, Remaining, Promised, Present;
    forall size: nat, overwrite: bool | VerdictOf(s, p, size, overwrite) == Created
      ensures Promised(Step(s, Init(p, size, userId, path, overwrite)))
           == DiskBytes(Remaining(s, p)) + s.store.SpaceToUse() + size
    {
      InitAccounts(s, Init(p, size, userId, path, overwrite));
    }
    var room := s.total - s.used - s.store.SpaceToUse();
    if room >= 0 {
      assert VerdictOf(s, p, room, Present(s.disk, p)) == Created;
    }
  }

  lemma FreshRemains(s: Sys, p: Path)
    requires !Present(s.disk, p)
    ensures Remaining(s, p) == Finished(s)
  {
    assert Below(s.disk, p) == {};
    assert p in s.disk ==> p in Below(s.disk, p);
  }

  /** After a measurement the guard is safe if and only if it counted what remains finished, or the space is full. */
  lemma AdmissionAfterMeasuringIff(s: Sys, measured: int, p: Path, userId: string, path: Path)
    requires s.store.Consistent() && p !in s.store.files
    ensures AdmitsSafely(Step(s, Recount(measured)), p, userId, path)
       <==> measured + s.store.SpaceToUse() > s.total || DiskBytes(Remaining(s, p)) <= measured
  {
    hide DiskBytes, SumOver, AdmitsSafely;
    var s1 := Step(s, Recount(measured));
    assert Remaining(s1, p) == Remaining(s, p);
    AdmissionSafeIff(s1, p, userId, path);
  }

  /**
   * Between a finished upload and its measurement the guard is safe for a new path if and only if the old measurement
   * covers that upload's file too, or the space is full.
   */
  lemma AdmissionBeforeMeasuringIff(s: Sys, t: nat, p: Path, userId: string, path: Path)
    requires s.store.Consistent() && t in s.tasks && s.tasks[t].Finalising? && s.tasks[t].dir in s.store.files
    requires p !in s.store.files && !Present(s.disk, p)
    ensures
      var d := s.tasks[t].dir;
      AdmitsSafely(Step(s, Finalise(t)), p, userId, path)
      <==> s.used + s.store.SpaceToUse() - s.store.files[d].size > s.total
           || DiskBytes(Finished(s)) + |Content(s.disk, d)| <= s.used
  {
    hide DiskBytes, SumOver, AdmitsSafely, Present;
    var d := s.tasks[t].dir;
    var s1 := Step(s, Finalise(t));
    LeavesStore(s, d);
    assert Finished(s1) == Finished(s.(store := s.store.DelFile(d)));
    FreshRemains(s1, p);
    AdmissionSafeIff(s1, p, userId, path);
  }

  lemma CreationPromises(s: Sys, p: Path, size: nat, userId: string, path: Path)
    requires s.store.Consistent() && p !in s.store.files && p !in s.disk
    ensures
      var s' := Create(s, p, size, userId, path);
      s'.store.Consistent() && Promised(s') == Promised(s) + size && s'.disk.Keys <= s.disk.Keys + {p}
  {
    hide DiskBytes, SumOver;
    LateCreationConsistentIff(s, p, size, userId, path);
    CreateSpace(s.store, p, size, userId, path);
    var s' := Create(s, p, size, userId, path);
    assert s'.store.files.Keys == s.store.files.Keys + {p};
    assert Finished(s') == Finished(s);
  }

  /**
   * Two requests for different new paths that both pass the guard before either creates its upload: the total is kept
   * for all sizes if and only if the measured use covers the finished files and the room left once more, or the space
   * is full.
   */
  lemma TwoAdmissionsIff(s: Sys, p: Path, q: Path, userId: string, path: Path)
    requires s.store.Consistent() && p != q && p !in s.store.files && q !in s.store.files
    requires !Present(s.disk, p) && !Present(s.disk, q)
    ensures
      var room := s.total - s.used - s.store.SpaceToUse();
      (forall a: nat, b: nat :: VerdictOf(s, p, a, false) == Created && VerdictOf(s, q, b, false) == Created
         ==> Promised(Create(Create(s, p, a, userId, path), q, b, userId, path)) <= s.total)
      <==> room < 0 || DiskBytes(Finished(s)) + room <= s.used
  {
    hide DiskBytes, SumOver, Promised, VerdictOf, Create, Present;
    NotOnDisk(s.disk, p);
    NotOnDisk(s.disk, q);
    FreshVerdict(s, p);
    FreshVerdict(s, q);
    forall a: nat, b: nat
      ensures Promised(Create(Create(s, p, a, userId, path), q, b, userId, path)) == Promised(s) + a + b
    {
      CreationPromises(s, p, a, userId, path);
      CreatedKeys(s, p, a, userId, path);
      CreationPromises(Create(s, p, a, userId, path), q, b, userId, path);
    }
    assert Promised(s) == DiskBytes(Finished(s)) + s.store.SpaceToUse() by { PromisedIs(s); }
    var room := s.total - s.used - s.store.SpaceToUse();
    if room >= 0 {
      assert VerdictOf(s, p, room, false) == Created && VerdictOf(s, q, room, false) == Created;
    }
  }

  lemma PromisedIs(s: Sys)
    ensures Promised(s) == DiskBytes(Finished(s)) + s.store.SpaceToUse()
  {}

  lemma NotOnDisk(disk: map<Path, seq<Byte>>, p: Path)
    requires !Present(disk, p)
    ensures p !in disk
  {
    assert p in disk ==> p in Below(disk, p);
  }

  lemma CreatedKeys(s: Sys, p: Path, size: nat, userId: string, path: Path)
    ensures Create(s, p, size, userId, path).store.files.Keys == s.store.files.Keys + {p}
  {}

  /** Whatever size is admitted for `p` before the write of loop `t` ends, the total is kept afterwards. */
  ghost predicate LandsSafely(s: Sys, t: nat, p: Path, userId: string, path: Path) {
    forall size: nat :: VerdictOf(s, p, size, false) == Created
      ==> Promised(Step(Step(s, Init(p, size, userId, path, false)), WriteDone(t))) <= s.total
  }

  /**
   * When the space of a deleted upload is given to a new path before the last chunk in flight lands, the total is kept
   * for every size that is admitted if and only if the measured use also covers what the chunk adds to the disk, or the
   * space is full.
   */
  lemma StrayLandingIff(s: Sys, t: nat, p: Path, userId: string, path: Path)
    requires s.store.Consistent() && t in s.tasks && s.tasks[t].Writing? && s.tasks[t].dir !in s.store.files
    requires p !in s.store.files && !Present(s.disk, p) && p != s.tasks[t].dir
    requires s.tasks[t].blob.position >= 0
    ensures LandsSafely(s, t, p, userId, path)
       <==> s.used + s.store.SpaceToUse() > s.total
            || DiskBytes(Finished(s)) + Stray(s, WriteDone(t)) <= s.used
  {
    hide DiskBytes, SumOver, Step, Promised, Stray, VerdictOf, Present;
    forall size: nat | VerdictOf(s, p, size, false) == Created
      ensures Promised(Step(Step(s, Init(p, size, userId, path, false)), WriteDone(t)))
           == DiskBytes(Finished(s)) + Stray(s, WriteDone(t)) + s.store.SpaceToUse() + size
    {
      LandsAfterAdmission(s, t, p, size, userId, path);
    }
    var room := s.total - s.used - s.store.SpaceToUse();
    FreshVerdict(s, p);
    if room >= 0 {
      assert VerdictOf(s, p, room, false) == Created;
    }
  }

  lemma FreshVerdict(s: Sys, p: Path)
    requires p !in s.store.files && !Present(s.disk, p)
    ensures forall size: nat ::
      VerdictOf(s, p, size, false) == Created <==> s.used + size + s.store.SpaceToUse() <= s.total
  {}

  /** A deletion during a write leaves such a loop: its chunk will add all bytes up to its end. */
  lemma DeletionLeavesStray(s: Sys, t: nat)
    requires s.store.Consistent() && t in s.tasks && s.tasks[t].Writing? && s.tasks[t].dir in s.store.files
    requires s.tasks[t].blob.position >= 0 && s.tasks[t].blob.bytes != []
    ensures
      var Writing(d, b) := s.tasks[t];
      var s1 := Step(s, Delete(d));
      && s1.store.Consistent() && t in s1.tasks && s1.tasks[t] == Writing(d, b) && d !in s1.store.files
      && s1.used == s.used && s1.total == s.total
      && s1.store.SpaceToUse() == s.store.SpaceToUse() - s.store.files[d].size
      && Finished(s1) == Finished(s) - Below(s.disk, d)
      && Stray(s1, WriteDone(t)) == b.position + |b.bytes|
  {
    hide DiskBytes, SumOver, WriteAt, NoDup;
    var Writing(d, b) := s.tasks[t];
    DeleteAccounts(s, d);
    WithoutNoDup(s.store.dirs, d);
    assert d in s.disk ==> d in Below(s.disk, d);
    assert d !in Step(s, Delete(d)).disk;
  }

  /** The chunk of an upload that is gone lands after another path was admitted. */
  lemma LandsAfterAdmission(s: Sys, t: nat, p: Path, size: nat, userId: string, path: Path)
    requires s.store.Consistent() && t in s.tasks && s.tasks[t].Writing? && s.tasks[t].blob.position >= 0
    requires s.tasks[t].dir !in s.store.files && p != s.tasks[t].dir
    requires VerdictOf(s, p, size, false) == Created
    ensures
      Promised(Step(Step(s, Init(p, size, userId, path, false)), WriteDone(t)))
        == DiskBytes(Finished(s)) + Stray(s, WriteDone(t)) + s.store.SpaceToUse() + size
  {
    hide DiskBytes, SumOver, Growth, Below, AfterWrite;
    var e := Init(p, size, userId, path, false);
    var s2 := Step(s, e);
    InitAccounts(s, e);
    FreshRemains(s, p);
    StrayAccounts(s2, WriteDone(t));
    NothingRemoved(s.disk, p);
    assert Content(s2.disk, s.tasks[t].dir) == Content(s.disk, s.tasks[t].dir);
    assert Stray(s2, WriteDone(t)) == Stray(s, WriteDone(t));
  }

  lemma NothingRemoved(disk: map<Path, seq<Byte>>, p: Path)
    requires !Present(disk, p)
    ensures RemoveTree(disk, p) == disk
  {}
}
