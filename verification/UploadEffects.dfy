/**
 * What each step of the upload machine gives, stated without the functions that carry it out: which uploads a tick
 * starts, what an initialisation leaves on disk, what a step may touch, and what is recorded of each write.
 */
module UploadEffects {
  import opened Basics
  import opened Seqs
  import opened TempStorage
  import opened UploadMachine
  import opened UploadCoverage
  import opened UploadSafety
  import opened UploadRuns
  import opened UploadTheorems

  // ----- A tick -----

  /** After a tick, `filesAtSameTime + 1` uploads are active or nothing is ready (or more were active already). */
  lemma TickCount(s: Sys)
    requires s.store.Consistent()
    ensures
      var before := s.store.CountWritting();
      Step(s, Tick).store.CountWritting()
        == if before > s.limit then before
           else Min(s.limit + 1, before + SumOver(s.store.dirs, s.store.files, Ready))
  {
    TickFillsTheSlots(s, s.store.dirs);
  }

  /** How many uploads listed before the `i`-th wait for a writer. */
  function ReadyBefore(s: Sys, i: nat): int
    requires i <= |s.store.dirs|
  {
    SumOver(s.store.dirs[..i], s.store.files, Ready)
  }

  /** The `i`-th upload waits for a writer, and a slot is left for it by those listed before it. */
  ghost predicate Starts(s: Sys, i: nat)
    requires s.store.Consistent() && i < |s.store.dirs|
  {
    var u := s.store.files[s.store.dirs[i]];
    !u.writting && u.blobs != [] && s.store.CountWritting() + ReadyBefore(s, i) <= s.limit
  }

  /** The `i`-th upload has got a new loop that writes its oldest chunk, if it starts, and is as it was otherwise. */
  ghost predicate Served(s: Sys, s': Sys, i: nat)
    requires s.store.Consistent() && i < |s.store.dirs|
  {
    var d := s.store.dirs[i];
    var u := s.store.files[d];
    && d in s'.store.files
    && if Starts(s, i) then
         var last := |u.blobs| - 1;
         var t := s.nextTask + ReadyBefore(s, i);
         && s'.store.files[d] == u.(blobs := u.blobs[..last], writting := true)
         && t in s'.tasks && s'.tasks[t] == Writing(d, u.blobs[last])
       else s'.store.files[d] == u
  }

  /** The state after the first `k` listed uploads have been looked at. */
  ghost predicate ServedUpTo(s: Sys, m: Sys, k: nat)
    requires s.store.Consistent() && k <= |s.store.dirs|
  {
    && m.store.dirs == s.store.dirs && m.store.files.Keys == s.store.files.Keys
    && m.disk == s.disk && m.used == s.used && m.total == s.total && m.limit == s.limit
    && m.nextTask - s.nextTask == m.store.CountWritting() - s.store.CountWritting() >= 0
    && (forall i :: 0 <= i < k ==> Served(s, m, i))
    && (forall i :: k <= i < |s.store.dirs| ==> m.store.files[s.store.dirs[i]] == s.store.files[s.store.dirs[i]])
    && (forall t :: t in s.tasks ==> t in m.tasks && m.tasks[t] == s.tasks[t])
    && (forall t :: t in m.tasks && t !in s.tasks ==>
          exists i :: 0 <= i < k && Starts(s, i) && t == s.nextTask + ReadyBefore(s, i))
  }

  lemma ReadyNext(s: Sys, i: nat)
    requires s.store.Consistent() && i < |s.store.dirs|
    ensures ReadyBefore(s, i + 1) == ReadyBefore(s, i) + Ready(s.store.files[s.store.dirs[i]])
    ensures ReadyBefore(s, i) >= 0
  {
    assert s.store.dirs[..i + 1][..i] == s.store.dirs[..i];
    assert s.store.dirs[i] in s.store.dirs;
    SumNonNegative(s.store.dirs[..i], s.store.files, Ready);
  }

  /** The slots taken so far say whether the next upload starts. */
  lemma SlotIff(s: Sys, m: Sys, k: nat)
    requires s.store.Consistent() && k < |s.store.dirs| && m == TickOver(s, s.store.dirs[..k])
    requires m.nextTask - s.nextTask == m.store.CountWritting() - s.store.CountWritting()
    ensures
      var u := s.store.files[s.store.dirs[k]];
      && (Starts(s, k) <==> !u.writting && u.blobs != [] && m.store.CountWritting() <= s.limit)
      && (Starts(s, k) ==> m.nextTask == s.nextTask + ReadyBefore(s, k))
  {
    hide SumOver, TickOver;
    assert NoDup(s.store.dirs[..k]);
    assert forall d :: d in s.store.dirs[..k] ==> d in s.store.dirs;
    ReadyNext(s, k);
    TickFillsTheSlots(s, s.store.dirs[..k]);
  }

  /** Looking at the next upload starts it exactly if it starts. */
  lemma ServeNext(s: Sys, m: Sys, k: nat)
    requires s.store.Consistent() && k < |s.store.dirs| && ServedUpTo(s, m, k)
    requires forall t :: t in s.tasks ==> t < s.nextTask
    requires forall t :: t in m.tasks ==> t < m.nextTask
    requires m.store.Consistent() && m == TickOver(s, s.store.dirs[..k])
    ensures ServedUpTo(s, StartWriter(m, s.store.dirs[k]), k + 1)
  {
    var d := s.store.dirs[k];
    assert d in s.store.dirs;
    var u, m' := s.store.files[d], StartWriter(m, d);
    SlotIff(s, m, k);
    assert m.store.files[d] == u;
    hide TickOver, NoDup, Starts, ReadyBefore, SumOver;
    if Starts(s, k) {
      BeginCount(m, m.nextTask, d);
      ServeStarted(s, m, m', k);
    } else {
      assert m' == m;
      ServeSkipped(s, m, k);
    }
  }

  lemma ServeStarted(s: Sys, m: Sys, m': Sys, k: nat)
    requires s.store.Consistent() && k < |s.store.dirs| && ServedUpTo(s, m, k) && Starts(s, k)
    requires m.nextTask == s.nextTask + ReadyBefore(s, k) && m.nextTask !in m.tasks
    requires m'.store.CountWritting() == m.store.CountWritting() + 1
    requires
      var d := s.store.dirs[k];
      var u := s.store.files[d];
      m' == m.(store := m.store.Put(d, u.(blobs := u.blobs[..|u.blobs| - 1], writting := true)),
               tasks := m.tasks[m.nextTask := Writing(d, u.blobs[|u.blobs| - 1])], nextTask := m.nextTask + 1)
    ensures ServedUpTo(s, m', k + 1)
  {
    hide SumOver, Starts, ReadyBefore, Store.CountWritting;
    var d := s.store.dirs[k];
    ServedStill(s, m, m', k);
    assert Served(s, m', k);
    forall i | k < i < |s.store.dirs| ensures m'.store.files[s.store.dirs[i]] == s.store.files[s.store.dirs[i]] {
      assert s.store.dirs[i] != d;
    }
    forall t | t in m'.tasks && t !in s.tasks
      ensures exists i :: 0 <= i < k + 1 && Starts(s, i) && t == s.nextTask + ReadyBefore(s, i)
    {
      if t == m.nextTask {
        assert Starts(s, k) && t == s.nextTask + ReadyBefore(s, k);
      }
    }
  }

  lemma ServeSkipped(s: Sys, m: Sys, k: nat)
    requires s.store.Consistent() && k < |s.store.dirs| && ServedUpTo(s, m, k) && !Starts(s, k)
    ensures ServedUpTo(s, m, k + 1)
  {
    hide SumOver, Starts, ReadyBefore, Store.CountWritting;
    assert s.store.dirs[k] in s.store.dirs;
    assert Served(s, m, k);
  }

  lemma ServedStill(s: Sys, m: Sys, m': Sys, k: nat)
    requires s.store.Consistent() && k < |s.store.dirs| && ServedUpTo(s, m, k)
    requires forall t :: t in m.tasks ==> t in m'.tasks && m'.tasks[t] == m.tasks[t]
    requires forall d :: d in m.store.files && d != s.store.dirs[k] ==>
               d in m'.store.files && m'.store.files[d] == m.store.files[d]
    ensures forall i :: 0 <= i < k ==> Served(s, m', i)
  {
    hide SumOver, Starts, ReadyBefore;
    forall i | 0 <= i < k ensures Served(s, m', i) {
      assert Served(s, m, i);
      assert s.store.dirs[i] != s.store.dirs[k];
    }
  }

  lemma NothingServed(s: Sys)
    requires s.store.Consistent()
    ensures ServedUpTo(s, s, 0)
  {}

  lemma {:induction false} TickServes(s: Sys, k: nat)
    requires s.store.Consistent() && k <= |s.store.dirs| && forall t :: t in s.tasks ==> t < s.nextTask
    ensures
      var m := TickOver(s, s.store.dirs[..k]);
      m.store.Consistent() && ServedUpTo(s, m, k) && forall t :: t in m.tasks ==> t < m.nextTask
  {
    hide ServedUpTo, StartWriter, SumOver, NoDup;
    if k == 0 {
      assert s.store.dirs[..0] == [];
      NothingServed(s);
    } else {
      TickServes(s, k - 1);
      var front, m := s.store.dirs[..k - 1], TickOver(s, s.store.dirs[..k - 1]);
      assert s.store.dirs[..k][..k - 1] == front && s.store.dirs[..k][k - 1] == s.store.dirs[k - 1];
      assert TickOver(s, s.store.dirs[..k]) == StartWriter(m, s.store.dirs[k - 1]);
      ServeNext(s, m, k - 1);
      StartWriterFresh(m, s.store.dirs[k - 1]);
    }
  }

  lemma StartWriterFresh(m: Sys, d: Path)
    requires m.store.Consistent() && forall t :: t in m.tasks ==> t < m.nextTask
    ensures var m' := StartWriter(m, d); m'.store.Consistent() && forall t :: t in m'.tasks ==> t < m'.nextTask
  {}

  /**
   * A tick gives a writer to the first uploads of the listing that wait for one, as many as there are slots: each
   * such upload raises its flag and starts writing its oldest chunk. Every other upload and loop is as it was, and
   * nothing else is started.
   */
  lemma TickServesInOrder(s: Sys)
    requires s.store.Consistent() && forall t :: t in s.tasks ==> t < s.nextTask
    ensures
      var s' := Step(s, Tick);
      && s'.store.dirs == s.store.dirs && s'.store.files.Keys == s.store.files.Keys
      && s'.disk == s.disk && s'.used == s.used
      && (forall i :: 0 <= i < |s.store.dirs| ==> Served(s, s', i))
      && (forall t :: t in s.tasks ==> t in s'.tasks && s'.tasks[t] == s.tasks[t])
      && (forall t :: t in s'.tasks && t !in s.tasks ==>
            exists i :: 0 <= i < |s.store.dirs| && Starts(s, i) && t == s.nextTask + ReadyBefore(s, i))
  {
    hide SumOver;
    TickServes(s, |s.store.dirs|);
    assert s.store.dirs[..|s.store.dirs|] == s.store.dirs;
  }

  // ----- An initialisation -----

  /** There is a file at the path, or one inside the folder that it names. */
  ghost predicate Exists(disk: map<Path, seq<Byte>>, d: Path) {
    exists x :: x in disk && (x == d || d + "/" <= x)
  }

  lemma PresentIff(disk: map<Path, seq<Byte>>, d: Path)
    ensures Present(disk, d) <==> Exists(disk, d)
  {
    if Present(disk, d) {
      var x :| x in Below(disk, d);
    }
    if x :| x in disk && (x == d || d + "/" <= x) {
      assert x in Below(disk, d);
    }
  }

  /** Which of the refusals an initialisation meets first, or that it meets none. */
  lemma InitVerdicts(s: Sys, d: Path, size: nat, overwrite: bool)
    ensures
      var verdict, fits := VerdictOf(s, d, size, overwrite), s.used + size + s.store.SpaceToUse() <= s.total;
      && (verdict == NoSpace <==> !fits)
      && (verdict == AlreadyInitialised <==> fits && d in s.store.files)
      && (verdict == FileExists <==> fits && d !in s.store.files && Exists(s.disk, d) && !overwrite)
      && (verdict == NotFound <==> fits && d !in s.store.files && !Exists(s.disk, d) && overwrite)
  {
    hide Present, Exists;
    PresentIff(s.disk, d);
  }

  /**
   * A refused initialisation changes nothing. A successful one lists a new upload last, with all counters at zero, its
   * queue empty and its flag down; what was at the path is gone, and its file is there, all zeros, exactly if space is
   * reserved. No other file is touched, and no file at all is lost without `overwrite`.
   */
  lemma InitEffect(s: Sys, d: Path, size: nat, userId: string, path: Path, overwrite: bool)
    ensures
      var s' := Step(s, Init(d, size, userId, path, overwrite));
      if VerdictOf(s, d, size, overwrite) != Created then s' == s
      else
        && s'.store.dirs == s.store.dirs + [d] && d in s'.store.files
        && (var u := s'.store.files[d];
            && u.size == size && u.received == u.saved == 0 && u.bytesWritten == [] && u.blobs == []
            && !u.completed && !u.writting && u.path == path && u.userId == userId)
        && (forall x :: x != d && x in s.store.files ==> x in s'.store.files && s'.store.files[x] == s.store.files[x])
        && (forall x :: x != d && x in s'.store.files ==> x in s.store.files)
        && (d in s'.disk <==> s.reserve && size > 0)
        && (d in s'.disk ==> |s'.disk[d]| == size && forall i :: 0 <= i < size ==> s'.disk[d][i] == 0)
        && (forall x :: x in s.disk && x != d && !(d + "/" <= x) ==> x in s'.disk && s'.disk[x] == s.disk[x])
        && (forall x :: x in s'.disk && x != d ==> x in s.disk && !(d + "/" <= x))
        && (!overwrite ==> forall x :: x in s.disk ==> x in s'.disk && s'.disk[x] == s.disk[x])
        && s'.tasks == s.tasks && s'.used == s.used
  {
    hide Store.SpaceToUse;
    if VerdictOf(s, d, size, overwrite) == Created && !overwrite {
      PresentIff(s.disk, d);
      assert !Exists(s.disk, d);
    }
  }

  // ----- What a step may touch -----

  /** The path that a step is about, if it is about one. */
  function About(s: Sys, e: Event): Option<Path> {
    match e
    case Init(d, _, _, _, _) => Some(d)
    case Receive(d, _) => Some(d)
    case Delete(d) => Some(d)
    case Tick => None
    case Recount(_) => None
    case _ => if e.task in s.tasks then Some(s.tasks[e.task].dir) else None
  }

  /** The records, the listing, the loops and the files of all paths but `d`, and of the folder it may name, stay. */
  ghost predicate OthersStay(s: Sys, s': Sys, d: Path) {
    && (forall x :: x != d ==> (x in s'.store.files <==> x in s.store.files))
    && (forall x :: x != d && x in s.store.files ==> s'.store.files[x] == s.store.files[x])
    && Without(s'.store.dirs, d) == Without(s.store.dirs, d)
    && (forall t :: t in s.tasks && s.tasks[t].dir != d ==> t in s'.tasks && s'.tasks[t] == s.tasks[t])
    && (forall t :: t in s'.tasks && s'.tasks[t].dir != d ==> t in s.tasks && s'.tasks[t] == s.tasks[t])
    && (forall x :: x != d && !(d + "/" <= x) ==> DiskAt(s'.disk, x) == DiskAt(s.disk, x))
  }

  lemma {:induction false} WithoutTwice(dirs: seq<Path>, d: Path)
    ensures Without(Without(dirs, d), d) == Without(dirs, d)
  {
    WithoutAbsent(Without(dirs, d), d);
  }

  /** As above, and the disk holds what it held at every path but `d`. */
  ghost predicate OnlyTouches(s: Sys, s': Sys, d: Path) {
    && OthersStay(s, s', d) && s'.used == s.used && s'.total == s.total
    && forall x :: x != d ==> DiskAt(s'.disk, x) == DiskAt(s.disk, x)
  }

  lemma TouchesOnceMore(a: Sys, b: Sys, c: Sys, d: Path)
    requires OnlyTouches(a, b, d) && OnlyTouches(b, c, d)
    ensures OnlyTouches(a, c, d)
  {
    hide Without, DiskAt;
  }

  lemma ContinueTouches(s: Sys, t: nat, d: Path)
    requires t in s.tasks ==> s.tasks[t].dir == d
    ensures OnlyTouches(s, ContinueLoop(s, t, d), d)
  {
    hide Without, DiskAt;
  }

  lemma PutOnly(s: Sys, d: Path, u: Upload, disk: map<Path, seq<Byte>>)
    requires d in s.store.files && forall x :: x != d ==> DiskAt(disk, x) == DiskAt(s.disk, x)
    ensures OnlyTouches(s, s.(disk := disk, store := s.store.Put(d, u)), d)
  {
    hide Without, DiskAt;
  }

  lemma TaskOnly(s: Sys, t: nat, d: Path, b: Blob)
    requires t in s.tasks && s.tasks[t].dir == d
    ensures OnlyTouches(s, s.(tasks := s.tasks[t := Finalising(d, b)]), d)
  {
    hide Without, DiskAt;
  }

  /** The loop of `d` records a write, or queues its chunk again, and writes content at `d`. */
  lemma PutTouches(s: Sys, t: nat, d: Path, u: Upload, disk: map<Path, seq<Byte>>, b: Blob)
    requires t in s.tasks && s.tasks[t].dir == d && d in s.store.files
    requires forall x :: x != d ==> DiskAt(disk, x) == DiskAt(s.disk, x)
    ensures
      var s2 := s.(disk := disk, store := s.store.Put(d, u));
      && OnlyTouches(s, ContinueLoop(s2, t, d), d)
      && OnlyTouches(s, s2.(tasks := s.tasks[t := Finalising(d, b)]), d)
  {
    hide OnlyTouches, DiskAt, ContinueLoop;
    var s2 := s.(disk := disk, store := s.store.Put(d, u));
    PutOnly(s, d, u, disk);
    ContinueTouches(s2, t, d);
    TouchesOnceMore(s, s2, ContinueLoop(s2, t, d), d);
    TaskOnly(s2, t, d, b);
    TouchesOnceMore(s, s2, s2.(tasks := s.tasks[t := Finalising(d, b)]), d);
  }

  lemma EndTouches(s: Sys, t: nat, d: Path, disk: map<Path, seq<Byte>>)
    requires t in s.tasks && s.tasks[t].dir == d
    requires forall x :: x != d ==> DiskAt(disk, x) == DiskAt(s.disk, x)
    ensures OnlyTouches(s, s.(disk := disk, tasks := s.tasks - {t}), d)
  {
    hide Without, DiskAt;
  }

  lemma WriteDoneTouches(s: Sys, t: nat)
    requires t in s.tasks
    ensures OnlyTouches(s, Step(s, WriteDone(t)), s.tasks[t].dir)
  {
    hide WriteAt, RecordWrite, ContinueLoop, OnlyTouches;
    var d := s.tasks[t].dir;
    NothingTouched(s, d);
    if s.tasks[t].Writing? && s.tasks[t].blob.position >= 0 {
      var b := s.tasks[t].blob;
      var disk := s.disk[d := WriteAt(Content(s.disk, d), b.position, b.bytes)];
      if d in s.store.files { PutTouches(s, t, d, RecordWrite(s.store.files[d], b), disk, b); }
      EndTouches(s, t, d, disk);
    }
  }

  lemma ErrorTouches(s: Sys, t: nat, disk: map<Path, seq<Byte>>)
    requires t in s.tasks && forall x :: x != s.tasks[t].dir ==> DiskAt(disk, x) == DiskAt(s.disk, x)
    ensures OnlyTouches(s, AfterError(s.(disk := disk), t, s.tasks[t].dir, s.tasks[t].blob), s.tasks[t].dir)
  {
    hide ContinueLoop, OnlyTouches, DiskAt;
    var d, b := s.tasks[t].dir, s.tasks[t].blob;
    if d in s.store.files { PutTouches(s, t, d, Allocate(s.store.files[d], b), disk, b); }
    EndTouches(s, t, d, disk);
  }

  lemma WriteFailTouches(s: Sys, t: nat, touched: bool, landed: nat)
    requires t in s.tasks
    ensures OnlyTouches(s, Step(s, WriteFail(t, touched, landed)), s.tasks[t].dir)
  {
    hide WriteAt, AfterError, OnlyTouches;
    NothingTouched(s, s.tasks[t].dir);
    if s.tasks[t].Writing? && landed <= |s.tasks[t].blob.bytes| && (touched ==> s.tasks[t].blob.position >= 0) {
      var Writing(d, b) := s.tasks[t];
      ErrorTouches(s, t, if touched then s.disk[d := WriteAt(Content(s.disk, d), b.position, b.bytes[..landed])]
                         else s.disk);
    }
  }

  lemma NothingTouched(s: Sys, d: Path)
    ensures OnlyTouches(s, s, d)
  {}

  lemma FinaliseTouches(s: Sys, t: nat)
    requires t in s.tasks
    ensures OnlyTouches(s, Step(s, Finalise(t)), s.tasks[t].dir)
    ensures OnlyTouches(s, Step(s, FinaliseFail(t)), s.tasks[t].dir)
  {
    hide AfterError, Without, DiskAt;
    ErrorTouches(s, t, s.disk);
    WithoutTwice(s.store.dirs, s.tasks[t].dir);
  }

  lemma ReceiveTouches(s: Sys, d: Path, b: Blob)
    ensures OnlyTouches(s, Step(s, Receive(d, b)), d)
  {
    hide Without, DiskAt;
  }

  lemma RemovedOnly(disk: map<Path, seq<Byte>>, d: Path, size: nat, reserve: bool)
    ensures forall x :: x != d && !(d + "/" <= x) ==> DiskAt(RemoveTree(disk, d), x) == DiskAt(disk, x)
    ensures forall x :: x != d && !(d + "/" <= x) ==>
              DiskAt(Reservation(RemoveTree(disk, d), d, size, reserve), x) == DiskAt(disk, x)
  {}

  lemma InitTouches(s: Sys, e: Event)
    requires e.Init? || e.Delete?
    ensures OthersStay(s, Step(s, e), e.dir) && Step(s, e).used == s.used && Step(s, e).total == s.total
  {
    hide Without, DiskAt, RemoveTree, VerdictOf, Reservation;
    WithoutTwice(s.store.dirs, e.dir);
    WithoutSnoc(s.store.dirs, e.dir);
    RemovedOnly(s.disk, e.dir, if e.Init? then e.size else 0, s.reserve);
  }

  /**
   * A step about one path leaves all other uploads, their place in the listing, their loops and their files alone;
   * only an initialisation or a deletion reaches into the folder that the path may name.
   */
  lemma StepTouchesOne(s: Sys, e: Event)
    requires About(s, e).Some?
    ensures OthersStay(s, Step(s, e), About(s, e).value)
    ensures !e.Init? && !e.Delete? ==>
              forall x :: x != About(s, e).value ==> DiskAt(Step(s, e).disk, x) == DiskAt(s.disk, x)
    ensures Step(s, e).used == s.used && Step(s, e).total == s.total
  {
    hide Step, OthersStay, DiskAt;
    match e
    case Init(_, _, _, _, _) => InitTouches(s, e);
    case Delete(_) => InitTouches(s, e);
    case Receive(d, b) => ReceiveTouches(s, d, b);
    case WriteDone(t) => WriteDoneTouches(s, t);
    case WriteFail(t, touched, landed) => WriteFailTouches(s, t, touched, landed);
    case Finalise(t) => FinaliseTouches(s, t);
    case FinaliseFail(t) => FinaliseTouches(s, t);
  }

  // ----- What is recorded of writes -----

  lemma {:induction false} RangesOfBlobs(line: seq<Blob>)
    ensures |Ranges(line)| == |line|
    ensures forall i :: 0 <= i < |line| ==>
              Ranges(line)[i].from == line[i].position && Ranges(line)[i].to == line[i].position + |line[i].bytes|
  {
    if line != [] { RangesOfBlobs(line[..|line| - 1]); }
  }

  /** In every run, the ranges recorded of an upload are exactly the places of the chunks written, in their order. */
  lemma RangesAreChunksWritten(w: Watch, es: seq<Event>, d: Path)
    requires Start(w) && OrderlyRun(w, es)
    ensures
      var end := Run(w, es);
      d in end.sys.store.files ==>
        var ranges, landed := end.sys.store.files[d].bytesWritten, Past(end.seen, d).landed;
        && |ranges| == |landed|
        && forall i :: 0 <= i < |ranges| ==>
             ranges[i].from == landed[i].position && ranges[i].to == landed[i].position + |landed[i].bytes|
  {
    hide OrderlyRun, Run;
    StartInv(w);
    RunInv(w, es);
    var end := Run(w, es);
    if d in end.sys.store.files {
      assert UploadInv(end.sys, end.seen, d);
      RangesOfBlobs(Past(end.seen, d).landed);
    }
  }

  /**
   * A failed write leaves at most a first part of its chunk at the chunk's place; the chunk joins the end of the
   * queue, is counted as received once more, and the loop goes on with the oldest chunk.
   */
  lemma WriteFailEffect(s: Sys, t: nat, touched: bool, landed: nat)
    requires t in s.tasks && s.tasks[t].Writing? && s.tasks[t].dir in s.store.files
    requires landed <= |s.tasks[t].blob.bytes| && (touched ==> s.tasks[t].blob.position >= 0)
    ensures
      var Writing(d, b) := s.tasks[t];
      var u, s' := s.store.files[d], Step(s, WriteFail(t, touched, landed));
      var n := |u.blobs|;
      && s'.disk == (if touched then s.disk[d := WriteAt(Content(s.disk, d), b.position, b.bytes[..landed])] else s.disk)
      && d in s'.store.files && t in s'.tasks
      && s'.tasks[t] == Writing(d, if n == 0 then b else u.blobs[n - 1])
      && s'.store.files[d] == u.(received := u.received + |b.bytes|, writting := true,
                                 blobs := if n == 0 then [] else [b] + u.blobs[..n - 1])
  {
    hide WriteAt;
    var Writing(d, b) := s.tasks[t];
    var u := s.store.files[d];
    assert u.blobs != [] ==> ([b] + u.blobs)[..|u.blobs|] == [b] + u.blobs[..|u.blobs| - 1];
    assert [b][..0] == [];
  }

  /** A loop whose upload is gone ends when it is resumed, and a finalisation that succeeds ends its loop. */
  lemma LoopsEnd(s: Sys, t: nat, touched: bool, landed: nat)
    requires t in s.tasks
    ensures s.tasks[t].Finalising? ==> t !in Step(s, Finalise(t)).tasks
    ensures s.tasks[t].dir !in s.store.files ==>
      && (s.tasks[t].Writing? && s.tasks[t].blob.position >= 0 ==> t !in Step(s, WriteDone(t)).tasks)
      && ((s.tasks[t].Writing? && landed <= |s.tasks[t].blob.bytes| && (touched ==> s.tasks[t].blob.position >= 0))
          ==> t !in Step(s, WriteFail(t, touched, landed)).tasks)
      && (s.tasks[t].Finalising? ==> t !in Step(s, FinaliseFail(t)).tasks)
  {
    hide WriteAt, RecordWrite;
  }

  /** A failed finalisation queues its chunk again, counts it as received once more, and the loop goes on. */
  lemma FinaliseFailEffect(s: Sys, t: nat)
    requires t in s.tasks && s.tasks[t].Finalising? && s.tasks[t].dir in s.store.files
    ensures
      var Finalising(d, b) := s.tasks[t];
      var u, s' := s.store.files[d], Step(s, FinaliseFail(t));
      var n := |u.blobs|;
      && s'.disk == s.disk && d in s'.store.files && t in s'.tasks
      && s'.tasks[t] == Writing(d, if n == 0 then b else u.blobs[n - 1])
      && s'.store.files[d] == u.(received := u.received + |b.bytes|, writting := true,
                                 blobs := if n == 0 then [] else [b] + u.blobs[..n - 1])
  {
    var Finalising(d, b) := s.tasks[t];
    var u := s.store.files[d];
    assert u.blobs != [] ==> ([b] + u.blobs)[..|u.blobs|] == [b] + u.blobs[..|u.blobs| - 1];
    assert [b][..0] == [];
  }

  /** A successful write puts the chunk in its place, with or without an upload, and keeps all other bytes. */
  lemma WriteDoneOnDisk(s: Sys, t: nat)
    requires t in s.tasks && s.tasks[t].Writing? && s.tasks[t].blob.position >= 0 && s.tasks[t].blob.bytes != []
    ensures
      var Writing(d, b) := s.tasks[t];
      var was, now := Content(s.disk, d), Content(Step(s, WriteDone(t)).disk, d);
      var end := b.position + |b.bytes|;
      && |now| == (if |was| < end then end else |was|) && now[b.position..end] == b.bytes
      && (forall i :: 0 <= i < |was| && !(b.position <= i < end) ==> now[i] == was[i])
      && (forall i :: |was| <= i < b.position ==> now[i] == 0)
  {
    hide RecordWrite;
  }

  /** A deletion removes the upload and every file at the path or inside it, and nothing else; loops go on. */
  lemma DeleteEffect(s: Sys, d: Path, before: seq<Path>, after: seq<Path>)
    requires s.store.dirs == before + [d] + after && d !in before && d !in after && d in s.store.files
    ensures
      var s' := Step(s, Delete(d));
      && s'.store == Store(before + after, s.store.files - {d})
      && (forall x :: x in s'.disk <==> x in s.disk && x != d && !(d + "/" <= x))
      && (forall x :: x in s'.disk ==> s'.disk[x] == s.disk[x])
      && s'.tasks == s.tasks
  {
    WithoutBetween(before, d, after);
  }

  /** A chunk for a known path is queued behind the others; one for an unknown path changes nothing. */
  lemma ReceiveEffect(s: Sys, d: Path, b: Blob)
    ensures
      var s' := Step(s, Receive(d, b));
      if d !in s.store.files then s' == s
      else
        var u := s.store.files[d];
        && s'.store.files == s.store.files[d := u.(blobs := [b] + u.blobs, received := u.received + |b.bytes|)]
        && s'.store.dirs == s.store.dirs && s'.tasks == s.tasks && s'.disk == s.disk
  {}
}
