/** The main results about uploads, for every orderly run from an empty store. */
module UploadTheorems {
  import opened Basics
  import opened Seqs
  import opened TempStorage
  import opened UploadMachine
  import opened UploadCoverage
  import opened UploadSafety
  import opened UploadRuns

  // ----- Runs -----

  /** The machine together with what has been observed of its run so far. */
  datatype Watch = Watch(sys: Sys, seen: Histories)

  function Advance(w: Watch, e: Event): Watch {
    Watch(Step(w.sys, e), Observe(w.seen, w.sys, e))
  }

  function Run(w: Watch, es: seq<Event>): Watch
    decreases es
  {
    if es == [] then w else Run(Advance(w, es[0]), es[1..])
  }

  ghost predicate OrderlyRun(w: Watch, es: seq<Event>)
    decreases es
  {
    es == [] || (Orderly(w.sys, w.seen, es[0]) && OrderlyRun(Advance(w, es[0]), es[1..]))
  }

  /** No uploads yet; the disk may hold anything. */
  ghost predicate Start(w: Watch) {
    w.sys.store == Store([], map[]) && w.sys.tasks == map[]
  }

  lemma {:induction false} RunInv(w: Watch, es: seq<Event>)
    requires Inv(w.sys, w.seen) && OrderlyRun(w, es)
    ensures Inv(Run(w, es).sys, Run(w, es).seen)
    decreases es
  {
    hide Inv, Orderly, Observe, Step;
    if es != [] {
      StepInv(w.sys, w.seen, es[0]);
      RunInv(Advance(w, es[0]), es[1..]);
    }
  }

  lemma StartInv(w: Watch)
    requires Start(w)
    ensures Inv(w.sys, w.seen)
  {}

  // ----- Completion -----

  lemma TouchedByMore(line: seq<Blob>, more: seq<Blob>, o: int)
    requires Touched(line, o) && forall b :: b in line ==> b in more
    ensures Touched(more, o)
  {
    var i :| 0 <= i < |line| && Touches(line[i], o);
    assert line[i] in more;
    var j :| 0 <= j < |more| && more[j] == line[i];
    assert Touches(more[j], o);
  }

  lemma FoundCompleteCovers(u: Upload, task: Option<Task>, h: History, content: Option<seq<Byte>>)
    requires UploadOk(u, task, h, content) && FoundComplete(task, h)
    ensures forall o :: 0 <= o < u.size ==> Touched(h.landed, o)
  {
    hide Tidy, Accounted, OnDisk, Touched;
    CompleteIffCovered(h.arrivals, u.size);
    forall o | 0 <= o < u.size ensures Touched(h.landed, o) {
      TouchedByMore(h.arrivals, h.landed, o);
    }
  }

  lemma CompleteIffTouched(u: Upload, task: Option<Task>, h: History, content: Option<seq<Byte>>)
    requires UploadOk(u, task, h, content)
    ensures Complete(u) <==> forall o :: 0 <= o < u.size ==> Touched(h.landed, o)
  {
    hide Tidy, OnDisk, Touched, Line, Ranges;
    if Complete(u) {
      if FoundComplete(task, h) { FoundCompleteCovers(u, task, h, content); }
    } else if forall o :: 0 <= o < u.size ==> Touched(h.landed, o) {
      CoveringNeedsBytes(h.landed, u.size);
    }
  }

  /** `saved` reaches `size` exactly when every byte of the file has been written. */
  lemma CompleteIffAllWritten(w: Watch, es: seq<Event>, d: Path)
    requires Start(w) && OrderlyRun(w, es)
    ensures
      var end := Run(w, es);
      d in end.sys.store.files ==>
        var u := end.sys.store.files[d];
        Complete(u) <==> forall o :: 0 <= o < u.size ==> Touched(Past(end.seen, d).landed, o)
  {
    hide OrderlyRun, Run, UploadOk, Complete;
    StartInv(w);
    RunInv(w, es);
    var end := Run(w, es);
    if d in end.sys.store.files {
      assert UploadInv(end.sys, end.seen, d);
      CompleteIffTouched(end.sys.store.files[d], TaskFor(end.sys.tasks, d), Past(end.seen, d), DiskAt(end.sys.disk, d));
    }
  }

  /** Loop `t` is finalising an upload of `|data|` bytes all of whose chunks were cut from `data`. */
  ghost predicate CutFrom(w: Watch, t: nat, data: seq<Byte>) {
    && t in w.sys.tasks && w.sys.tasks[t].Finalising?
    && var d := w.sys.tasks[t].dir;
    && d in w.sys.store.files && |data| == w.sys.store.files[d].size
    && forall b :: b in Past(w.seen, d).arrivals ==> Holds(data, b)
  }

  /**
   * When the write loop has found an upload complete, the disk holds the client's file: if every chunk that
   * arrived was cut from `data`, the content is `data`, byte for byte and in length, whatever the order of
   * arrival, however ticks, deletions of uploads and completions interleaved, and however often writes or
   * finalisations failed half-way. It is still there when the upload has left the store.
   */
  lemma CompletedUploadIsClientFile(w: Watch, es: seq<Event>, t: nat, data: seq<Byte>)
    requires Start(w) && OrderlyRun(w, es)
    requires CutFrom(Run(w, es), t, data)
    ensures var end := Run(w, es).sys;
      var d := end.tasks[t].dir;
      && DiskAt(end.disk, d) == Some(data)
      && var done := Step(end, Finalise(t));
      && d !in done.store.files && d !in done.store.dirs && Idle(done, d) && DiskAt(done.disk, d) == Some(data)
  {
    hide UploadOk, TaskFor, TaskOn, Run, OrderlyRun;
    StartInv(w);
    RunInv(w, es);
    var end := Run(w, es);
    var d := end.sys.tasks[t].dir;
    TaskForIs(end.sys.tasks, t);
    assert UploadInv(end.sys, end.seen, d);
    FinalisingContent(end.sys.store.files[d], end.sys.tasks[t], Past(end.seen, d), DiskAt(end.sys.disk, d), data);
    assert DiskAt(end.sys.disk, d) == Some(data);
  }

  lemma FinalisingContent(u: Upload, task: Task, h: History, content: Option<seq<Byte>>, data: seq<Byte>)
    requires UploadOk(u, Some(task), h, content) && task.Finalising?
    requires |data| == u.size && forall b :: b in h.arrivals ==> Holds(data, b)
    ensures content == Some(data)
  {
    hide Tidy, Holds, Touched;
    FoundCompleteCovers(u, Some(task), h, content);
    forall b | b in h.landed ensures Holds(data, b) {
      LineArrived(u, Some(task), h, b);
    }
    CoveredContentIsData(content.value, h.landed, data);
  }

  // ----- Conservation and order -----

  /**
   * Every byte received is on disk, in flight, queued, or was counted again when a failed write re-queued it; and
   * the bytes received are those that arrived and those that a failed write or finalisation queued again.
   */
  lemma ReceivedIsConserved(w: Watch, es: seq<Event>, d: Path)
    requires Start(w) && OrderlyRun(w, es)
    ensures
      var end := Run(w, es);
      d in end.sys.store.files ==>
        var u := end.sys.store.files[d];
        var h := Past(end.seen, d);
        && u.received == u.saved + SumLens(Flight(TaskFor(end.sys.tasks, d))) + SumLens(u.blobs) + SumLens(h.failed)
        && u.saved == SumRanges(u.bytesWritten)
        && u.received == SumLens(h.arrivals) + SumLens(h.redone) + SumLens(h.failed)
        && SumLens(h.arrivals) <= u.size
  {
    hide OrderlyRun, Run, UploadOk;
    StartInv(w);
    RunInv(w, es);
    var end := Run(w, es);
    if d in end.sys.store.files {
      assert UploadInv(end.sys, end.seen, d);
      Conserved(end.sys.store.files[d], TaskFor(end.sys.tasks, d), Past(end.seen, d), DiskAt(end.sys.disk, d));
    }
  }

  lemma Conserved(u: Upload, task: Option<Task>, h: History, content: Option<seq<Byte>>)
    requires UploadOk(u, task, h, content)
    ensures u.received == u.saved + SumLens(Flight(task)) + SumLens(u.blobs) + SumLens(h.failed)
    ensures u.saved == SumRanges(u.bytesWritten)
    ensures u.received == SumLens(h.arrivals) + SumLens(h.redone) + SumLens(h.failed)
    ensures SumLens(h.arrivals) <= u.size
  {
    hide Tidy, InPhase, OnDisk, Line;
    LineParts(u, task, h.landed);
    LineBytes(u, task, h);
    SumLensReverse(u.blobs);
    SumRangesOfBlobs(h.landed);
    CoverSize(h.arrivals, u.size);
  }

  lemma SumLensReverse(s: seq<Blob>)
    ensures SumLens(Reverse(s)) == SumLens(s)
  {
    ReverseSame(s);
    SumLensPermutation(Reverse(s), s);
  }

  /**
   * No chunk is lost, duplicated or invented: on disk, in flight and in the queue together are the chunks that
   * arrived, and those that a failed finalisation queued again. Without failed writes they are in this very order:
   * what landed, then what is in flight, then the queue from its old end is the arrival sequence.
   */
  lemma ChunksAreKeptInOrder(w: Watch, es: seq<Event>, d: Path)
    requires Start(w) && OrderlyRun(w, es)
    ensures
      var end := Run(w, es);
      d in end.sys.store.files ==>
        var u := end.sys.store.files[d];
        var h := Past(end.seen, d);
        var line := h.landed + Flight(TaskFor(end.sys.tasks, d)) + Reverse(u.blobs);
        && multiset(line) == multiset(h.arrivals) + multiset(h.redone)
        && (h.failed == [] ==> line == h.arrivals + h.redone)
  {
    hide OrderlyRun, Run;
    StartInv(w);
    RunInv(w, es);
    var end := Run(w, es);
    if d in end.sys.store.files {
      assert UploadInv(end.sys, end.seen, d);
    }
  }

  // ----- How many files are written at once -----

  ghost predicate WithinLimit(s: Sys) {
    s.store.CountWritting() <= s.limit + 1 || s.store.CountWritting() == 0
  }

  lemma CountPut(st: Store, d: Path, u: Upload)
    requires st.Consistent() && d in st.files
    ensures st.Put(d, u).Consistent()
    ensures st.Put(d, u).CountWritting() == st.CountWritting() - Flag(st.files[d]) + Flag(u)
  {
    SumUpdate(st.dirs, st.files, Flag, d, u);
  }

  lemma BeginCount(s: Sys, t: nat, d: Path)
    requires s.store.Consistent() && d in s.store.files && s.store.files[d].blobs != []
    ensures BeginWrite(s, t, d).store.CountWritting() == s.store.CountWritting() + 1 - Flag(s.store.files[d])
    ensures BeginWrite(s, t, d).store.Consistent()
  {
    CountPut(s.store, d, Deallocate(s.store.files[d].(writting := true)));
  }

  lemma {:induction false} TickBound(s: Sys, dirs: seq<Path>)
    requires s.store.Consistent() && WithinLimit(s)
    ensures TickOver(s, dirs).store.Consistent() && WithinLimit(TickOver(s, dirs)) && TickOver(s, dirs).limit == s.limit
  {
    if dirs != [] {
      TickBound(s, dirs[..|dirs| - 1]);
      var m, d := TickOver(s, dirs[..|dirs| - 1]), dirs[|dirs| - 1];
      if d in m.store.files && m.store.files[d].blobs != [] { BeginCount(m, m.nextTask, d); }
    }
  }

  /** A resumed loop re-raises a flag that was up when it went to sleep, so it needs no new slot. */
  lemma ResumeBound(s: Sys, d: Path, u: Upload, s2: Sys, t: nat)
    requires s.store.Consistent() && WithinLimit(s) && d in s.store.files && s.store.files[d].writting
    requires s2.store == s.store.Put(d, u) && s2.limit == s.limit
    ensures WithinLimit(s2) || s2.store.CountWritting() <= s.store.CountWritting()
    ensures ContinueLoop(s2, t, d).store.CountWritting() <= s.store.CountWritting()
  {
    CountPut(s.store, d, u);
    if u.blobs != [] { BeginCount(s2, t, d); }
  }

  lemma CountNonNegative(st: Store)
    ensures st.CountWritting() >= 0
  {
    SumNonNegative(st.dirs, st.files, Flag);
  }

  lemma InitBound(s: Sys, d: Path, size: nat, userId: string, path: Path, overwrite: bool)
    requires s.store.Consistent() && WithinLimit(s)
    ensures WithinLimit(Step(s, Init(d, size, userId, path, overwrite)))
  {
    hide RemoveTree, Reservation, Present;
    if VerdictOf(s, d, size, overwrite) == Created {
      var s' := Step(s, Init(d, size, userId, path, overwrite));
      assert s'.store.dirs[..|s.store.dirs|] == s.store.dirs;
      assert d !in s.store.dirs;
      SumFrame(s.store.dirs, s.store.files, s'.store.files, Flag);
    }
  }

  lemma WriteDoneBound(s: Sys, h: Histories, t: nat)
    requires Inv(s, h) && WithinLimit(s)
    ensures WithinLimit(Step(s, WriteDone(t)))
  {
    hide UploadOk, TaskFor, TaskOn, RecordWrite, WriteAt;
    if t in s.tasks && s.tasks[t].Writing? && s.tasks[t].blob.position >= 0 && s.tasks[t].dir in s.store.files {
      var Writing(d, b) := s.tasks[t];
      WritingFlag(s, h, t);
      var u := RecordWrite(s.store.files[d], b);
      var s2 := s.(disk := s.disk[d := WriteAt(Content(s.disk, d), b.position, b.bytes)],
                   store := s.store.Put(d, u));
      RecordedFields(s.store.files[d], b);
      CountPut(s.store, d, u);
      ResumeBound(s, d, u, s2, t);
      CountNonNegative(Step(s, WriteDone(t)).store);
    }
  }

  lemma WriteFailBound(s: Sys, h: Histories, t: nat, touched: bool, landed: nat)
    requires Inv(s, h) && WithinLimit(s)
    ensures WithinLimit(Step(s, WriteFail(t, touched, landed)))
  {
    hide UploadOk, TaskFor, TaskOn, WriteAt;
    if t in s.tasks && s.tasks[t].Writing? && landed <= |s.tasks[t].blob.bytes|
       && (touched ==> s.tasks[t].blob.position >= 0) && s.tasks[t].dir in s.store.files
    {
      var Writing(d, b) := s.tasks[t];
      WritingFlag(s, h, t);
      var u := Allocate(s.store.files[d], b);
      var disk := if touched then s.disk[d := WriteAt(Content(s.disk, d), b.position, b.bytes[..landed])] else s.disk;
      ResumeBound(s, d, u, s.(disk := disk, store := s.store.Put(d, u)), t);
      CountNonNegative(Step(s, WriteFail(t, touched, landed)).store);
    }
  }

  /** A finalisation that fails re-raises a flag that was down, so it needs a free slot. */
  ghost predicate SlotFree(s: Sys, e: Event) {
    (e.FinaliseFail? && e.task in s.tasks && s.tasks[e.task].Finalising? && s.tasks[e.task].dir in s.store.files)
    ==> s.store.CountWritting() <= s.limit
  }

  /** Exactly then the bound survives: the number of writers grows by one. */
  lemma FailedFinaliseTakesASlot(s: Sys, h: Histories, t: nat)
    requires Inv(s, h) && t in s.tasks && s.tasks[t].Finalising? && s.tasks[t].dir in s.store.files
    ensures Step(s, FinaliseFail(t)).store.CountWritting() == s.store.CountWritting() + 1
    ensures Step(s, FinaliseFail(t)).limit == s.limit
  {
    hide UploadOk, TaskFor, TaskOn;
    var Finalising(d, b) := s.tasks[t];
    FinalisingFlag(s, h, t);
    var u := Allocate(s.store.files[d], b);
    CountPut(s.store, d, u);
    BeginCount(s.(store := s.store.Put(d, u)), t, d);
  }

  lemma FinalisingFlag(s: Sys, h: Histories, t: nat)
    requires Inv(s, h) && t in s.tasks && s.tasks[t].Finalising? && s.tasks[t].dir in s.store.files
    ensures !s.store.files[s.tasks[t].dir].writting
  {
    TaskForIs(s.tasks, t);
    assert UploadInv(s, h, s.tasks[t].dir);
  }

  lemma StepBound(s: Sys, h: Histories, e: Event)
    requires Inv(s, h) && Orderly(s, h, e) && WithinLimit(s) && SlotFree(s, e)
    ensures WithinLimit(Step(s, e))
  {
    hide UploadInv, RecordWrite, WriteAt, StartWriter;
    match e
    case Init(d, size, userId, path, overwrite) => InitBound(s, d, size, userId, path, overwrite);
    case Receive(d, b) =>
      if d in s.store.files { CountPut(s.store, d, Allocate(s.store.files[d], b)); }
    case Tick => TickBound(s, s.store.dirs);
    case WriteDone(t) => WriteDoneBound(s, h, t);
    case WriteFail(t, touched, landed) => WriteFailBound(s, h, t, touched, landed);
    case Finalise(t) =>
      if t in s.tasks && s.tasks[t].Finalising? { DelCount(s.store, s.tasks[t].dir); }
    case FinaliseFail(t) =>
      if t in s.tasks && s.tasks[t].Finalising? && s.tasks[t].dir in s.store.files { FailedFinaliseTakesASlot(s, h, t); }
    case Delete(d) => DelCount(s.store, d);
    case Recount(_) =>
  }

  lemma WritingFlag(s: Sys, h: Histories, t: nat)
    requires Inv(s, h) && t in s.tasks && s.tasks[t].Writing? && s.tasks[t].dir in s.store.files
    ensures s.store.files[s.tasks[t].dir].writting
  {
    TaskForIs(s.tasks, t);
    assert UploadInv(s, h, s.tasks[t].dir);
  }

  lemma DelCount(st: Store, d: Path)
    requires st.Consistent()
    ensures 0 <= st.DelFile(d).CountWritting() <= st.CountWritting()
  {
    if d in st.files {
      SumRemove(st.dirs, st.files, Flag, d);
    } else {
      WithoutAbsent(st.dirs, d);
      assert st.DelFile(d) == st;
    }
    CountNonNegative(st.DelFile(d));
  }

  ghost predicate SlottedRun(w: Watch, es: seq<Event>)
    decreases es
  {
    es == [] || (SlotFree(w.sys, es[0]) && SlottedRun(Advance(w, es[0]), es[1..]))
  }

  lemma {:induction false} RunBound(w: Watch, es: seq<Event>)
    requires Inv(w.sys, w.seen) && WithinLimit(w.sys) && OrderlyRun(w, es) && SlottedRun(w, es)
    ensures WithinLimit(Run(w, es).sys)
    decreases es
  {
    hide Inv, Orderly, Observe, Step, WithinLimit, SlotFree;
    if es != [] {
      StepInv(w.sys, w.seen, es[0]);
      StepBound(w.sys, w.seen, es[0]);
      RunBound(Advance(w, es[0]), es[1..]);
    }
  }

  lemma {:induction false} RunKeepsLimit(w: Watch, es: seq<Event>)
    ensures Run(w, es).sys.limit == w.sys.limit
    decreases es
  {
    if es != [] {
      StepKeepsLimit(w.sys, es[0]);
      RunKeepsLimit(Advance(w, es[0]), es[1..]);
    }
  }

  lemma StepKeepsLimit(s: Sys, e: Event)
    ensures Step(s, e).limit == s.limit && Step(s, e).total == s.total
  {
    hide RecordWrite, WriteAt, VerdictOf, RemoveTree, Reservation;
    if e.Tick? { TickKeepsLimit(s, s.store.dirs); }
  }

  lemma {:induction false} TickKeepsLimit(s: Sys, dirs: seq<Path>)
    ensures var m := TickOver(s, dirs);
      m.limit == s.limit && m.total == s.total && m.used == s.used && m.disk == s.disk && m.store.dirs == s.store.dirs
  {
    if dirs != [] { TickKeepsLimit(s, dirs[..|dirs| - 1]); }
  }

  /** Each path has at most one loop, and an upload's flag is up exactly while a write of its loop is in flight. */
  lemma OneLoopPerFile(w: Watch, es: seq<Event>)
    requires Start(w) && OrderlyRun(w, es)
    ensures
      var end := Run(w, es).sys;
      && (forall i, j :: i in end.tasks && j in end.tasks && end.tasks[i].dir == end.tasks[j].dir ==> i == j)
      && forall d :: d in end.store.files ==>
           (end.store.files[d].writting
            <==> exists t :: t in end.tasks && end.tasks[t].Writing? && end.tasks[t].dir == d)
  {
    hide OrderlyRun, Run;
    StartInv(w);
    RunInv(w, es);
    var end := Run(w, es);
    forall d | d in end.sys.store.files
      ensures end.sys.store.files[d].writting
              <==> exists t :: t in end.sys.tasks && end.sys.tasks[t].Writing? && end.sys.tasks[t].dir == d
    {
      assert UploadInv(end.sys, end.seen, d);
      if t :| t in end.sys.tasks && end.sys.tasks[t].Writing? && end.sys.tasks[t].dir == d {
        TaskForIs(end.sys.tasks, t);
      }
    }
  }

  /**
   * At most `filesAtSameTime + 1` uploads have their flag up at any moment, unless a finalisation fails while all
   * these slots are taken.
   */
  lemma BoundedConcurrentWrites(w: Watch, es: seq<Event>)
    requires Start(w) && OrderlyRun(w, es) && SlottedRun(w, es)
    ensures
      var end := Run(w, es).sys;
      end.store.CountWritting() <= w.sys.limit + 1 || end.store.CountWritting() == 0
  {
    StartInv(w);
    RunBound(w, es);
    RunKeepsLimit(w, es);
  }

  // ----- The bound is met: exactly how many writers a tick leaves -----

  function Ready(u: Upload): int { if !u.writting && u.blobs != [] then 1 else 0 }

  lemma {:induction false} TickLeavesRest(s: Sys, dirs: seq<Path>, d: Path)
    requires d !in dirs
    ensures d in TickOver(s, dirs).store.files <==> d in s.store.files
    ensures d in s.store.files ==> TickOver(s, dirs).store.files[d] == s.store.files[d]
  {
    if dirs != [] { TickLeavesRest(s, dirs[..|dirs| - 1], d); }
  }

  lemma StartWriterCount(s: Sys, d: Path)
    requires s.store.Consistent() && d in s.store.files
    ensures StartWriter(s, d).store.Consistent()
    ensures StartWriter(s, d).store.CountWritting()
         == s.store.CountWritting() + if s.store.CountWritting() <= s.limit then Ready(s.store.files[d]) else 0
  {
    if s.store.files[d].blobs != [] { BeginCount(s, s.nextTask, d); }
  }

  /**
   * A tick starts writers until `filesAtSameTime + 1` are active or nothing is ready: the comparison `<=` lets
   * one more file in than the setting names.
   */
  lemma {:induction false} TickFillsTheSlots(s: Sys, dirs: seq<Path>)
    requires s.store.Consistent() && NoDup(dirs) && forall d :: d in dirs ==> d in s.store.files
    ensures
      var before := s.store.CountWritting();
      TickOver(s, dirs).store.CountWritting()
        == if before > s.limit then before
           else Min(s.limit + 1, before + SumOver(dirs, s.store.files, Ready))
    ensures TickOver(s, dirs).store.Consistent()
  {
    hide Store.CountWritting, StartWriter;
    SumNonNegative(dirs, s.store.files, Ready);
    if dirs != [] {
      var front, d := dirs[..|dirs| - 1], dirs[|dirs| - 1];
      assert dirs == front + [d];
      TickFillsTheSlots(s, front);
      SumNonNegative(front, s.store.files, Ready);
      TickLeavesRest(s, front, d);
      TickKeepsLimit(s, front);
      StartWriterCount(TickOver(s, front), d);
    }
  }

  // ----- A running loop works off its queue -----

  function WriteTimes(w: Watch, t: nat, n: nat): Watch
    decreases n
  {
    if n == 0 then w else WriteTimes(Advance(w, WriteDone(t)), t, n - 1)
  }

  /** What one successful write does to the upload and its loop. */
  lemma WriteDoneEffect(w: Watch, t: nat)
    requires Inv(w.sys, w.seen) && t in w.sys.tasks && w.sys.tasks[t].Writing?
    requires w.sys.tasks[t].dir in w.sys.store.files
    ensures
      var d, b := w.sys.tasks[t].dir, w.sys.tasks[t].blob;
      var u, h := w.sys.store.files[d], Past(w.seen, d);
      var w' := Advance(w, WriteDone(t));
      && Inv(w'.sys, w'.seen) && d in w'.sys.store.files
      && Past(w'.seen, d).arrivals == h.arrivals && Past(w'.seen, d).redone == h.redone
      && var u' := w'.sys.store.files[d];
      && u'.size == u.size
      && if u.blobs != []
         then t in w'.sys.tasks && w'.sys.tasks[t] == Writing(d, Oldest(u)) && |u'.blobs| == |u.blobs| - 1
         else u'.blobs == [] && u'.saved == SumLens(h.arrivals) + SumLens(h.redone) && !u'.writting
              && if SumLens(h.arrivals) == u.size
                 then t in w'.sys.tasks && w'.sys.tasks[t] == Finalising(d, b) else t !in w'.sys.tasks
  {
    hide UploadOk, TaskFor, TaskOn, RecordWrite, WriteAt;
    var s, d, b := w.sys, w.sys.tasks[t].dir, w.sys.tasks[t].blob;
    TaskForIs(s.tasks, t);
    assert UploadInv(s, w.seen, d);
    var u, h := s.store.files[d], Past(w.seen, d);
    RecordedWrite(u, d, b, h, DiskAt(s.disk, d));
    RecordedFields(u, b);
    WriteDoneInv(s, w.seen, t);
  }

  /** Only the last outstanding chunk can complete the upload, and it does if every byte has arrived. */
  lemma RecordedWrite(u: Upload, d: Path, b: Blob, h: History, content: Option<seq<Byte>>)
    requires UploadOk(u, Some(Writing(d, b)), h, content)
    ensures b.position >= 0
    ensures u.blobs != [] ==> !RecordWrite(u, b).completed
    ensures u.blobs == [] ==>
      && RecordWrite(u, b).saved == SumLens(h.arrivals) + SumLens(h.redone)
      && (RecordWrite(u, b).completed <==> SumLens(h.arrivals) == u.size)
  {
    hide Tidy, OnDisk, SumLens, SumRanges, UpdateBytesWritten, Line, Ranges, Reverse;
    LandOk(u, d, b, h, content);
    RecordedFields(u, b);
    LandSaved(u, b, h);
    CoverSize(h.arrivals, u.size);
    if h.redone == [] {
      Outstanding(u, d, b, h, content);
      NothingSums();
    } else {
      LineBytes(u, Some(Writing(d, b)), h);
      LastLine(u, d, b, h.landed);
    }
    NothingSums();
  }

  lemma NothingSums()
    ensures SumLens([]) == 0 && Reverse<Blob>([]) == []
  {}

  lemma LastLine(u: Upload, d: Path, b: Blob, landed: seq<Blob>)
    ensures u.blobs == [] ==> Line(u, Some(Writing(d, b)), landed) == landed + [b]
  {}

  /**
   * A loop that is writing needs exactly one successful write per outstanding chunk: then it has found the upload
   * complete if every byte of the file has arrived, and otherwise it has ended, with nothing left to write.
   */
  lemma {:induction false} LoopWorksOff(w: Watch, t: nat)
    requires Inv(w.sys, w.seen) && t in w.sys.tasks && w.sys.tasks[t].Writing?
    requires w.sys.tasks[t].dir in w.sys.store.files
    ensures
      var d := w.sys.tasks[t].dir;
      var h := Past(w.seen, d);
      var end := WriteTimes(w, t, |w.sys.store.files[d].blobs| + 1).sys;
      && d in end.store.files && end.store.files[d].blobs == []
      && end.store.files[d].saved == SumLens(h.arrivals) + SumLens(h.redone)
      && if SumLens(h.arrivals) == w.sys.store.files[d].size
         then t in end.tasks && end.tasks[t].Finalising? && end.tasks[t].dir == d
         else t !in end.tasks && !end.store.files[d].writting
    decreases |w.sys.store.files[w.sys.tasks[t].dir].blobs|
  {
    hide Inv, Observe, Step;
    var d := w.sys.tasks[t].dir;
    var n := |w.sys.store.files[d].blobs|;
    WriteDoneEffect(w, t);
    var w' := Advance(w, WriteDone(t));
    assert WriteTimes(w, t, n + 1) == WriteTimes(w', t, n);
    if n > 0 {
      LoopWorksOff(w', t);
    }
  }

  /**
   * In every run, a loop that is writing for an upload needs exactly one successful write per outstanding chunk: then
   * it has found the upload complete if every byte of the file has arrived, and otherwise it has ended, with the flag
   * down and everything that arrived written.
   */
  lemma RunningLoopWorksOffItsQueue(w: Watch, es: seq<Event>, t: nat)
    requires Start(w) && OrderlyRun(w, es)
    requires t in Run(w, es).sys.tasks && Run(w, es).sys.tasks[t].Writing?
    requires Run(w, es).sys.tasks[t].dir in Run(w, es).sys.store.files
    ensures
      var now := Run(w, es);
      var d := now.sys.tasks[t].dir;
      var h := Past(now.seen, d);
      var end := WriteTimes(now, t, |now.sys.store.files[d].blobs| + 1).sys;
      && d in end.store.files && end.store.files[d].blobs == []
      && end.store.files[d].saved == SumLens(h.arrivals) + SumLens(h.redone)
      && if SumLens(h.arrivals) == now.sys.store.files[d].size
         then t in end.tasks && end.tasks[t].Finalising? && end.tasks[t].dir == d
         else t !in end.tasks && !end.store.files[d].writting
  {
    hide OrderlyRun, Run, WriteTimes, UploadInv;
    StartInv(w);
    RunInv(w, es);
    LoopWorksOff(Run(w, es), t);
  }

  // ----- Why no part of a file may be sent twice -----

  /** The client declares twice the length of `b`, sends `b` twice, and both are written. */
  function SendTwice(t: nat, d: Path, b: Blob, userId: string, path: Path): seq<Event> {
    [Init(d, 2 * |b.bytes|, userId, path, false), Receive(d, b), Receive(d, b), Tick, WriteDone(t), WriteDone(t)]
  }

  /** Then the upload is found complete with half of its declared size on disk. */
  lemma RepeatedChunkCompletes(w: Watch, d: Path, b: Blob, userId: string, path: Path)
    requires Start(w) && w.sys.limit >= 0 && !w.sys.reserve && b.position == 0 && b.bytes != []
    requires !Present(w.sys.disk, d) && w.sys.used + 2 * |b.bytes| <= w.sys.total
    ensures
      var t := w.sys.nextTask;
      var end := Run(w, SendTwice(t, d, b, userId, path)).sys;
      && t in end.tasks && end.tasks[t] == Finalising(d, b)
      && d in end.store.files && end.store.files[d].completed && end.store.files[d].size == 2 * |b.bytes|
      && d in end.disk && end.disk[d] == b.bytes
  {
    hide Run, Step, Observe, RecordWrite, TickOver, WriteAt;
    var t, es := w.sys.nextTask, SendTwice(w.sys.nextTask, d, b, userId, path);
    var s1 := Step(w.sys, es[0]);
    var s3 := Step(Step(s1, es[1]), es[2]);
    var s4 := Step(s3, es[3]);
    var s5 := Step(s4, es[4]);
    var s6 := Step(s5, es[5]);
    SentTwice(w.sys, d, b, userId, path);
    TickTakesFirst(s3, d, b);
    FirstLands(s4, t, d, b);
    SecondLands(s5, t, d, b);
    RunSix(w, es);
  }

  lemma RunSix(w: Watch, es: seq<Event>)
    requires |es| == 6
    ensures Run(w, es).sys == Step(Step(Step(Step(Step(Step(w.sys, es[0]), es[1]), es[2]), es[3]), es[4]), es[5])
  {
    hide Run, Step, Observe;
    var w1 := Advance(w, es[0]);
    var w2 := Advance(w1, es[1]);
    var w3 := Advance(w2, es[2]);
    var w4 := Advance(w3, es[3]);
    var w5 := Advance(w4, es[4]);
    RunFrom(w, es, 0);
    RunFrom(w1, es, 1);
    RunFrom(w2, es, 2);
    RunFrom(w3, es, 3);
    RunFrom(w4, es, 4);
    RunFrom(w5, es, 5);
    assert es[0..] == es && es[6..] == [];
  }

  lemma RunFrom(w: Watch, es: seq<Event>, k: nat)
    requires k < |es|
    ensures Run(w, es[k..]) == Run(Advance(w, es[k]), es[k + 1..])
    ensures Run(Advance(w, es[k]), []) == Advance(w, es[k])
  {
    assert es[k..][1..] == es[k + 1..];
  }

  lemma SentTwice(s: Sys, d: Path, b: Blob, userId: string, path: Path)
    requires s.store == Store([], map[]) && s.tasks == map[] && !s.reserve && !Present(s.disk, d)
    requires s.used + 2 * |b.bytes| <= s.total
    ensures
      var s3 := Step(Step(Step(s, Init(d, 2 * |b.bytes|, userId, path, false)), Receive(d, b)), Receive(d, b));
      && s3.store.dirs == [d] && s3.store.files.Keys == {d} && s3.limit == s.limit && s3.nextTask == s.nextTask
      && s3.tasks == map[] && d !in s3.disk
      && var u := s3.store.files[d];
      && u.size == 2 * |b.bytes| && u.blobs == [b, b] && !u.writting && u.saved == 0 && u.bytesWritten == []
  {
    assert Below(s.disk, d) == {} && (d in s.disk ==> d in Below(s.disk, d));
    assert [b] + [b] == [b, b];
  }

  lemma TickTakesFirst(s: Sys, d: Path, b: Blob)
    requires s.store.dirs == [d] && s.store.files.Keys == {d} && s.limit >= 0
    requires s.store.files[d].blobs == [b, b] && !s.store.files[d].writting
    ensures
      var s' := Step(s, Tick);
      && s'.store.files.Keys == {d} && s'.disk == s.disk
      && s.nextTask in s'.tasks && s'.tasks[s.nextTask] == Writing(d, b)
      && s'.store.files[d] == s.store.files[d].(blobs := [b], writting := true)
  {
    assert [d][..0] == [];
    assert SumOver([d], s.store.files, Flag) == SumOver([], s.store.files, Flag) + Flag(s.store.files[d]);
    assert TickOver(s, [d]) == StartWriter(TickOver(s, []), d);
    assert [b, b][..1] == [b];
  }

  lemma FirstLands(s: Sys, t: nat, d: Path, b: Blob)
    requires t in s.tasks && s.tasks[t] == Writing(d, b) && b.position == 0 && b.bytes != []
    requires s.store.files.Keys == {d} && d !in s.disk
    requires var u := s.store.files[d]; u.size == 2 * |b.bytes| && u.blobs == [b] && u.bytesWritten == []
    ensures
      var s' := Step(s, WriteDone(t));
      && t in s'.tasks && s'.tasks[t] == Writing(d, b) && s'.store.files.Keys == {d}
      && d in s'.disk && s'.disk[d] == b.bytes
      && var u := s'.store.files[d];
      && u.size == 2 * |b.bytes| && u.blobs == [] && u.bytesWritten == [BlobRange(b)]
  {
    hide RecordWrite, WriteAt;
    var u := RecordWrite(s.store.files[d], b);
    RecordedFields(s.store.files[d], b);
    FirstRange(s.store.files[d], b);
    assert WriteAt([], 0, b.bytes) == b.bytes by { WholeWrite([], b.bytes); }
    assert [b][..0] == [];
  }

  lemma WholeWrite(content: seq<Byte>, bytes: seq<Byte>)
    requires |content| <= |bytes|
    ensures WriteAt(content, 0, bytes) == bytes
  {
    var r := WriteAt(content, 0, bytes);
    if bytes != [] { assert r == r[0..|bytes|]; }
  }

  lemma SecondLands(s: Sys, t: nat, d: Path, b: Blob)
    requires t in s.tasks && s.tasks[t] == Writing(d, b) && b.position == 0 && b.bytes != []
    requires s.store.files.Keys == {d} && d in s.disk && s.disk[d] == b.bytes
    requires var u := s.store.files[d]; u.size == 2 * |b.bytes| && u.blobs == [] && u.bytesWritten == [BlobRange(b)]
    ensures
      var s' := Step(s, WriteDone(t));
      && t in s'.tasks && s'.tasks[t] == Finalising(d, b)
      && d in s'.store.files && s'.store.files[d].completed && s'.store.files[d].size == 2 * |b.bytes|
      && d in s'.disk && s'.disk[d] == b.bytes
  {
    hide RecordWrite, WriteAt, ContinueLoop;
    RecordedFields(s.store.files[d], b);
    SecondRange(s.store.files[d], b);
    WholeWrite(b.bytes, b.bytes);
  }

  lemma SecondRange(u: Upload, b: Blob)
    requires u.bytesWritten == [BlobRange(b)]
    ensures RecordWrite(u, b).saved == 2 * |b.bytes|
  {
    var one, two := [BlobRange(b)], [BlobRange(b), BlobRange(b)];
    assert u.(writting := false).bytesWritten + one == two && two[..1] == one && one[..0] == [];
    assert SumRanges(one) == SumRanges([]) + |b.bytes| && SumRanges(two) == SumRanges(one) + |b.bytes|;
  }

  // ----- Requests that overlap -----

  /**
   * An initialisation waits between its checks and its creation. Whatever happened meanwhile, the creation keeps
   * listing and record in step if and only if the path has not been listed by another request.
   */
  lemma LateCreationConsistentIff(s: Sys, d: Path, size: nat, userId: string, path: Path)
    requires s.store.Consistent()
    ensures Create(s, d, size, userId, path).store.Consistent() <==> d !in s.store.files
  {
    var dirs := s.store.dirs + [d];
    if d in s.store.files {
      assert d in s.store.dirs;
      var i :| 0 <= i < |s.store.dirs| && s.store.dirs[i] == d;
      assert dirs[i] == dirs[|s.store.dirs|];
    } else {
      AppendNoDup(s.store.dirs, d);
    }
  }

  /**
   * Two requests for one path that both passed the checks: the path is listed twice over the record of the second,
   * whose declared size then counts twice, until one deletion removes both.
   */
  lemma TwoRequestsForOnePath(s: Sys, d: Path, first: nat, second: nat, userId: string, path: Path)
    requires s.store.Consistent() && d !in s.store.files
    ensures
      var both := Create(Create(s, d, first, userId, path), d, second, userId, path);
      && !both.store.Consistent() && both.store.files[d].size == second
      && both.store.SpaceToUse() == s.store.SpaceToUse() + 2 * second
      && both.store.DelFile(d) == s.store
  {
    hide Reservation, Store.Consistent, Store.DelFile, Store.SpaceToUse;
    var one := Create(s, d, first, userId, path);
    LateCreationConsistentIff(s, d, first, userId, path);
    LateCreationConsistentIff(one, d, second, userId, path);
    ListedTwice(s.store, d, first, second, userId, path);
  }

  lemma ListedTwice(st: Store, d: Path, first: nat, second: nat, userId: string, path: Path)
    requires st.Consistent() && d !in st.files
    ensures
      var both := st.CreateFileTemp(d, first, userId, path).CreateFileTemp(d, second, userId, path);
      both.SpaceToUse() == st.SpaceToUse() + 2 * second && both.DelFile(d) == st
  {
    hide Without, SumOver, NoDup;
    var both := st.CreateFileTemp(d, first, userId, path).CreateFileTemp(d, second, userId, path);
    var dirs, files := st.dirs, both.files;
    assert d !in dirs;
    SumFrame(dirs, st.files, files, DeclaredSize);
    SumSnoc(dirs, files, DeclaredSize, d);
    SumSnoc(dirs + [d], files, DeclaredSize, d);
    WithoutAbsent(dirs, d);
    WithoutSnoc(dirs, d);
    WithoutSnoc(dirs + [d], d);
    assert files - {d} == st.files;
  }

  // ----- Why a path must be idle when it is initialised again -----

  /**
   * Whenever a path is initialised again while a chunk of an earlier upload to it is being written, that chunk counts
   * for the new upload: nothing has been received for it, yet it has saved the chunk's length, and it is found
   * complete if it is declared no longer than that.
   */
  lemma ReinitialisedDuringWrite(s: Sys, t: nat, size: nat, userId: string, path: Path, overwrite: bool)
    requires s.store.Consistent() && t in s.tasks && s.tasks[t].Writing? && s.tasks[t].blob.position >= 0
    requires VerdictOf(s, s.tasks[t].dir, size, overwrite) == Created
    ensures
      var Writing(d, b) := s.tasks[t];
      var end := Step(Step(s, Init(d, size, userId, path, overwrite)), WriteDone(t));
      && d in end.store.files
      && var u := end.store.files[d];
      && u.received == 0 && u.blobs == [] && u.saved == |b.bytes|
      && (u.completed <==> size <= |b.bytes|)
      && (size <= |b.bytes| ==> t in end.tasks && end.tasks[t].Finalising?)
  {
    hide WriteAt, Reservation, RemoveTree, Present;
    var Writing(d, b) := s.tasks[t];
    var s1 := Step(s, Init(d, size, userId, path, overwrite));
    var u := s1.store.files[d];
    FirstRange(u, b);
    var end := Step(s1, WriteDone(t));
    assert s1.tasks[t] == Writing(d, b);
    assert end.store.files[d] == RecordWrite(u, b);
  }

  lemma FirstRange(u: Upload, b: Blob)
    requires u.bytesWritten == []
    ensures RecordWrite(u, b).saved == |b.bytes| && RecordWrite(u, b).bytesWritten == [BlobRange(b)]
  {
    var ranges := [BlobRange(b)];
    assert u.(writting := false).bytesWritten + ranges == ranges;
    assert ranges[..|ranges| - 1] == [];
    assert SumRanges(ranges) == SumRanges([]) + |b.bytes|;
    assert RecordWrite(u, b).bytesWritten == ranges;
  }

  /** Removing a folder leaves the record of an upload inside it as it was, but not its file. */
  lemma FolderRemovedAroundUpload(s: Sys, folder: Path, d: Path)
    requires d in s.store.files && folder + "/" <= d && folder !in s.store.files
    ensures Step(s, Delete(folder)).store == s.store && d !in Step(s, Delete(folder)).disk
  {
    assert |folder| < |d|;
    assert d in s.disk ==> d in Below(s.disk, folder);
  }

  /**
   * When that happens during a write, the record goes on as without the removal, completion included, but the chunk
   * being written is all that is left of the file.
   */
  lemma FolderRemovedDuringWrite(s: Sys, t: nat, folder: Path)
    requires t in s.tasks && s.tasks[t].Writing? && s.tasks[t].blob.position >= 0
    requires s.tasks[t].dir in s.store.files && folder + "/" <= s.tasks[t].dir
    ensures
      var Writing(d, b) := s.tasks[t];
      var intact, end := Step(s, WriteDone(t)), Step(Step(s, Delete(folder)), WriteDone(t));
      && d in end.store.files && d in intact.store.files && end.store.files[d] == intact.store.files[d]
      && end.tasks == intact.tasks
      && d in end.disk && end.disk[d] == WriteAt([], b.position, b.bytes)
  {
    hide WriteAt, RecordWrite, Without, Below, RemoveTree, Reservation, Present;
    var Writing(d, b) := s.tasks[t];
    assert |folder| < |d|;
    assert d !in RemoveTree(s.disk, folder) by { RemoveTreeOthers(s.disk, folder, d); }
    var s1 := Step(s, Delete(folder));
    assert s1.store.files[d] == s.store.files[d] && d !in s1.disk;
  }

  /** And while an earlier upload is still being finalised, that loop removes the new upload from the store. */
  lemma ReinitialisedDuringFinalisation(s: Sys, t: nat, size: nat, userId: string, path: Path, overwrite: bool)
    requires s.store.Consistent() && t in s.tasks && s.tasks[t].Finalising?
    requires VerdictOf(s, s.tasks[t].dir, size, overwrite) == Created
    ensures
      var d := s.tasks[t].dir;
      var created := Step(s, Init(d, size, userId, path, overwrite));
      d in created.store.files && d !in Step(created, Finalise(t)).store.files
  {
    hide Reservation, RemoveTree, Present;
  }
}
