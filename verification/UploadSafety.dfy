/**
 * What every run of the upload machine keeps, as long as the client sends each part of its file once and no path is
 * initialised again while a loop still works on its previous upload.
 *
 * A run is observed beside the machine: per upload, the chunks that arrived, the chunks that reached the disk
 * (in order), those that a failed write put back into the queue, and those that were queued once more because
 * finalising failed.
 */
module UploadSafety {
  import opened Basics
  import opened Seqs
  import opened TempStorage
  import opened UploadMachine
  import opened UploadCoverage

  datatype History = History(arrivals: seq<Blob>, landed: seq<Blob>, failed: seq<Blob>, redone: seq<Blob>)

  type Histories = map<Path, History>

  const NewHistory := History([], [], [], [])

  function Past(h: Histories, d: Path): History {
    if d in h then h[d] else NewHistory
  }

  /** How event `e`, taken in state `s`, extends the observations. */
  function Observe(h: Histories, s: Sys, e: Event): Histories {
    match e
    case Init(d, size, _, _, overwrite) =>
      if VerdictOf(s, d, size, overwrite) == Created then h[d := NewHistory] else h
    case Receive(d, b) =>
      if d in s.store.files then h[d := Past(h, d).(arrivals := Past(h, d).arrivals + [b])] else h
    case WriteDone(t) =>
      if t in s.tasks && s.tasks[t].Writing? && s.tasks[t].blob.position >= 0 && s.tasks[t].dir in s.store.files
      then
        var Writing(d, b) := s.tasks[t];
        h[d := Past(h, d).(landed := Past(h, d).landed + [b])]
      else h
    case WriteFail(t, touched, landed) =>
      if t in s.tasks && s.tasks[t].Writing? && landed <= |s.tasks[t].blob.bytes|
         && (touched ==> s.tasks[t].blob.position >= 0) && s.tasks[t].dir in s.store.files
      then
        var Writing(d, b) := s.tasks[t];
        h[d := Past(h, d).(failed := Past(h, d).failed + [b])]
      else h
    case FinaliseFail(t) =>
      if t in s.tasks && s.tasks[t].Finalising? && s.tasks[t].dir in s.store.files
      then
        var Finalising(d, b) := s.tasks[t];
        h[d := Past(h, d).(redone := Past(h, d).redone + [b])]
      else h
    case _ => h
  }

  // ----- The hypotheses -----

  ghost predicate FreshChunk(b: Blob, size: nat, arrivals: seq<Blob>) {
    InBounds(b, size) && forall a :: a in arrivals ==> Apart(a, b)
  }

  /** No loop, suspended anywhere, works on path `d`. */
  ghost predicate Idle(s: Sys, d: Path) {
    forall t :: t in s.tasks ==> s.tasks[t].dir != d
  }

  /** No upload in progress has written anything inside the folder that `d` may name. */
  ghost predicate NothingWrittenInside(s: Sys, d: Path) {
    forall e :: e in s.store.files && s.store.files[e].bytesWritten != [] ==> !(d + "/" <= e)
  }

  /**
   * A well-formed client sends non-empty chunks of its file, none overlapping another; a path is not initialised
   * while a loop of an earlier upload to it is suspended; and no folder is removed in which an upload in progress has
   * written something.
   * Uploads may be deleted at any time, and every awaited operation may fail.
   */
  ghost predicate Orderly(s: Sys, h: Histories, e: Event) {
    match e
    case Init(d, size, _, _, overwrite) =>
      VerdictOf(s, d, size, overwrite) == Created ==> Idle(s, d) && NothingWrittenInside(s, d)
    case Receive(d, b) => d in s.store.files ==> FreshChunk(b, s.store.files[d].size, Past(h, d).arrivals)
    case Delete(d) => NothingWrittenInside(s, d)
    case _ => true
  }

  // ----- The invariant of one upload -----

  ghost function TaskOn(tasks: map<nat, Task>, d: Path): Option<nat> {
    if exists t :: t in tasks && tasks[t].dir == d
    then var t :| t in tasks && tasks[t].dir == d; Some(t)
    else None
  }

  ghost function TaskFor(tasks: map<nat, Task>, d: Path): Option<Task> {
    match TaskOn(tasks, d) case Some(t) => Some(tasks[t]) case None => None
  }

  function Flight(task: Option<Task>): seq<Blob> {
    if task.Some? && task.value.Writing? then [task.value.blob] else []
  }

  predicate IsFinalising(task: Option<Task>) {
    task.Some? && task.value.Finalising?
  }

  /** Every chunk of an upload in the order of its turn: on disk, in flight, queued. */
  function Line(u: Upload, task: Option<Task>, landed: seq<Blob>): seq<Blob> {
    landed + Flight(task) + Reverse(u.blobs)
  }

  function Ranges(line: seq<Blob>): seq<Range> {
    if line == [] then [] else Ranges(line[..|line| - 1]) + [BlobRange(line[|line| - 1])]
  }

  /** The service's bookkeeping agrees with what happened to the chunks. */
  ghost predicate Accounted(u: Upload, task: Option<Task>, h: History) {
    && multiset(Line(u, task, h.landed)) == multiset(h.arrivals) + multiset(h.redone)
    && (h.failed == [] ==> Line(u, task, h.landed) == h.arrivals + h.redone)
    && u.received == SumLens(Line(u, task, h.landed)) + SumLens(h.failed)
    && u.bytesWritten == Ranges(h.landed)
    && u.saved == SumLens(h.landed)
  }

  /** The upload has been found complete, now or before a failed finalisation. */
  predicate FoundComplete(task: Option<Task>, h: History) {
    IsFinalising(task) || h.redone != []
  }

  /**
   * The upload's loop is in the phase that the flag and the byte count say. Once the upload has been found complete,
   * every chunk has landed, and the loop has at most one chunk to write again.
   */
  ghost predicate InPhase(u: Upload, task: Option<Task>, h: History) {
    && u.writting == (task.Some? && task.value.Writing?)
    && (forall b :: b in h.redone ==> b in h.arrivals)
    && if FoundComplete(task, h) then
         && u.saved >= u.size && SumLens(h.arrivals) >= u.size
         && (forall a :: a in h.arrivals ==> a in h.landed)
         && if IsFinalising(task) then u.blobs == [] && task.value.blob in h.landed
            else |Flight(task) + u.blobs| == 1
       else h.landed == [] || u.saved < u.size
  }

  ghost predicate OnDisk(u: Upload, h: History, content: Option<seq<Byte>>) {
    && (h.landed != [] ==> content.Some?)
    && (content.Some? ==>
          && |content.value| <= u.size
          && forall b :: b in h.landed ==> Holds(content.value, b))
  }

  ghost predicate UploadOk(u: Upload, task: Option<Task>, h: History, content: Option<seq<Byte>>) {
    && Tidy(h.arrivals, u.size)
    && Accounted(u, task, h)
    && InPhase(u, task, h)
    && OnDisk(u, h, content)
  }

  // ----- Consequences of the accounting -----

  /** Every chunk of the line is one of the client's. */
  lemma LineArrived(u: Upload, task: Option<Task>, h: History, b: Blob)
    requires Accounted(u, task, h) && InPhase(u, task, h) && b in Line(u, task, h.landed)
    ensures b in h.arrivals
  {
    hide Line;
    assert b in multiset(Line(u, task, h.landed));
    assert b in multiset(h.arrivals) + multiset(h.redone);
    assert b in h.arrivals || b in h.redone;
  }

  lemma LineBytes(u: Upload, task: Option<Task>, h: History)
    requires Accounted(u, task, h)
    ensures SumLens(Line(u, task, h.landed)) == SumLens(h.arrivals) + SumLens(h.redone)
  {
    hide Line;
    assert multiset(h.arrivals + h.redone) == multiset(h.arrivals) + multiset(h.redone);
    SumLensPermutation(Line(u, task, h.landed), h.arrivals + h.redone);
    SumLensConcat(h.arrivals, h.redone);
  }

  lemma LineParts(u: Upload, task: Option<Task>, landed: seq<Blob>)
    ensures
      var line := Line(u, task, landed);
      && SumLens(line) == SumLens(landed) + SumLens(Flight(task)) + SumLens(Reverse(u.blobs))
      && (forall b :: b in landed || b in Flight(task) || b in Reverse(u.blobs) ==> b in line)
  {
    SumLensConcat(landed + Flight(task), Reverse(u.blobs));
    SumLensConcat(landed, Flight(task));
  }

  // ----- One upload through each kind of step -----

  lemma NewUploadOk(size: nat, userId: string, path: Path, content: Option<seq<Byte>>)
    requires content.Some? ==> |content.value| <= size
    ensures UploadOk(Upload(size, 0, 0, [], false, [], false, path, userId), None, NewHistory, content)
  {}

  /** An upload of which nothing has landed needs nothing on disk. */
  lemma UnwrittenOk(u: Upload, task: Option<Task>, h: History, content: Option<seq<Byte>>)
    requires UploadOk(u, task, h, content)
    ensures (u.bytesWritten == [] <==> h.landed == []) && (UploadOk(u, task, h, None) <==> u.bytesWritten == [])
  {
    hide Tidy, InPhase;
    SumRangesOfBlobs(h.landed);
  }

  lemma AllocateLine(u: Upload, task: Option<Task>, b: Blob, landed: seq<Blob>)
    ensures Line(Allocate(u, b), task, landed) == Line(u, task, landed) + [b]
  {
    assert Allocate(u, b).blobs[1..] == u.blobs;
    assert landed + Flight(task) + (Reverse(u.blobs) + [b]) == landed + Flight(task) + Reverse(u.blobs) + [b];
  }

  /** All bytes of a completed upload have arrived, so no further chunk can be disjoint from them. */
  lemma CompletedAdmitsNoChunk(u: Upload, task: Option<Task>, h: History, content: Option<seq<Byte>>, b: Blob)
    requires UploadOk(u, task, h, content) && FreshChunk(b, u.size, h.arrivals)
    ensures !FoundComplete(task, h)
  {
    hide Accounted, OnDisk, Tidy;
    if FoundComplete(task, h) {
      AppendTidy(h.arrivals, b, u.size);
      CoverSize(h.arrivals + [b], u.size);
      SumLensConcat(h.arrivals, [b]);
      SumLensSingle(b);
      assert false;
    }
  }

  lemma AppendTidy(arrivals: seq<Blob>, b: Blob, size: nat)
    requires Tidy(arrivals, size) && FreshChunk(b, size, arrivals)
    ensures Tidy(arrivals + [b], size)
  {}

  lemma ReceiveOk(u: Upload, task: Option<Task>, h: History, content: Option<seq<Byte>>, b: Blob)
    requires UploadOk(u, task, h, content) && FreshChunk(b, u.size, h.arrivals)
    ensures UploadOk(Allocate(u, b), task, h.(arrivals := h.arrivals + [b]), content)
  {
    CompletedAdmitsNoChunk(u, task, h, content, b);
    hide Accounted, Tidy, OnDisk, FreshChunk, InPhase, Allocate;
    AppendTidy(h.arrivals, b, u.size);
    ReceivePhase(u, task, h, b);
    ReceiveAccounted(u, task, h, b);
    assert OnDisk(Allocate(u, b), h.(arrivals := h.arrivals + [b]), content) by { DiskUnaffected(u, b, h, content); }
  }

  lemma ReceivePhase(u: Upload, task: Option<Task>, h: History, b: Blob)
    requires InPhase(u, task, h) && !FoundComplete(task, h)
    ensures InPhase(Allocate(u, b), task, h.(arrivals := h.arrivals + [b]))
  {}

  lemma DiskUnaffected(u: Upload, b: Blob, h: History, content: Option<seq<Byte>>)
    requires OnDisk(u, h, content)
    ensures OnDisk(Allocate(u, b), h.(arrivals := h.arrivals + [b]), content)
  {}

  lemma ReceiveAccounted(u: Upload, task: Option<Task>, h: History, b: Blob)
    requires Accounted(u, task, h) && h.redone == []
    ensures Accounted(Allocate(u, b), task, h.(arrivals := h.arrivals + [b]))
  {
    hide Line, SumLens;
    var line := Line(u, task, h.landed);
    AllocateLine(u, task, b, h.landed);
    SumLensConcat(line, [b]);
    SumLensSingle(b);
    assert h.arrivals + [] == h.arrivals && h.arrivals + [b] + [] == h.arrivals + [b];
    assert multiset(line + [b]) == multiset(h.arrivals + [b]) + multiset(h.redone);
  }

  /** Taking the oldest queued chunk does not change the line. */
  lemma PopLine(u: Upload, d: Path, landed: seq<Blob>)
    requires u.blobs != []
    ensures Line(Deallocate(u.(writting := true)), Some(Writing(d, Oldest(u))), landed)
         == Line(u.(writting := false), None, landed)
  {
    var rest := u.blobs[..|u.blobs| - 1];
    assert u.blobs == rest + [Oldest(u)];
    ReverseSnoc(rest, Oldest(u));
    assert landed + [Oldest(u)] + Reverse(rest) == landed + [] + ([Oldest(u)] + Reverse(rest));
  }

  lemma PopOk(u: Upload, h: History, content: Option<seq<Byte>>, d: Path)
    requires UploadOk(u.(writting := false), None, h, content) && u.blobs != []
    ensures UploadOk(Deallocate(u.(writting := true)), Some(Writing(d, Oldest(u))), h, content)
  {
    hide Tidy, Holds, Line, SumLens;
    PopLine(u, d, h.landed);
  }

  function Bytes(content: Option<seq<Byte>>): seq<Byte> {
    if content.Some? then content.value else []
  }

  /** The chunk in flight is in bounds, and every landed chunk is disjoint from it or the same chunk. */
  lemma FlightApart(u: Upload, d: Path, b: Blob, h: History)
    requires Tidy(h.arrivals, u.size)
    requires Accounted(u, Some(Writing(d, b)), h) && InPhase(u, Some(Writing(d, b)), h)
    ensures InBounds(b, u.size)
    ensures forall a :: a in h.landed ==> a == b || Apart(a, b)
  {
    hide Accounted, InPhase, Tidy, Line;
    var task := Some(Writing(d, b));
    LineParts(u, task, h.landed);
    LineArrived(u, task, h, b);
    TidyMembers(h.arrivals, u.size, b, b);
    forall a | a in h.landed ensures a == b || Apart(a, b) {
      LineArrived(u, task, h, a);
      TidyMembers(h.arrivals, u.size, a, b);
    }
  }

  /** Writing (part of) a chunk keeps every chunk that is disjoint from it or equal, and stays inside the file. */
  lemma WriteKeepsAll(content: seq<Byte>, b: Blob, cut: nat, landed: seq<Blob>, size: nat)
    requires InBounds(b, size) && cut <= |b.bytes| && |content| <= size
    requires forall a :: a in landed ==> Holds(content, a) && (a == b || Apart(a, b))
    ensures |WriteAt(content, b.position, b.bytes[..cut])| <= size
    ensures forall a :: a in landed ==> Holds(WriteAt(content, b.position, b.bytes[..cut]), a)
  {
    forall a | a in landed ensures Holds(WriteAt(content, b.position, b.bytes[..cut]), a) {
      WriteKeeps(content, b, cut, a);
    }
  }

  lemma WriteHolds(content: seq<Byte>, b: Blob)
    requires b.position >= 0 && b.bytes != []
    ensures Holds(WriteAt(content, b.position, b.bytes), b)
  {}

  lemma WriteOnDisk(u: Upload, d: Path, b: Blob, h: History, content: Option<seq<Byte>>, cut: nat)
    requires UploadOk(u, Some(Writing(d, b)), h, content) && cut <= |b.bytes|
    ensures b.position >= 0
    ensures OnDisk(u, h, Some(WriteAt(Bytes(content), b.position, b.bytes[..cut])))
    ensures OnDisk(u, h.(landed := h.landed + [b]), Some(WriteAt(Bytes(content), b.position, b.bytes)))
  {
    hide Accounted, InPhase, Holds, Tidy, WriteAt, Apart;
    FlightApart(u, d, b, h);
    WriteKeepsAll(Bytes(content), b, cut, h.landed, u.size);
    WriteKeepsAll(Bytes(content), b, |b.bytes|, h.landed, u.size);
    assert b.bytes[..|b.bytes|] == b.bytes;
    WriteHolds(Bytes(content), b);
  }

  lemma LandSaved(u: Upload, b: Blob, h: History)
    requires u.bytesWritten == Ranges(h.landed)
    ensures RecordWrite(u, b).bytesWritten == Ranges(h.landed + [b])
    ensures RecordWrite(u, b).saved == SumLens(h.landed + [b]) == SumLens(h.landed) + |b.bytes|
  {
    assert (h.landed + [b])[..|h.landed|] == h.landed;
    SumRangesOfBlobs(h.landed + [b]);
  }

  lemma LandLine(u: Upload, d: Path, b: Blob, landed: seq<Blob>, task': Option<Task>)
    requires Flight(task') == []
    ensures Line(RecordWrite(u, b), task', landed + [b]) == Line(u, Some(Writing(d, b)), landed)
  {
    assert landed + [b] + [] + Reverse(u.blobs) == landed + [b] + Reverse(u.blobs);
  }

  /** While an upload is not complete, what has landed is short of it by exactly the bytes still outstanding. */
  lemma Outstanding(u: Upload, d: Path, b: Blob, h: History, content: Option<seq<Byte>>)
    requires UploadOk(u, Some(Writing(d, b)), h, content) && h.redone == []
    ensures SumLens(h.landed + [b]) + SumLens(Reverse(u.blobs)) == SumLens(h.arrivals) <= u.size
    ensures u.blobs != [] ==> SumLens(Reverse(u.blobs)) > 0
    ensures u.blobs == [] ==> forall a :: a in h.arrivals ==> a in h.landed + [b]
  {
    hide Holds, Tidy;
    var task := Some(Writing(d, b));
    var line := Line(u, task, h.landed);
    LineBytes(u, task, h);
    SumLensConcat(h.landed + [b], Reverse(u.blobs));
    CoverSize(h.arrivals, u.size);
    if u.blobs != [] {
      var q := Reverse(u.blobs);
      var last := q[|q| - 1];
      LineParts(u, task, h.landed);
      LineArrived(u, task, h, last);
      TidyMembers(h.arrivals, u.size, last, last);
    } else {
      assert line == h.landed + [b];
      forall a | a in h.arrivals ensures a in h.landed + [b] {
        assert a in multiset(h.arrivals) + multiset(h.redone);
        assert a in multiset(line);
      }
    }
  }

  lemma LandPhase(u: Upload, d: Path, b: Blob, h: History, content: Option<seq<Byte>>)
    requires UploadOk(u, Some(Writing(d, b)), h, content)
    ensures
      var u' := RecordWrite(u, b);
      InPhase(u', if u'.completed then Some(Finalising(d, b)) else None, h.(landed := h.landed + [b]))
  {
    hide Tidy, OnDisk, SumLens, SumRanges, UpdateBytesWritten, Line, Ranges, Reverse;
    RecordedFields(u, b);
    LandSaved(u, b, h);
    if h.redone == [] {
      Outstanding(u, d, b, h, content);
    }
  }

  lemma RecordedFields(u: Upload, b: Blob)
    ensures var u' := RecordWrite(u, b);
      !u'.writting && u'.blobs == u.blobs && u'.size == u.size && u'.received == u.received
      && u'.completed == Complete(u')
  {}

  lemma LandOk(u: Upload, d: Path, b: Blob, h: History, content: Option<seq<Byte>>)
    requires UploadOk(u, Some(Writing(d, b)), h, content)
    ensures
      var u' := RecordWrite(u, b);
      b.position >= 0 &&
      UploadOk(u', if u'.completed then Some(Finalising(d, b)) else None, h.(landed := h.landed + [b]),
               Some(WriteAt(Bytes(content), b.position, b.bytes)))
  {
    hide InPhase, Tidy, Holds, Line, SumLens, SumRanges;
    var u' := RecordWrite(u, b);
    var task' := if u'.completed then Some(Finalising(d, b)) else None;
    LandLine(u, d, b, h.landed, task');
    LandSaved(u, b, h);
    LandPhase(u, d, b, h, content);
    WriteOnDisk(u, d, b, h, content, 0);
    RecordedFields(u, b);
  }

  lemma RequeueLine(u: Upload, b: Blob, landed: seq<Blob>)
    ensures Line(Allocate(u, b).(writting := false), None, landed) == landed + Reverse(u.blobs) + [b]
  {
    assert Allocate(u, b).blobs[1..] == u.blobs;
    assert landed + [] + (Reverse(u.blobs) + [b]) == landed + Reverse(u.blobs) + [b];
  }

  lemma RequeueSum(a: seq<Blob>, b: Blob, c: seq<Blob>, failed: seq<Blob>)
    ensures SumLens(a + c + [b]) == SumLens(a + [b] + c)
    ensures SumLens(failed + [b]) == SumLens(failed) + |b.bytes|
    ensures multiset(a + c + [b]) == multiset(a + [b] + c)
  {
    SumLensConcat(a + c, [b]);
    SumLensConcat(a, c);
    SumLensConcat(a + [b], c);
    SumLensConcat(a, [b]);
    SumLensConcat(failed, [b]);
    SumLensSingle(b);
  }

  /** A failed write may have put a first part of its chunk on disk; the chunk goes to the end of the line. */
  lemma RequeueOk(u: Upload, d: Path, b: Blob, h: History, content: Option<seq<Byte>>, touched: bool, cut: nat)
    requires UploadOk(u, Some(Writing(d, b)), h, content) && cut <= |b.bytes|
    ensures
      b.position >= 0 &&
      UploadOk(Allocate(u, b).(writting := false), None, h.(failed := h.failed + [b]),
               if touched then Some(WriteAt(Bytes(content), b.position, b.bytes[..cut])) else content)
  {
    hide Tidy, Holds, Line, Reverse, SumLens, InPhase, OnDisk, WriteAt;
    var u', rest := Allocate(u, b).(writting := false), Reverse(u.blobs);
    RequeueLine(u, b, h.landed);
    assert Line(u, Some(Writing(d, b)), h.landed) == h.landed + [b] + rest by { FlightLine(u, d, b, h.landed); }
    RequeueSum(h.landed, b, rest, h.failed);
    RequeueOnDisk(u, d, b, h, content, touched, cut);
    RequeuePhase(u, d, b, h);
    assert Accounted(u', None, h.(failed := h.failed + [b]));
  }

  lemma RequeueOnDisk(u: Upload, d: Path, b: Blob, h: History, content: Option<seq<Byte>>, touched: bool, cut: nat)
    requires UploadOk(u, Some(Writing(d, b)), h, content) && cut <= |b.bytes|
    ensures b.position >= 0
    ensures OnDisk(Allocate(u, b).(writting := false), h.(failed := h.failed + [b]),
                   if touched then Some(WriteAt(Bytes(content), b.position, b.bytes[..cut])) else content)
  {
    hide Tidy, Accounted, InPhase, Holds, WriteAt;
    WriteOnDisk(u, d, b, h, content, cut);
  }

  lemma RequeuePhase(u: Upload, d: Path, b: Blob, h: History)
    requires InPhase(u, Some(Writing(d, b)), h)
    ensures InPhase(Allocate(u, b).(writting := false), None, h.(failed := h.failed + [b]))
  {
    hide SumLens;
  }

  lemma FlightLine(u: Upload, d: Path, b: Blob, landed: seq<Blob>)
    ensures Line(u, Some(Writing(d, b)), landed) == landed + [b] + Reverse(u.blobs)
  {}

  /** A failed finalisation queues its chunk once more; the chunk has landed already. */
  lemma RedoOk(u: Upload, d: Path, b: Blob, h: History, content: Option<seq<Byte>>)
    requires UploadOk(u, Some(Finalising(d, b)), h, content)
    ensures UploadOk(Allocate(u, b).(writting := false), None, h.(redone := h.redone + [b]), content)
  {
    hide Tidy, Holds, SumLens, Line;
    RedoLine(u, d, b, h.landed);
    var u', line := Allocate(u, b).(writting := false), h.landed;
    SumLensConcat(line, [b]);
    SumLensSingle(b);
    assert h.arrivals + h.redone + [b] == h.arrivals + (h.redone + [b]);
    assert multiset(line + [b]) == multiset(h.arrivals) + multiset(h.redone + [b]);
    LineArrived(u, Some(Finalising(d, b)), h, b);
  }

  lemma RedoLine(u: Upload, d: Path, b: Blob, landed: seq<Blob>)
    requires u.blobs == []
    ensures Line(u, Some(Finalising(d, b)), landed) == landed
    ensures Line(Allocate(u, b).(writting := false), None, landed) == landed + [b]
  {
    RequeueLine(u, b, landed);
  }

  lemma {:induction false} SumRangesOfBlobs(line: seq<Blob>)
    ensures |Ranges(line)| == |line|
    ensures SumRanges(Ranges(line)) == SumLens(line)
  {
    if line != [] {
      var front := line[..|line| - 1];
      SumRangesOfBlobs(front);
      assert Ranges(line)[..|Ranges(line)| - 1] == Ranges(front);
    }
  }
}
