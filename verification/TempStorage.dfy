/**
 * The in-memory store of uploads in progress (src/temp-storage/temp-storage.service.ts).
 *
 * `Store` is the value of the service's two collections; the functions on it say what each operation does
 * to that value, and the class `TempStorageService` carries the operations out in place.
 */
module TempStorage {
  import opened Basics
  import opened Seqs

  type Path = string

  newtype Byte = x: int | 0 <= x < 256

  /** A chunk as the client sent it: `position` is a parsed query parameter, so it can be negative. */
  datatype Blob = Blob(position: int, bytes: seq<Byte>)

  datatype Range = Range(from: int, to: int)

  datatype Upload = Upload(
    size: nat,
    received: int,
    saved: int,
    bytesWritten: seq<Range>,
    completed: bool,
    blobs: seq<Blob>,
    writting: bool,
    path: Path,
    userId: string)

  /** `dirs` is `filesDirectories`, `files` is `storage`. */
  datatype Store = Store(dirs: seq<Path>, files: map<Path, Upload>) {

    /** The directory list has no duplicates and names exactly the stored uploads. */
    ghost predicate Consistent() {
      NoDup(dirs) && forall d :: d in dirs <==> d in files
    }

    /** How many uploads have their `writting` flag set. */
    function CountWritting(): int {
      SumOver(dirs, files, Flag)
    }

    /** Declared bytes of all uploads in progress. */
    function SpaceToUse(): int {
      SumOver(dirs, files, DeclaredSize)
    }

    function CreateFileTemp(d: Path, size: nat, userId: string, path: Path): Store {
      Store(dirs + [d], files[d := Upload(size, 0, 0, [], false, [], false, path, userId)])
    }

    function DelFile(d: Path): Store {
      Store(Without(dirs, d), files - {d})
    }

    function Put(d: Path, u: Upload): Store {
      Store(dirs, files[d := u])
    }
  }

  function Flag(u: Upload): int { if u.writting then 1 else 0 }

  function DeclaredSize(u: Upload): int { u.size }

  /** New chunks enter at the front of the queue and leave at its back. */
  function Allocate(u: Upload, b: Blob): Upload {
    u.(blobs := [b] + u.blobs, received := u.received + |b.bytes|)
  }

  function Deallocate(u: Upload): Upload
    requires u.blobs != []
  {
    u.(blobs := u.blobs[..|u.blobs| - 1])
  }

  function Oldest(u: Upload): Blob
    requires u.blobs != []
  {
    u.blobs[|u.blobs| - 1]
  }

  function SumRanges(rs: seq<Range>): int {
    if rs == [] then 0 else SumRanges(rs[..|rs| - 1]) + rs[|rs| - 1].to - rs[|rs| - 1].from
  }

  function BlobRange(b: Blob): Range {
    Range(b.position, b.position + |b.bytes|)
  }

  function UpdateBytesWritten(u: Upload, b: Blob): Upload {
    var ranges := u.bytesWritten + [BlobRange(b)];
    u.(bytesWritten := ranges, saved := SumRanges(ranges))
  }

  predicate Complete(u: Upload) {
    u.size == u.saved || u.size < u.saved
  }

  // ----- File contents -----

  function Zeros(n: nat): (r: seq<Byte>)
    ensures |r| == n
    ensures forall i :: 0 <= i < n ==> r[i] == 0
  {
    seq(n, _ => 0)
  }

  /** A positioned write: a gap past the end reads as zeros, and writing nothing leaves the length alone. */
  function WriteAt(content: seq<Byte>, position: nat, bytes: seq<Byte>): (r: seq<Byte>)
    ensures bytes == [] ==> r == content
    ensures bytes != [] ==>
      && |r| == (if |content| < position + |bytes| then position + |bytes| else |content|)
      && r[position..position + |bytes|] == bytes
    ensures forall i :: 0 <= i < |content| && !(position <= i < position + |bytes|) ==> r[i] == content[i]
    ensures forall i :: |content| <= i < position && bytes != [] ==> r[i] == 0
  {
    if bytes == [] then content
    else
      var padded := if |content| < position then content + Zeros(position - |content|) else content;
      padded[..position] + bytes + (if position + |bytes| < |padded| then padded[position + |bytes|..] else [])
  }

  // ----- The service -----

  /** `filesWritting` is a running count that is only read right after being recomputed from the flags. */
  class TempStorageService {
    const filesAtSameTime: int
    var filesWritting: int
    var filesDirectories: seq<Path>
    var storage: map<Path, Upload>

    ghost function State(): Store
      reads this
    {
      Store(filesDirectories, storage)
    }

    constructor (limit: int)
      ensures State() == Store([], map[]) && filesAtSameTime == limit && filesWritting == 0
    {
      filesAtSameTime := limit;
      filesWritting := 0;
      filesDirectories := [];
      storage := map[];
    }

    method CalculateWritting()
      modifies this`filesWritting
      ensures filesWritting == State().CountWritting()
    {
      var count := 0;
      for i := 0 to |filesDirectories|
        invariant count == SumOver(filesDirectories[..i], storage, Flag)
      {
        var d := filesDirectories[i];
        assert filesDirectories[..i + 1][..i] == filesDirectories[..i];
        if d in storage && storage[d].writting {
          count := count + 1;
        }
      }
      assert filesDirectories[..|filesDirectories|] == filesDirectories;
      filesWritting := count;
    }

    method AllowWriteMoreFiles() returns (ok: bool)
      modifies this`filesWritting
      ensures ok == (State().CountWritting() <= filesAtSameTime)
      ensures filesWritting == State().CountWritting()
    {
      CalculateWritting();
      ok := filesWritting <= filesAtSameTime;
    }

    method CreateFileTemp(realPath: Path, size: nat, userId: string, path: Path)
      modifies this`storage, this`filesDirectories
      ensures State() == old(State()).CreateFileTemp(realPath, size, userId, path)
    {
      filesDirectories := filesDirectories + [realPath];
      storage := storage[realPath := Upload(size, 0, 0, [], false, [], false, path, userId)];
    }

    /** Fails, where the service throws, exactly when the upload is gone. */
    method AllocateBlob(path: Path, blob: Blob) returns (ok: bool)
      modifies this`storage
      ensures ok == (path in old(storage))
      ensures storage == if ok then old(storage)[path := Allocate(old(storage)[path], blob)] else old(storage)
    {
      ok := path in storage;
      if ok {
        var u := storage[path];
        u := u.(blobs := [blob] + u.blobs);
        u := u.(received := u.received + |blob.bytes|);
        storage := storage[path := u];
      }
    }

    /** Without an upload, or with an empty queue, there is nothing to take. */
    method DeallocateBlob(path: Path) returns (blob: Option<Blob>)
      modifies this`storage
      ensures blob.Some? == (path in old(storage) && old(storage)[path].blobs != [])
      ensures blob.Some? ==>
        && blob.value == Oldest(old(storage)[path])
        && storage == old(storage)[path := Deallocate(old(storage)[path])]
      ensures blob.None? ==> storage == old(storage)
    {
      if path !in storage { return None; }
      var u := storage[path];
      if |u.blobs| == 0 { return None; }
      blob := Some(u.blobs[|u.blobs| - 1]);
      storage := storage[path := u.(blobs := u.blobs[..|u.blobs| - 1])];
    }

    method SetWritting(path: Path, newValue: bool)
      modifies this`storage, this`filesWritting
      ensures storage == if path in old(storage)
                         then old(storage)[path := old(storage)[path].(writting := newValue)] else old(storage)
      ensures filesWritting == old(filesWritting) + if path !in old(storage) then 0 else if newValue then 1 else -1
    {
      if path !in storage { return; }
      filesWritting := if newValue then filesWritting + 1 else filesWritting - 1;
      storage := storage[path := storage[path].(writting := newValue)];
    }

    /** Fails, where the service throws, exactly when the upload is gone. */
    method UpdateBytesWriten(path: Path, blob: Blob) returns (ok: bool)
      modifies this`storage
      ensures ok == (path in old(storage))
      ensures storage == if ok then old(storage)[path := UpdateBytesWritten(old(storage)[path], blob)] else old(storage)
    {
      ok := path in storage;
      if ok {
        var u := storage[path];
        var ranges := u.bytesWritten + [Range(blob.position, blob.position + |blob.bytes|)];
        var total := 0;
        for i := 0 to |ranges|
          invariant total == SumRanges(ranges[..i])
        {
          assert ranges[..i + 1][..i] == ranges[..i];
          total := total + (ranges[i].to - ranges[i].from);
        }
        assert ranges[..|ranges|] == ranges;
        storage := storage[path := u.(bytesWritten := ranges, saved := total)];
      }
    }

    method IsCompleted(path: Path) returns (done: bool)
      modifies this`storage
      ensures done == (path !in old(storage) || Complete(old(storage)[path]))
      ensures storage == if path in old(storage)
                         then old(storage)[path := old(storage)[path].(completed := done)] else old(storage)
    {
      if path !in storage { return true; }
      done := storage[path].size == storage[path].saved || storage[path].size < storage[path].saved;
      storage := storage[path := storage[path].(completed := done)];
    }

    method DelFile(path: Path)
      modifies this`storage, this`filesDirectories
      ensures State() == old(State()).DelFile(path)
    {
      filesDirectories := Without(filesDirectories, path);
      storage := storage - {path};
    }

    /** The service dereferences every listed directory, so each must still be stored. */
    method GetSpaceToUse() returns (nonWrittenBytes: int)
      requires forall d :: d in filesDirectories ==> d in storage
      ensures nonWrittenBytes == State().SpaceToUse()
    {
      nonWrittenBytes := 0;
      for i := 0 to |filesDirectories|
        invariant nonWrittenBytes == SumOver(filesDirectories[..i], storage, DeclaredSize)
      {
        assert filesDirectories[..i + 1][..i] == filesDirectories[..i];
        nonWrittenBytes := nonWrittenBytes + storage[filesDirectories[i]].size;
      }
      assert filesDirectories[..|filesDirectories|] == filesDirectories;
    }
  }
}
