/**
 * What makes a measurement good enough for the quota: the used space is measured by walking the generated tree of
 * the storage directory (src/files/files.service.ts:541-561), and the tree may lack what could not be read.
 */
module QuotaMeasure {
  import opened TempStorage
  import opened UploadMachine
  import opened Quota
  import DirTree
  import SpaceFolds

  datatype SizedFile = SizedFile(path: Path, size: nat)

  /** All files at and below the entries of a directory, with their paths. */
  function FilesOf(base: string, es: seq<DirTree.Entry>): seq<SizedFile>
    decreases es
  {
    if es == [] then [] else FilesOfOne(base, es[0]) + FilesOf(base, es[1..])
  }

  function FilesOfOne(base: string, e: DirTree.Entry): seq<SizedFile>
    decreases e
  {
    match e
    case Unreadable(_) => []
    case FileEntry(name, size) => [SizedFile(DirTree.Join(base, name), size)]
    case DirEntry(name, _, entries) => FilesOf(DirTree.Join(base, name), entries)
  }

  function Sizes(files: seq<SizedFile>): nat {
    if files == [] then 0 else files[0].size + Sizes(files[1..])
  }

  /** Every file is listed at its path with its length. */
  ghost predicate Shows(files: seq<SizedFile>, disk: map<Path, seq<Byte>>) {
    forall d :: d in disk ==> SizedFile(d, |disk[d]|) in files
  }

  lemma {:induction false} SizesConcat(a: seq<SizedFile>, b: seq<SizedFile>)
    ensures Sizes(a + b) == Sizes(a) + Sizes(b)
  {
    if a == [] {
      assert a + b == b;
    } else {
      assert (a + b)[1..] == a[1..] + b;
      SizesConcat(a[1..], b);
    }
  }

  lemma {:induction false} FilesWithinEntries(base: string, es: seq<DirTree.Entry>)
    ensures Sizes(FilesOf(base, es)) <= SpaceFolds.EntryBytes(es)
    decreases es
  {
    if es != [] {
      if es[0].DirEntry? { FilesWithinEntries(DirTree.Join(base, es[0].name), es[0].entries); }
      FilesWithinEntries(base, es[1..]);
      SizesConcat(FilesOfOne(base, es[0]), FilesOf(base, es[1..]));
    }
  }

  lemma {:induction false} ShownBytes(files: seq<SizedFile>, disk: map<Path, seq<Byte>>)
    requires Shows(files, disk)
    ensures DiskBytes(disk) <= Sizes(files)
  {
    hide DiskBytes;
    if files == [] {
      assert disk == map[];
      NothingOnDisk();
    } else {
      var SizedFile(d, n) := files[0];
      assert files == [files[0]] + files[1..];
      if d in disk && |disk[d]| == n {
        DiskBytesSplit(disk, d);
        ShownBytes(files[1..], disk - {d});
      } else {
        ShownBytes(files[1..], disk);
      }
    }
  }

  lemma NothingOnDisk()
    ensures DiskBytes(map[]) == 0
  {}

  /**
   * A measurement through the generated tree leaves no more unmeasured than the bytes that fall out of it with
   * unreadable folders; if none do, it is one the quota can rely on.
   */
  lemma MeasurementCoversFinishedFiles(s: Sys, debt: Debt, settled: bool, parent: string, dir: DirTree.Entry)
    requires dir.DirEntry? && DirTree.WellNamedOne(dir)
    requires Shows(FilesOf(DirTree.Join(parent, dir.name), dir.entries), Finished(s))
    ensures
      var tree := DirTree.Generate(DirTree.Join(parent, dir.name), dir, true).value.content;
      var measured := SpaceFolds.FileBytes(tree) + SpaceFolds.FolderBytes(tree);
      && DebtAfter(s, debt, Recount(measured)).unmeasured <= SpaceFolds.LostBytes(dir.entries, false)
      && (SpaceFolds.LostBytes(dir.entries, false) == 0 ==> Thrifty(s, settled, Recount(measured)))
  {
    hide DiskBytes;
    var path := DirTree.Join(parent, dir.name);
    SpaceFolds.MeasuredSpaceIsDirectorySize(parent, dir);
    FilesWithinEntries(path, dir.entries);
    ShownBytes(FilesOf(path, dir.entries), Finished(s));
  }
}
