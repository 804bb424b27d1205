/**
 * Used-space figures computed from trees: the total of `getUsedSpace`, the per-user total of `getUsedSpaceUser`
 * and the per-type figures of `getUsedSpaceByFileType` (src/files/files.service.ts:541-586 and 671-782).
 */
module SpaceFolds {
  import opened Seqs
  import opened DirTree
  import opened Ordering

  // ----- Specification: what is being added up -----

  function FileBytes(nodes: seq<Node>): nat
    decreases nodes
  {
    if nodes == [] then 0 else FileBytesOf(nodes[0]) + FileBytes(nodes[1..])
  }

  function FileBytesOf(n: Node): nat
    decreases n
  {
    match n
    case Null => 0
    case File(_, _, size) => size
    case Folder(_, _, content) => FileBytes(content)
  }

  function FolderBytes(nodes: seq<Node>): nat
    decreases nodes
  {
    if nodes == [] then 0 else FolderBytesOf(nodes[0]) + FolderBytes(nodes[1..])
  }

  function FolderBytesOf(n: Node): nat
    decreases n
  {
    match n
    case Null => 0
    case File(_, _, _) => 0
    case Folder(_, size, content) => size + FolderBytes(content)
  }

  function Category(extension: string, name: string): string {
    if extension in {"jpg", "jpeg", "png", "gif", "svg", "webp", "bmp", "ico", "tiff", "jfif", "avif", "viff"} then "image"
    else if extension in {"mp4", "mkv", "webm", "avi", "mov"} then "video"
    else if extension in {"mp3", "wav", "ogg", "flac"} then "audio"
    else if extension == "pdf" then "pdf"
    else if extension in {"7z", "zip", "gzip", "tar", "rar", "iso", "cbz", "cb7", "gz"} then "compressed"
    else if extension in {"doc", "docx", "xls", "xlsx", "ppt", "pptx", "odt", "ods", "odp"} then "document"
    else if extension in {"txt", "md", "json", "xml", "ini", "conf", "log", "csv", "CT", "ct"} then "text"
    else if extension == "sh" then "bash"
    else if extension == "swf" then "flash"
    else if extension == "exe" then "executable"
    else if Contains(name, ".7z") || Contains(name, ".zip") || Contains(name, ".gzip")
            || Contains(name, ".tar") || Contains(name, ".rar") then "compressed"
    else "other"
  }

  function TypeBytes(nodes: seq<Node>, t: string): nat
    decreases nodes
  {
    if nodes == [] then 0 else TypeBytesOf(nodes[0], t) + TypeBytes(nodes[1..], t)
  }

  function TypeBytesOf(n: Node, t: string): nat
    decreases n
  {
    match n
    case Null => 0
    case File(name, extension, size) => if Category(extension, name) == t then size else 0
    case Folder(_, _, content) => TypeBytes(content, t)
  }

  // ----- The folds with their shared accumulators -----

  /** `getUsedSpace`: a `null` throws inside the callback, which catches it, so it adds nothing. */
  class UsedSpace {
    var value: int

    constructor ()
      ensures value == 0
    {
      value := 0;
    }

    method OnForEach(file: Node)
      modifies this
      ensures value == old(value) + FileBytesOf(file) + FolderBytesOf(file)
      decreases file, 1
    {
      match file
      case Null =>
      case Folder(_, size, content) =>
        value := value + size;
        ForEach(content);
      case File(_, _, size) =>
        value := value + size;
    }

    method ForEach(content: seq<Node>)
      modifies this
      ensures value == old(value) + FileBytes(content) + FolderBytes(content)
      decreases content, 0
    {
      if content != [] {
        OnForEach(content[0]);
        ForEach(content[1..]);
      }
    }

    /** The whole figure: all files plus all folders below the root. */
    method GetUsedSpace(tree: Node) returns (used: int)
      modifies this
      ensures used == if tree.Folder? then FileBytes(tree.content) + FolderBytes(tree.content) else 0
    {
      used := 0;
      if tree.Folder? {
        value := 0;
        ForEach(tree.content);
        used := value;
      }
    }
  }

  /** `getUsedSpaceUser`: files only, and a `null` makes the whole computation fail. */
  class UserSpace {
    var value: int

    constructor ()
      ensures value == 0
    {
      value := 0;
    }

    method OnForEach(file: Node) returns (ok: bool)
      modifies this
      ensures ok == NullFreeNode(file)
      ensures ok ==> value == old(value) + FileBytesOf(file)
      decreases file, 1
    {
      match file
      case Null => ok := false;
      case Folder(_, _, content) => ok := ForEach(content);
      case File(_, _, size) =>
        value := value + size;
        ok := true;
    }

    method ForEach(content: seq<Node>) returns (ok: bool)
      modifies this
      ensures ok == NullFree(content)
      ensures ok ==> value == old(value) + FileBytes(content)
      decreases content, 0
    {
      ok := true;
      if content != [] {
        ok := OnForEach(content[0]);
        if ok { ok := ForEach(content[1..]); }
      }
    }
  }

  /** The record of bytes per type, with its keys in insertion order. */
  datatype Usage = Usage(types: seq<string>, used: map<string, int>) {

    ghost predicate Valid() {
      NoDup(types) && forall t :: t in types <==> t in used
    }

    function Total(): int {
      SumOver(types, used, Identity)
    }

    function Of(t: string): int {
      if t in used then used[t] else 0
    }

    function Add(t: string, bytes: int): Usage {
      if t in used then Usage(types, used[t := used[t] + bytes]) else Usage(types + [t], used[t := bytes])
    }

    function AddNode(n: Node): Usage
      decreases n
    {
      match n
      case Null => this
      case File(name, extension, size) => Add(Category(extension, name), size)
      case Folder(_, _, content) => AddNodes(content)
    }

    function AddNodes(nodes: seq<Node>): Usage
      decreases nodes
    {
      if nodes == [] then this else AddNode(nodes[0]).AddNodes(nodes[1..])
    }
  }

  function Identity(x: int): int { x }

  const NoUsage := Usage([], map[])

  class TypeSpace {
    var types: seq<string>
    var usedSpace: map<string, int>

    ghost function State(): Usage
      reads this
    {
      Usage(types, usedSpace)
    }

    constructor ()
      ensures State() == NoUsage
    {
      types := [];
      usedSpace := map[];
    }

    method SumBytes(t: string, bytes: int)
      modifies this
      ensures State() == old(State()).Add(t, bytes)
    {
      if t !in usedSpace {
        types := types + [t];
        usedSpace := usedSpace[t := bytes];
      } else {
        usedSpace := usedSpace[t := usedSpace[t] + bytes];
      }
    }

    method OnForEach(file: Node) returns (ok: bool)
      modifies this
      ensures ok == NullFreeNode(file)
      ensures ok ==> State() == old(State()).AddNode(file)
      decreases file, 1
    {
      match file
      case Null => ok := false;
      case Folder(_, _, content) => ok := ForEach(content);
      case File(name, extension, size) =>
        SumBytes(Category(extension, name), size);
        ok := true;
    }

    method ForEach(content: seq<Node>) returns (ok: bool)
      modifies this
      ensures ok == NullFree(content)
      ensures ok ==> State() == old(State()).AddNodes(content)
      decreases content, 0
    {
      ok := true;
      if content != [] {
        ok := OnForEach(content[0]);
        if ok { ok := ForEach(content[1..]); }
      }
    }
  }

  // ----- The figures agree -----

  lemma AddTotal(u: Usage, t: string, bytes: int)
    requires u.Valid()
    ensures u.Add(t, bytes).Total() == u.Total() + bytes
  {
    if t in u.used {
      SumUpdate(u.types, u.used, Identity, t, u.used[t] + bytes);
    } else {
      var types := u.types + [t];
      assert types[..|types| - 1] == u.types && types[|types| - 1] == t;
      SumFrame(u.types, u.used, u.used[t := bytes], Identity);
    }
  }

  lemma AddKeeps(u: Usage, t: string, bytes: int)
    requires u.Valid()
    ensures u.Add(t, bytes).Valid()
    ensures u.Add(t, bytes).Total() == u.Total() + bytes
    ensures forall s :: u.Add(t, bytes).Of(s) == u.Of(s) + if s == t then bytes else 0
  {
    hide SumOver, NoDup;
    AddTotal(u, t, bytes);
    if t !in u.used { AppendNoDup(u.types, t); }
  }

  lemma {:induction false} AddNodesTotals(u: Usage, nodes: seq<Node>)
    requires u.Valid()
    ensures var r := u.AddNodes(nodes);
      r.Valid() && r.Total() == u.Total() + FileBytes(nodes) && forall t :: r.Of(t) == u.Of(t) + TypeBytes(nodes, t)
    decreases nodes, 0
  {
    if nodes != [] {
      AddNodeTotals(u, nodes[0]);
      AddNodesTotals(u.AddNode(nodes[0]), nodes[1..]);
    }
  }

  lemma {:induction false} AddNodeTotals(u: Usage, n: Node)
    requires u.Valid()
    ensures var r := u.AddNode(n);
      r.Valid() && r.Total() == u.Total() + FileBytesOf(n) && forall t :: r.Of(t) == u.Of(t) + TypeBytesOf(n, t)
    decreases n, 1
  {
    match n
    case Null =>
    case File(name, extension, size) => AddKeeps(u, Category(extension, name), size);
    case Folder(_, _, content) => AddNodesTotals(u, content);
  }

  /** Each type's figure is the total of that type's files, and the figures add up to the user's total. */
  lemma TypesAddUpToUserTotal(tree: seq<Node>)
    ensures var r := NoUsage.AddNodes(tree);
      && r.Total() == FileBytes(tree)
      && forall t :: r.Of(t) == TypeBytes(tree, t)
  {
    AddNodesTotals(NoUsage, tree);
  }

  /** All the bytes of a file are counted, under this type. */
  ghost predicate CountsUnder(name: string, extension: string, size: nat, t: string) {
    var r := NoUsage.AddNode(File(name, extension, size));
    r.Of(t) == size && forall x :: x != t ==> r.Of(x) == 0
  }

  /** The name of an archive of several parts, or with a further extension. */
  ghost predicate NamedAsArchive(name: string) {
    exists i, mark :: mark in {".7z", ".zip", ".gzip", ".tar", ".rar"} && OccursAt(name, mark, i)
  }

  /** A file counts under the type that its extension is listed for; of the rest, what is named as an archive is one. */
  lemma FilesCountUnderTheirType(name: string, extension: string, size: nat)
    ensures extension in {"jpg", "jpeg", "png", "gif", "svg", "webp", "bmp", "ico", "tiff", "jfif", "avif", "viff"}
            ==> CountsUnder(name, extension, size, "image")
    ensures extension in {"mp4", "mkv", "webm", "avi", "mov"}
            ==> CountsUnder(name, extension, size, "video")
    ensures extension in {"mp3", "wav", "ogg", "flac"}
            ==> CountsUnder(name, extension, size, "audio")
    ensures extension in {"pdf"}
            ==> CountsUnder(name, extension, size, "pdf")
    ensures extension in {"7z", "zip", "gzip", "tar", "rar", "iso", "cbz", "cb7", "gz"}
            ==> CountsUnder(name, extension, size, "compressed")
    ensures extension in {"doc", "docx", "xls", "xlsx", "ppt", "pptx", "odt", "ods", "odp"}
            ==> CountsUnder(name, extension, size, "document")
    ensures extension in {"txt", "md", "json", "xml", "ini", "conf", "log", "csv", "CT", "ct"}
            ==> CountsUnder(name, extension, size, "text")
    ensures extension in {"sh"}
            ==> CountsUnder(name, extension, size, "bash")
    ensures extension in {"swf"}
            ==> CountsUnder(name, extension, size, "flash")
    ensures extension in {"exe"}
            ==> CountsUnder(name, extension, size, "executable")
    ensures extension !in {"jpg", "jpeg", "png", "gif", "svg", "webp", "bmp", "ico", "tiff", "jfif", "avif", "viff", "mp4",
              "mkv", "webm", "avi", "mov", "mp3", "wav", "ogg", "flac", "pdf", "7z", "zip", "gzip", "tar",
              "rar", "iso", "cbz", "cb7", "gz", "doc", "docx", "xls", "xlsx", "ppt", "pptx", "odt", "ods",
              "odp", "txt", "md", "json", "xml", "ini", "conf", "log", "csv", "CT", "ct", "sh", "swf", "exe"}
            ==> CountsUnder(name, extension, size, if NamedAsArchive(name) then "compressed" else "other")
  {
    OneFile(name, extension, size);
    hide Category, CountsUnder, NamedAsArchive;
    CategoryOfMedia(extension, name);
    CategoryOfDocuments(extension, name);
    CategoryOfPrograms(extension, name);
    if extension !in {"jpg", "jpeg", "png", "gif", "svg", "webp", "bmp", "ico", "tiff", "jfif", "avif", "viff", "mp4",
                      "mkv", "webm", "avi", "mov", "mp3", "wav", "ogg", "flac", "pdf", "7z", "zip", "gzip", "tar",
                      "rar", "iso", "cbz", "cb7", "gz", "doc", "docx", "xls", "xlsx", "ppt", "pptx", "odt", "ods",
                      "odp", "txt", "md", "json", "xml", "ini", "conf", "log", "csv", "CT", "ct", "sh", "swf", "exe"} {
      CategoryOfRest(extension, name);
    }
  }

  lemma CategoryOfMedia(extension: string, name: string)
    ensures extension in {"jpg", "jpeg", "png", "gif", "svg", "webp", "bmp", "ico", "tiff", "jfif", "avif", "viff"}
            ==> Category(extension, name) == "image"
    ensures extension in {"mp4", "mkv", "webm", "avi", "mov"}
            ==> Category(extension, name) == "video"
    ensures extension in {"mp3", "wav", "ogg", "flac"}
            ==> Category(extension, name) == "audio"
  {
    hide Contains;
  }

  lemma CategoryOfDocuments(extension: string, name: string)
    ensures extension in {"pdf"}
            ==> Category(extension, name) == "pdf"
    ensures extension in {"7z", "zip", "gzip", "tar", "rar", "iso", "cbz", "cb7", "gz"}
            ==> Category(extension, name) == "compressed"
    ensures extension in {"doc", "docx", "xls", "xlsx", "ppt", "pptx", "odt", "ods", "odp"}
            ==> Category(extension, name) == "document"
  {
    hide Contains;
  }

  lemma CategoryOfPrograms(extension: string, name: string)
    ensures extension in {"txt", "md", "json", "xml", "ini", "conf", "log", "csv", "CT", "ct"}
            ==> Category(extension, name) == "text"
    ensures extension in {"sh"}
            ==> Category(extension, name) == "bash"
    ensures extension in {"swf"}
            ==> Category(extension, name) == "flash"
    ensures extension in {"exe"}
            ==> Category(extension, name) == "executable"
  {
    hide Contains;
  }

  lemma CategoryOfRest(extension: string, name: string)
    requires extension !in {"jpg", "jpeg", "png", "gif", "svg", "webp", "bmp", "ico", "tiff", "jfif", "avif", "viff", "mp4",
              "mkv", "webm", "avi", "mov", "mp3", "wav", "ogg", "flac", "pdf", "7z", "zip", "gzip", "tar",
              "rar", "iso", "cbz", "cb7", "gz", "doc", "docx", "xls", "xlsx", "ppt", "pptx", "odt", "ods",
              "odp", "txt", "md", "json", "xml", "ini", "conf", "log", "csv", "CT", "ct", "sh", "swf", "exe"}
    ensures Category(extension, name) == if NamedAsArchive(name) then "compressed" else "other"
  {
    hide Contains, NamedAsArchive;
    ArchiveNames(name);
  }

  lemma OneFile(name: string, extension: string, size: nat)
    ensures CountsUnder(name, extension, size, Category(extension, name))
  {
    hide Category;
  }

  lemma ArchiveNames(name: string)
    ensures NamedAsArchive(name) <==>
              Contains(name, ".7z") || Contains(name, ".zip") || Contains(name, ".gzip")
              || Contains(name, ".tar") || Contains(name, ".rar")
  {
    hide Contains, OccursAt;
    ContainsIff(name, ".7z");
    ContainsIff(name, ".zip");
    ContainsIff(name, ".gzip");
    ContainsIff(name, ".tar");
    ContainsIff(name, ".rar");
  }

  function SumOfUsers(trees: seq<seq<Node>>): nat {
    if trees == [] then 0 else FileBytes(trees[0]) + SumOfUsers(trees[1..])
  }

  function SumOfUsersType(trees: seq<seq<Node>>, t: string): nat {
    if trees == [] then 0 else TypeBytes(trees[0], t) + SumOfUsersType(trees[1..], t)
  }

  /** The tree for all users: a root whose content is the users' own root folders. */
  function AllUsers(trees: seq<seq<Node>>): seq<Node> {
    if trees == [] then [] else [Folder("", 0, trees[0])] + AllUsers(trees[1..])
  }

  /** The figures over all users are the sums of the users' figures, in total and per type. */
  lemma {:induction false} AllUsersIsSumOfUsers(trees: seq<seq<Node>>, t: string)
    ensures NoUsage.AddNodes(AllUsers(trees)).Total() == SumOfUsers(trees)
    ensures NoUsage.AddNodes(AllUsers(trees)).Of(t) == SumOfUsersType(trees, t)
  {
    TypesAddUpToUserTotal(AllUsers(trees));
    AllUsersBytes(trees, t);
  }

  lemma {:induction false} AllUsersBytes(trees: seq<seq<Node>>, t: string)
    ensures FileBytes(AllUsers(trees)) == SumOfUsers(trees) && TypeBytes(AllUsers(trees), t) == SumOfUsersType(trees, t)
  {
    if trees != [] {
      AllUsersBytes(trees[1..], t);
      assert AllUsers(trees)[1..] == AllUsers(trees[1..]);
    }
  }

  // ----- The measurement against the directory -----

  function EntryBytes(es: seq<Entry>): nat
    decreases es
  {
    if es == [] then 0 else EntryBytesOf(es[0]) + EntryBytes(es[1..])
  }

  /** Sizes of all readable files and folders at and below an entry. */
  function EntryBytesOf(e: Entry): nat
    decreases e
  {
    match e
    case Unreadable(_) => 0
    case FileEntry(_, size) => size
    case DirEntry(_, size, entries) => size + EntryBytes(entries)
  }

  lemma {:induction false} EntryBytesConcat(a: seq<Entry>, b: seq<Entry>)
    ensures EntryBytes(a + b) == EntryBytes(a) + EntryBytes(b)
  {
    if a == [] {
      assert a + b == b;
    } else {
      assert (a + b)[1..] == a[1..] + b;
      EntryBytesConcat(a[1..], b);
    }
  }

  lemma {:induction false} BytesConcat(a: seq<Node>, b: seq<Node>)
    ensures FileBytes(a + b) + FolderBytes(a + b) == FileBytes(a) + FolderBytes(a) + FileBytes(b) + FolderBytes(b)
  {
    if a == [] {
      assert a + b == b;
    } else {
      assert (a + b)[1..] == a[1..] + b;
      BytesConcat(a[1..], b);
    }
  }

  lemma {:induction false} NullsWeighNothing(nodes: seq<Node>)
    ensures FileBytes(DropNulls(nodes)) + FolderBytes(DropNulls(nodes)) == FileBytes(nodes) + FolderBytes(nodes)
    decreases nodes
  {
    if nodes != [] {
      if nodes[0].Folder? { NullsWeighNothing(nodes[0].content); }
      NullsWeighNothing(nodes[1..]);
      BytesConcat(DropNull(nodes[0]), DropNulls(nodes[1..]));
      var one := DropNull(nodes[0]);
      assert one != [] ==> one[1..] == [];
    }
  }

  lemma {:induction false} MirrorBytes(path: string, es: seq<Entry>, even: bool, byPath: bool)
    ensures var m := Mirror(path, es, even, true, byPath); FileBytes(m) + FolderBytes(m) == EntryBytes(es)
    decreases es
  {
    if es != [] {
      if es[0].DirEntry? { MirrorBytes(Join(path, es[0].name), es[0].entries, !even, byPath); }
      MirrorBytes(path, es[1..], even, byPath);
      var one := MirrorOne(path, es[0], even, true, byPath);
      BytesConcat(one, Mirror(path, es[1..], even, true, byPath));
      assert one != [] ==> one[1..] == [];
    }
  }

  /**
   * The bytes that fall out of the measurement: a folder at an odd level is dropped with everything in it when one
   * of its direct entries cannot be read.
   */
  function LostBytes(es: seq<Entry>, even: bool): nat
    decreases es
  {
    if es == [] then 0 else LostBytesOf(es[0], even) + LostBytes(es[1..], even)
  }

  function LostBytesOf(e: Entry, even: bool): nat
    decreases e
  {
    match e
    case Unreadable(_) => 0
    case FileEntry(_, _) => 0
    case DirEntry(_, size, entries) =>
      if !even && HasUnreadable(entries) then size + EntryBytes(entries) else LostBytes(entries, !even)
  }

  lemma {:induction false} SurvivingBytes(es: seq<Entry>, even: bool)
    ensures EntryBytes(Survivors(es, even)) + LostBytes(es, even) == EntryBytes(es)
    decreases es
  {
    if es != [] {
      if es[0].DirEntry? { SurvivingBytes(es[0].entries, !even); }
      SurvivingBytes(es[1..], even);
      var one := Survivor(es[0], even);
      EntryBytesConcat(one, Survivors(es[1..], even));
      assert one != [] ==> one[1..] == [];
    }
  }

  /**
   * Measuring the used space of a directory through its generated tree counts every readable byte below it except
   * the lost ones; the figure is the directory's size exactly when none is lost, for one when all can be read.
   */
  lemma MeasuredSpaceIsDirectorySize(parent: string, dir: Entry)
    requires dir.DirEntry? && WellNamedOne(dir)
    ensures
      var tree := Generate(Join(parent, dir.name), dir, true).value.content;
      var measured := FileBytes(tree) + FolderBytes(tree);
      && measured == EntryBytes(dir.entries) - LostBytes(dir.entries, false)
      && (measured == EntryBytes(dir.entries) <==> LostBytes(dir.entries, false) == 0)
      && (AllReadable(dir.entries) ==> LostBytes(dir.entries, false) == 0)
  {
    var path := Join(parent, dir.name);
    OddLevelMirrors(path, dir.entries, true);
    NullsWeighNothing(Generate(path, dir, true).value.content);
    MirrorBytes(path, Survivors(dir.entries, false), false, true);
    SurvivingBytes(dir.entries, false);
    if AllReadable(dir.entries) { AllReadableSurvive(dir.entries, false); }
  }

  /** A folder of the root listing weighs nothing in the measurement if one of its direct entries cannot be read. */
  lemma FolderWithUnreadable(user: string, kept: Entry, folder: Entry)
    requires GoodName(user) && WellNamedOne(kept) && kept.FileEntry?
    requires WellNamedOne(folder) && folder.DirEntry? && HasUnreadable(folder.entries)
    ensures
      var dir := DirEntry(user, 0, [kept, folder]);
      var tree := Generate(user, dir, true).value.content;
      && FileBytes(tree) + FolderBytes(tree) == kept.size
      && EntryBytes(dir.entries) == kept.size + folder.size + EntryBytes(folder.entries)
  {
    var entries := [kept, folder];
    assert entries[1..] == [folder] && [folder][1..] == [];
    assert LostBytes([folder], false) == LostBytesOf(folder, false) + LostBytes([], false);
    assert LostBytes(entries, false) == LostBytesOf(kept, false) + LostBytes([folder], false);
    assert EntryBytes([folder]) == EntryBytesOf(folder) + EntryBytes([]);
    assert EntryBytes(entries) == EntryBytesOf(kept) + EntryBytes([folder]);
    assert WellNamed([folder]) && WellNamed(entries);
    MeasuredSpaceIsDirectorySize("", DirEntry(user, 0, entries));
  }

  /** A file that disappears from `docs` during the listing: of 7 + 4 + 50 readable bytes 7 are measured. */
  lemma UnreadableEntryLosesItsFolder()
    ensures
      var docs := DirEntry("docs", 4, [FileEntry("report", 50), Unreadable("gone")]);
      var dir := DirEntry("user", 0, [FileEntry("notes", 7), docs]);
      var tree := Generate("user", dir, true).value.content;
      FileBytes(tree) + FolderBytes(tree) == 7 && EntryBytes(dir.entries) == 61
  {
    var inDocs := [FileEntry("report", 50), Unreadable("gone")];
    assert inDocs[1..] == [Unreadable("gone")] && [Unreadable("gone")][1..] == [];
    assert WellNamed([Unreadable("gone")]) && WellNamed(inDocs);
    assert EntryBytes([Unreadable("gone")]) == EntryBytesOf(Unreadable("gone")) + EntryBytes([]);
    assert HasUnreadable(inDocs);
    FolderWithUnreadable("user", FileEntry("notes", 7), DirEntry("docs", 4, inDocs));
  }
}
