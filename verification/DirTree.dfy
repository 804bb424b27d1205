/**
 * Building the file tree of a directory (`GenerateTree`, src/files/files.service.ts:439-498).
 *
 * One call handles two levels: the listed directory's entries are turned into nodes in place (the odd levels,
 * where an error or a hidden file leaves a `null`), and the entries of each of its folders by recursive calls
 * (the even levels, where an error makes the whole `Promise.all` reject and hidden files are filtered out).
 */
module DirTree {

  /** A directory entry; `Unreadable` is one whose `lstat` fails, such as a file removed after the listing. */
  datatype Entry =
    | FileEntry(name: string, size: nat)
    | DirEntry(name: string, size: nat, entries: seq<Entry>)
    | Unreadable(name: string)

  datatype Node =
    | File(name: string, extension: string, size: nat)
    | Folder(name: string, size: nat, content: seq<Node>)
    | Null

  datatype Result<+T> = Ok(value: T) | Rejected

  /** `s.split(c).pop()` */
  function AfterLast(s: string, c: char): string {
    if s == "" || s[|s| - 1] == c then "" else AfterLast(s[..|s| - 1], c) + [s[|s| - 1]]
  }

  function Join(path: string, name: string): string {
    if path == "" then name else path + "/" + name
  }

  // ----- The two-level recursion -----

  function Generate(path: string, e: Entry, show: bool): Result<Node>
    decreases e
  {
    match e
    case Unreadable(_) => Rejected
    case FileEntry(_, size) => Ok(if show then File(AfterLast(path, '/'), AfterLast(path, '.'), size) else Null)
    case DirEntry(_, size, entries) => Ok(Folder(AfterLast(path, '/'), size, OddLevel(path, entries, show)))
  }

  function OddLevel(path: string, es: seq<Entry>, show: bool): seq<Node>
    decreases es
  {
    if es == [] then [] else [OddNode(path, es[0], show)] + OddLevel(path, es[1..], show)
  }

  function OddNode(path: string, e: Entry, show: bool): Node
    decreases e
  {
    match e
    case Unreadable(_) => Null
    case FileEntry(name, size) => if show then File(name, AfterLast(name, '.'), size) else Null
    case DirEntry(name, size, entries) =>
      match EvenLevel(Join(path, name), entries, show)
      case Rejected => Null
      case Ok(nodes) => Folder(name, size, NonNull(nodes))
  }

  function EvenLevel(path: string, es: seq<Entry>, show: bool): Result<seq<Node>>
    decreases es
  {
    if es == [] then Ok([])
    else
      match Generate(Join(path, es[0].name), es[0], show)
      case Rejected => Rejected
      case Ok(node) =>
        match EvenLevel(path, es[1..], show)
        case Rejected => Rejected
        case Ok(nodes) => Ok([node] + nodes)
  }

  function NonNull(nodes: seq<Node>): seq<Node> {
    if nodes == [] then []
    else (if nodes[0].Null? then [] else [nodes[0]]) + NonNull(nodes[1..])
  }

  // ----- The plain one-level mirror -----

  /** What of a listing comes out: at an odd level everything readable except folders with an unreadable entry. */
  function Survivors(es: seq<Entry>, even: bool): seq<Entry>
    decreases es
  {
    if es == [] then [] else Survivor(es[0], even) + Survivors(es[1..], even)
  }

  function Survivor(e: Entry, even: bool): seq<Entry>
    decreases e
  {
    match e
    case Unreadable(_) => []
    case FileEntry(_, _) => [e]
    case DirEntry(name, size, entries) =>
      if !even && HasUnreadable(entries) then [] else [DirEntry(name, size, Survivors(entries, !even))]
  }

  predicate HasUnreadable(es: seq<Entry>) {
    es != [] && (es[0].Unreadable? || HasUnreadable(es[1..]))
  }

  /**
   * One node per entry, in order. The extension of a file is cut from its name; with `byPath`, files at even
   * levels have it cut from their whole path, as the recursive calls do.
   */
  function Mirror(path: string, es: seq<Entry>, even: bool, show: bool, byPath: bool): seq<Node>
    decreases es
  {
    if es == [] then [] else MirrorOne(path, es[0], even, show, byPath) + Mirror(path, es[1..], even, show, byPath)
  }

  function MirrorOne(path: string, e: Entry, even: bool, show: bool, byPath: bool): seq<Node>
    decreases e
  {
    match e
    case Unreadable(_) => []
    case FileEntry(name, size) =>
      if show then [File(name, AfterLast(if even && byPath then Join(path, name) else name, '.'), size)] else []
    case DirEntry(name, size, entries) =>
      [Folder(name, size, Mirror(Join(path, name), entries, !even, show, byPath))]
  }

  /** Removes every `null` from a listing, at all depths. */
  function DropNulls(nodes: seq<Node>): seq<Node>
    decreases nodes
  {
    if nodes == [] then [] else DropNull(nodes[0]) + DropNulls(nodes[1..])
  }

  function DropNull(n: Node): seq<Node>
    decreases n
  {
    match n
    case Null => []
    case File(_, _, _) => [n]
    case Folder(name, size, content) => [Folder(name, size, DropNulls(content))]
  }

  // ----- Names -----

  predicate GoodName(name: string) {
    name != "" && '/' !in name
  }

  predicate WellNamed(es: seq<Entry>)
    decreases es
  {
    es == [] || (WellNamedOne(es[0]) && WellNamed(es[1..]))
  }

  predicate WellNamedOne(e: Entry)
    decreases e
  {
    GoodName(e.name) && (e.DirEntry? ==> WellNamed(e.entries))
  }

  lemma {:induction false} AfterLastConcat(a: string, b: string, c: char)
    ensures AfterLast(a + b, c) == if c in b then AfterLast(b, c) else AfterLast(a, c) + b
  {
    if b == "" {
      assert a + b == a;
    } else {
      var front, last := b[..|b| - 1], b[|b| - 1];
      assert b == front + [last];
      assert (a + b)[..|a + b| - 1] == a + front;
      if last != c {
        AfterLastConcat(a, front, c);
        assert AfterLast(a, c) + front + [last] == AfterLast(a, c) + b;
      }
    }
  }

  lemma AfterLastWhole(s: string, c: char)
    requires c !in s
    ensures AfterLast(s, c) == s
  {
    AfterLastConcat("", s, c);
    assert "" + s == s;
  }

  lemma LastOfJoin(path: string, name: string)
    requires GoodName(name)
    ensures AfterLast(Join(path, name), '/') == name
  {
    AfterLastWhole(name, '/');
    if path != "" {
      AfterLastConcat(path + "/", name, '/');
      AfterLastConcat(path, "/", '/');
      assert AfterLast("/", '/') == "";
      assert "" + name == name;
    }
  }

  /** Below a folder, a path gives the same extension as the name exactly when the name has a dot. */
  lemma ExtensionByPath(path: string, name: string)
    requires GoodName(name)
    ensures AfterLast(Join(path, name), '.') == AfterLast(name, '.') <==> '.' in name || path == ""
  {
    AfterLastConcat(path + "/", name, '.');
    if '.' !in name {
      AfterLastWhole(name, '.');
      AfterLastConcat(path, "/", '.');
    }
  }

  // ----- The recursion equals the mirror -----

  lemma NonNullStep(nodes: seq<Node>)
    requires nodes != []
    ensures if nodes[0].Null? then NonNull(nodes) == NonNull(nodes[1..])
            else NonNull(nodes) != [] && NonNull(nodes)[0] == nodes[0] && NonNull(nodes)[1..] == NonNull(nodes[1..])
  {
    assert [] + NonNull(nodes[1..]) == NonNull(nodes[1..]);
  }

  lemma {:induction false} NonNullDropped(nodes: seq<Node>)
    ensures DropNulls(NonNull(nodes)) == DropNulls(nodes)
  {
    if nodes != [] {
      NonNullDropped(nodes[1..]);
      NonNullStep(nodes);
    }
  }

  lemma {:induction false} OddLevelMirrors(path: string, es: seq<Entry>, show: bool)
    requires WellNamed(es)
    ensures DropNulls(OddLevel(path, es, show)) == Mirror(path, Survivors(es, false), false, show, true)
    decreases es
  {
    if es != [] {
      OddNodeMirrors(path, es[0], show);
      OddLevelMirrors(path, es[1..], show);
      assert OddLevel(path, es, show)[1..] == OddLevel(path, es[1..], show);
      MirrorConcat(path, Survivor(es[0], false), Survivors(es[1..], false), false, show, true);
    }
  }

  lemma {:induction false} MirrorConcat(path: string, a: seq<Entry>, b: seq<Entry>,
                                        even: bool, show: bool, byPath: bool)
    ensures Mirror(path, a + b, even, show, byPath)
         == Mirror(path, a, even, show, byPath) + Mirror(path, b, even, show, byPath)
  {
    if a == [] {
      assert a + b == b;
    } else {
      assert (a + b)[1..] == a[1..] + b;
      MirrorConcat(path, a[1..], b, even, show, byPath);
    }
  }

  lemma MirrorSingle(path: string, e: Entry, even: bool, show: bool, byPath: bool)
    ensures Mirror(path, [e], even, show, byPath) == MirrorOne(path, e, even, show, byPath)
  {
    assert [e][1..] == [];
  }

  lemma {:induction false} OddNodeMirrors(path: string, e: Entry, show: bool)
    requires WellNamedOne(e)
    ensures DropNull(OddNode(path, e, show)) == Mirror(path, Survivor(e, false), false, show, true)
    decreases e
  {
    match e
    case Unreadable(_) =>
    case FileEntry(_, _) => MirrorSingle(path, e, false, show, true);
    case DirEntry(name, size, entries) =>
      EvenLevelMirrors(Join(path, name), entries, show);
      if !HasUnreadable(entries) {
        NonNullDropped(EvenLevel(Join(path, name), entries, show).value);
        MirrorSingle(path, DirEntry(name, size, Survivors(entries, true)), false, show, true);
      }
  }

  lemma {:induction false} EvenLevelMirrors(path: string, es: seq<Entry>, show: bool)
    requires WellNamed(es)
    ensures EvenLevel(path, es, show).Rejected? <==> HasUnreadable(es)
    ensures !HasUnreadable(es) ==>
              DropNulls(EvenLevel(path, es, show).value) == Mirror(path, Survivors(es, true), true, show, true)
    decreases es
  {
    if es != [] {
      EvenLevelMirrors(path, es[1..], show);
      if !HasUnreadable(es) {
        GenerateMirrors(path, es[0], show);
        var node, nodes := Generate(Join(path, es[0].name), es[0], show).value, EvenLevel(path, es[1..], show).value;
        assert ([node] + nodes)[1..] == nodes;
        MirrorConcat(path, Survivor(es[0], true), Survivors(es[1..], true), true, show, true);
      }
    }
  }

  lemma {:induction false} GenerateMirrors(path: string, e: Entry, show: bool)
    requires WellNamedOne(e) && !e.Unreadable?
    ensures Generate(Join(path, e.name), e, show).Ok?
    ensures DropNull(Generate(Join(path, e.name), e, show).value) == Mirror(path, Survivor(e, true), true, show, true)
    decreases e
  {
    LastOfJoin(path, e.name);
    MirrorSingle(path, e, true, show, true);
    if e.DirEntry? {
      OddLevelMirrors(Join(path, e.name), e.entries, show);
      MirrorSingle(path, DirEntry(e.name, e.size, Survivors(e.entries, false)), true, show, true);
    }
  }

  /**
   * For every directory, the two-levels-per-call recursion produces, once its nulls are dropped, the plain
   * mirror of what survives: with `show` the files and folders, without it exactly the folder skeleton.
   */
  lemma GenerateTreeMirrors(parent: string, dir: Entry, show: bool)
    requires dir.DirEntry? && WellNamedOne(dir)
    ensures
      var path := Join(parent, dir.name);
      Generate(path, dir, show).Ok? &&
      DropNull(Generate(path, dir, show).value)
        == [Folder(dir.name, dir.size, Mirror(path, Survivors(dir.entries, false), false, show, true))]
  {
    GenerateMirrors(parent, dir, show);
    MirrorSingle(parent, DirEntry(dir.name, dir.size, Survivors(dir.entries, false)), true, show, true);
  }

  // ----- Where nulls are, and when there are none -----

  /** A null may stand in a listing at an odd level only. */
  predicate NullsAtOddLevels(nodes: seq<Node>, even: bool)
    decreases nodes
  {
    nodes == [] || (NullAtOddLevel(nodes[0], even) && NullsAtOddLevels(nodes[1..], even))
  }

  predicate NullAtOddLevel(n: Node, even: bool)
    decreases n
  {
    (n.Null? ==> !even) && (n.Folder? ==> NullsAtOddLevels(n.content, !even))
  }

  predicate NullFree(nodes: seq<Node>)
    decreases nodes
  {
    nodes == [] || (NullFreeNode(nodes[0]) && NullFree(nodes[1..]))
  }

  predicate NullFreeNode(n: Node)
    decreases n
  {
    !n.Null? && (n.Folder? ==> NullFree(n.content))
  }

  predicate AllReadable(es: seq<Entry>)
    decreases es
  {
    es == [] || (Readable(es[0]) && AllReadable(es[1..]))
  }

  predicate Readable(e: Entry)
    decreases e
  {
    !e.Unreadable? && (e.DirEntry? ==> AllReadable(e.entries))
  }

  lemma {:induction false} OddLevelNulls(path: string, es: seq<Entry>, show: bool)
    ensures NullsAtOddLevels(OddLevel(path, es, show), false)
    ensures show ==> (NullFree(OddLevel(path, es, show)) <==> AllReadable(es))
    decreases es
  {
    if es != [] {
      OddNodeNulls(path, es[0], show);
      OddLevelNulls(path, es[1..], show);
      assert OddLevel(path, es, show)[1..] == OddLevel(path, es[1..], show);
    }
  }

  lemma {:induction false} OddNodeNulls(path: string, e: Entry, show: bool)
    ensures NullAtOddLevel(OddNode(path, e, show), false)
    ensures show ==> (NullFreeNode(OddNode(path, e, show)) <==> Readable(e))
    decreases e
  {
    if e.DirEntry? {
      EvenLevelNulls(Join(path, e.name), e.entries, show);
    }
  }

  lemma {:induction false} EvenLevelNulls(path: string, es: seq<Entry>, show: bool)
    ensures EvenLevel(path, es, show).Rejected? ==> !AllReadable(es)
    ensures EvenLevel(path, es, show).Ok? ==>
      var nodes := NonNull(EvenLevel(path, es, show).value);
      NullsAtOddLevels(nodes, true) && (show ==> (NullFree(nodes) <==> AllReadable(es)))
    decreases es
  {
    if es != [] {
      EvenLevelNulls(path, es[1..], show);
      if EvenLevel(path, es, show).Ok? {
        var node, nodes := Generate(Join(path, es[0].name), es[0], show).value, EvenLevel(path, es[1..], show).value;
        assert ([node] + nodes)[1..] == nodes;
        NonNullStep([node] + nodes);
        if es[0].DirEntry? { OddLevelNulls(Join(path, es[0].name), es[0].entries, show); }
      }
    }
  }

  lemma {:induction false} AllReadableSurvive(es: seq<Entry>, even: bool)
    requires AllReadable(es)
    ensures !HasUnreadable(es) && Survivors(es, even) == es
    decreases es
  {
    if es != [] {
      AllReadableSurvive(es[1..], even);
      if es[0].DirEntry? { AllReadableSurvive(es[0].entries, !even); }
      assert es == [es[0]] + es[1..];
    }
  }

  lemma {:induction false} DropNothing(nodes: seq<Node>)
    requires NullFree(nodes)
    ensures DropNulls(nodes) == nodes
    decreases nodes
  {
    if nodes != [] {
      DropNothing(nodes[1..]);
      if nodes[0].Folder? { DropNothing(nodes[0].content); }
      assert nodes == [nodes[0]] + nodes[1..];
    }
  }

  // ----- When the tree is the mirror with extensions cut from names -----

  /** Every file at an even level has a dot in its name. */
  predicate DottedAtEvenLevels(es: seq<Entry>, even: bool)
    decreases es
  {
    es == [] || (DottedOne(es[0], even) && DottedAtEvenLevels(es[1..], even))
  }

  predicate DottedOne(e: Entry, even: bool)
    decreases e
  {
    match e
    case Unreadable(_) => true
    case FileEntry(name, _) => even ==> '.' in name
    case DirEntry(_, _, entries) => DottedAtEvenLevels(entries, !even)
  }

  lemma {:induction false} MirrorSplit(a: seq<Node>, b: seq<Node>, a': seq<Node>, b': seq<Node>)
    requires |a| == |a'|
    ensures a + b == a' + b' <==> a == a' && b == b'
  {
    if a + b == a' + b' {
      assert a == (a + b)[..|a|] && a' == (a' + b')[..|a|];
      assert b == (a + b)[|a|..] && b' == (a' + b')[|a|..];
    }
  }

  lemma {:induction false} MirrorsAgree(path: string, es: seq<Entry>, even: bool)
    requires WellNamed(es) && path != ""
    ensures Mirror(path, es, even, true, true) == Mirror(path, es, even, true, false) <==> DottedAtEvenLevels(es, even)
    decreases es
  {
    if es != [] {
      MirrorsAgreeOne(path, es[0], even);
      MirrorsAgree(path, es[1..], even);
      MirrorSplit(MirrorOne(path, es[0], even, true, true), Mirror(path, es[1..], even, true, true),
                  MirrorOne(path, es[0], even, true, false), Mirror(path, es[1..], even, true, false));
    }
  }

  lemma {:induction false} MirrorsAgreeOne(path: string, e: Entry, even: bool)
    requires WellNamedOne(e) && path != ""
    ensures MirrorOne(path, e, even, true, true) == MirrorOne(path, e, even, true, false) <==> DottedOne(e, even)
    ensures |MirrorOne(path, e, even, true, true)| == |MirrorOne(path, e, even, true, false)|
    decreases e
  {
    match e
    case Unreadable(_) =>
    case FileEntry(name, size) =>
      ExtensionByPath(path, name);
      assert MirrorOne(path, e, even, true, true)[0]
          == File(name, AfterLast(if even then Join(path, name) else name, '.'), size);
      assert MirrorOne(path, e, even, true, false)[0] == File(name, AfterLast(name, '.'), size);
    case DirEntry(name, size, entries) =>
      MirrorsAgree(Join(path, name), entries, !even);
      assert MirrorOne(path, e, even, true, true)[0]
          == Folder(name, size, Mirror(Join(path, name), entries, !even, true, true));
      assert MirrorOne(path, e, even, true, false)[0]
          == Folder(name, size, Mirror(Join(path, name), entries, !even, true, false));
  }

  /**
   * Of a fully readable directory, the tree with files is its plain mirror, extensions included, exactly when
   * every file at an even level has a dot in its name. (Otherwise such a file's extension is cut from its path.)
   */
  lemma GenerateTreeIsMirrorIff(parent: string, dir: Entry)
    requires dir.DirEntry? && WellNamedOne(dir) && AllReadable(dir.entries)
    ensures
      var path := Join(parent, dir.name);
      Generate(path, dir, true) == Ok(Folder(dir.name, dir.size, Mirror(path, dir.entries, false, true, false)))
      <==> DottedAtEvenLevels(dir.entries, false)
  {
    var path := Join(parent, dir.name);
    GenerateTreeMirrors(parent, dir, true);
    AllReadableSurvive(dir.entries, false);
    OddLevelNulls(path, dir.entries, true);
    DropNothing(OddLevel(path, dir.entries, true));
    MirrorsAgree(path, dir.entries, false);
    LastOfJoin(parent, dir.name);
    var node := Generate(path, dir, true).value;
    assert DropNull(node)[0] == node;
  }

  /** Nulls stand at odd levels only; with files shown there is none exactly when every entry could be read. */
  lemma GenerateTreeNulls(path: string, dir: Entry, show: bool)
    requires dir.DirEntry?
    ensures NullAtOddLevel(Generate(path, dir, show).value, true)
    ensures NullFreeNode(Generate(path, dir, true).value) <==> AllReadable(dir.entries)
  {
    OddLevelNulls(path, dir.entries, show);
    OddLevelNulls(path, dir.entries, true);
  }
}
