/** The search index of a user's tree (`createIndex`, src/treefiles/treeFiles.service.ts:71-89). */
module TreeIndex {
  import opened Ordering
  import opened DirTree
  import opened IndexSearch
  import opened SearchTheorems

  // ----- Walking the tree -----

  function ElementOf(n: Node, path: string): IndexElement
    requires !n.Null?
  {
    IndexElement(Lower(n.name), n.name, path, n.size, n.Folder?)
  }

  /** The entries of a listing in preorder; `path` is that of the folder holding it. */
  function Preorder(nodes: seq<Node>, path: string): seq<IndexElement>
    decreases nodes
  {
    if nodes == [] then [] else PreorderOne(nodes[0], path) + Preorder(nodes[1..], path)
  }

  function PreorderOne(n: Node, path: string): seq<IndexElement>
    decreases n
  {
    match n
    case Null => []
    case File(name, _, _) => [ElementOf(n, Join(path, name))]
    case Folder(name, _, content) => [ElementOf(n, Join(path, name))] + Preorder(content, Join(path, name))
  }

  function CreateIndexOf(nodes: seq<Node>): seq<IndexElement> {
    StableSort(Preorder(nodes, ""), ByLowercaseName)
  }

  /** Builds the index as `createIndex` does: closures that push into one shared array. */
  class IndexBuilder {
    var index: seq<IndexElement>

    constructor ()
      ensures index == []
    {
      index := [];
    }

    /** Fails, where the service reads a property of `null`, as soon as it meets one. */
    method OnForEach(val: Node, path: string) returns (ok: bool)
      modifies this
      ensures ok == NullFreeNode(val)
      ensures ok ==> index == old(index) + PreorderOne(val, path)
      decreases val, 1
    {
      match val
      case Null => ok := false;
      case File(name, _, size) =>
        index := index + [IndexElement(Lower(name), name, Join(path, name), size, false)];
        ok := true;
      case Folder(name, size, content) =>
        index := index + [IndexElement(Lower(name), name, Join(path, name), size, true)];
        Assoc(old(index), [ElementOf(val, Join(path, name))], Preorder(content, Join(path, name)));
        ok := ForEach(content, Join(path, name));
    }

    method ForEach(content: seq<Node>, path: string) returns (ok: bool)
      modifies this
      ensures ok == NullFree(content)
      ensures ok ==> index == old(index) + Preorder(content, path)
      decreases content, 0
    {
      if content == [] {
        ok := true;
      } else {
        Assoc(index, PreorderOne(content[0], path), Preorder(content[1..], path));
        ok := OnForEach(content[0], path);
        if ok {
          ok := ForEach(content[1..], path);
        }
      }
    }

    method CreateIndex(tree: Node) returns (ok: bool, sorted: seq<IndexElement>)
      modifies this
      ensures ok == NullFreeNode(tree)
      ensures ok ==> sorted == if tree.Folder? then CreateIndexOf(tree.content) else []
    {
      index := [];
      sorted := [];
      match tree
      case Null => ok := false;
      case File(_, _, _) => ok := true;
      case Folder(_, _, content) =>
        ok := ForEach(content, "");
        assert ok ==> index == Preorder(content, "");
        sorted := StableSort(index, ByLowercaseName);
    }
  }

  // ----- The index is a sorted permutation of the walk -----

  lemma NamesArePreordered()
    ensures TotalPreorder(ByLowercaseName)
  {
    forall a, b ensures ByLowercaseName(a, b) || ByLowercaseName(b, a) {
      StrTotal(a.lowercase_name, b.lowercase_name);
    }
    forall a, b, c | ByLowercaseName(a, b) && ByLowercaseName(b, c) ensures ByLowercaseName(a, c) {
      StrTransitive(a.lowercase_name, b.lowercase_name, c.lowercase_name);
    }
  }

  function CountNodes(nodes: seq<Node>): nat
    decreases nodes
  {
    if nodes == [] then 0 else CountNode(nodes[0]) + CountNodes(nodes[1..])
  }

  function CountNode(n: Node): nat
    decreases n
  {
    match n
    case Null => 0
    case File(_, _, _) => 1
    case Folder(_, _, content) => 1 + CountNodes(content)
  }

  lemma {:induction false} PreorderShape(nodes: seq<Node>, path: string)
    ensures |Preorder(nodes, path)| == CountNodes(nodes)
    ensures forall e :: e in Preorder(nodes, path) ==> e.lowercase_name == Lower(e.name)
    decreases nodes, 0
  {
    if nodes != [] {
      if nodes[0].Folder? { PreorderShape(nodes[0].content, Join(path, nodes[0].name)); }
      PreorderShape(nodes[1..], path);
    }
  }

  /** One entry per node below the root, sorted by lower-cased name. */
  lemma IndexIsSortedPermutation(nodes: seq<Node>)
    ensures SortedIndex(CreateIndexOf(nodes))
    ensures multiset(CreateIndexOf(nodes)) == multiset(Preorder(nodes, ""))
    ensures |CreateIndexOf(nodes)| == CountNodes(nodes)
    ensures forall e :: e in CreateIndexOf(nodes) ==> NoUpper(e.lowercase_name) && SameUpToCase(e.name, e.lowercase_name)
  {
    NamesArePreordered();
    StableSortSorts(Preorder(nodes, ""), ByLowercaseName);
    PreorderShape(nodes, "");
    var walk, index := Preorder(nodes, ""), CreateIndexOf(nodes);
    assert |multiset(index)| == |multiset(walk)|;
    forall e | e in index ensures e.lowercase_name == Lower(e.name) {
      assert e in multiset(index);
      assert e in walk;
    }
    forall e | e in index ensures NoUpper(e.lowercase_name) && SameUpToCase(e.name, e.lowercase_name) {
      LowerMeaning(e.name);
    }
  }

  /** The walk goes through siblings in their order, and meets a folder before what is in it. */
  lemma WalkIsPreorder(before: seq<Node>, n: Node, after: seq<Node>, path: string)
    requires !n.Null?
    ensures
      var inner := Join(path, n.name);
      Preorder(before + [n] + after, path)
        == Preorder(before, path)
         + [IndexElement(Lower(n.name), n.name, inner, n.size, n.Folder?)]
         + (if n.Folder? then Preorder(n.content, inner) else [])
         + Preorder(after, path)
  {
    assert before + [n] + after == before + ([n] + after);
    PreorderConcat(before, [n] + after, path);
    assert ([n] + after)[1..] == after;
  }

  lemma {:induction false} PreorderConcat(a: seq<Node>, b: seq<Node>, path: string)
    ensures Preorder(a + b, path) == Preorder(a, path) + Preorder(b, path)
  {
    if a == [] {
      assert a + b == b;
    } else {
      assert (a + b)[1..] == a[1..] + b;
      PreorderConcat(a[1..], b, path);
    }
  }

  // ----- Every path leads back to its node -----

  /** `path.split('/')` */
  function Components(path: string): seq<string>
    decreases |path|
  {
    if '/' !in path then [path]
    else
      var last := AfterLast(path, '/');
      AfterLastShorter(path);
      Components(path[..|path| - |last| - 1]) + [last]
  }

  lemma {:induction false} AfterLastShorter(path: string)
    requires '/' in path
    ensures |AfterLast(path, '/')| < |path|
  {
    if path[|path| - 1] != '/' {
      assert path == path[..|path| - 1] + [path[|path| - 1]];
      AfterLastShorter(path[..|path| - 1]);
    }
  }

  lemma ComponentsJoin(path: string, name: string)
    requires GoodName(name)
    ensures Components(Join(path, name)) == if path == "" then [name] else Components(path) + [name]
  {
    if path != "" {
      LastOfJoin(path, name);
      var whole := Join(path, name);
      assert whole[|path|] == '/';
      assert whole[..|whole| - |name| - 1] == path;
    }
  }

  /** Follows a list of names down from a listing. */
  function Resolve(nodes: seq<Node>, names: seq<string>): Node
    decreases names, |nodes|
  {
    if nodes == [] || names == [] then Null
    else if nodes[0].Null? || nodes[0].name != names[0] then Resolve(nodes[1..], names)
    else if |names| == 1 then nodes[0]
    else if nodes[0].Folder? then Resolve(nodes[0].content, names[1..])
    else Null
  }

  predicate Named(nodes: seq<Node>, name: string) {
    nodes != [] && ((!nodes[0].Null? && nodes[0].name == name) || Named(nodes[1..], name))
  }

  /** Names are proper file names, and siblings have different ones, at every level. */
  predicate DistinctNames(nodes: seq<Node>)
    decreases nodes
  {
    nodes == [] || (DistinctNamesOne(nodes[0]) && DistinctNames(nodes[1..])
                    && (!nodes[0].Null? ==> !Named(nodes[1..], nodes[0].name)))
  }

  predicate DistinctNamesOne(n: Node)
    decreases n
  {
    (!n.Null? ==> GoodName(n.name)) && (n.Folder? ==> DistinctNames(n.content))
  }

  /** The names leading from the root to a folder whose path is `path`. */
  function Above(path: string): seq<string> {
    if path == "" then [] else Components(path)
  }

  /** `e` describes the node that its own path leads to. */
  ghost predicate LeadsTo(e: IndexElement, nodes: seq<Node>, path: string) {
    var all := Components(e.path);
    && |Above(path)| < |all| && all[..|Above(path)|] == Above(path)
    && var n := Resolve(nodes, all[|Above(path)|..]);
    !n.Null? && e == ElementOf(n, e.path)
  }

  lemma OwnPathLeads(nodes: seq<Node>, path: string)
    requires nodes != [] && !nodes[0].Null? && GoodName(nodes[0].name)
    ensures
      var inner := Join(path, nodes[0].name);
      && Above(inner) == Components(inner) == Above(path) + [nodes[0].name]
      && LeadsTo(ElementOf(nodes[0], inner), nodes, path)
  {
    var n := nodes[0];
    ComponentsJoin(path, n.name);
    var all := Components(Join(path, n.name));
    assert all == Above(path) + [n.name];
    assert all[|Above(path)|..] == [n.name];
  }

  /** What a path leads to inside the first folder, it leads to from the listing that holds the folder. */
  lemma InnerPathLeads(nodes: seq<Node>, path: string, e: IndexElement)
    requires nodes != [] && nodes[0].Folder? && GoodName(nodes[0].name)
    requires LeadsTo(e, nodes[0].content, Join(path, nodes[0].name))
    ensures LeadsTo(e, nodes, path) && Components(e.path)[|Above(path)|] == nodes[0].name
  {
    hide Components, Above, Lower;
    var n, k, all := nodes[0], |Above(path)|, Components(e.path);
    OwnPathLeads(nodes, path);
    var above := Above(Join(path, n.name));
    assert |above| == k + 1 && all[..k + 1] == above;
    assert all[k] == all[..k + 1][k] == n.name;
    assert all[..k] == all[..k + 1][..k] == Above(path);
    assert all[k..][0] == n.name && all[k..][1..] == all[k + 1..];
  }

  lemma {:induction false} WalkLeads(nodes: seq<Node>, path: string, e: IndexElement)
    requires DistinctNames(nodes) && e in Preorder(nodes, path)
    ensures LeadsTo(e, nodes, path)
    ensures Named(nodes, Components(e.path)[|Above(path)|])
    decreases nodes, 0
  {
    hide Components, Lower;
    var n, k, all := nodes[0], |Above(path)|, Components(e.path);
    if e in PreorderOne(n, path) {
      var inner := Join(path, n.name);
      OwnPathLeads(nodes, path);
      if e != ElementOf(n, inner) {
        WalkLeads(n.content, inner, e);
        InnerPathLeads(nodes, path, e);
      }
    } else {
      WalkLeads(nodes[1..], path, e);
      assert all[k..][0] == all[k];
      assert !n.Null? ==> n.name != all[k] by { if !n.Null? && n.name == all[k] { assert false; } }
    }
  }

  function PathOf(e: IndexElement): string { e.path }

  ghost predicate DistinctPaths(xs: seq<IndexElement>) {
    DistinctBy(xs, PathOf)
  }

  lemma {:induction false} WalkDistinct(nodes: seq<Node>, path: string)
    requires DistinctNames(nodes)
    ensures DistinctPaths(Preorder(nodes, path))
    decreases nodes, 0
  {
    if nodes != [] {
      var head, tail := PreorderOne(nodes[0], path), Preorder(nodes[1..], path);
      WalkDistinctOne(nodes[0], path);
      WalkDistinct(nodes[1..], path);
      forall i, j | 0 <= i < |head| && 0 <= j < |tail| ensures head[i].path != tail[j].path {
        HeadNamed(nodes[0], path, head[i]);
        WalkLeads(nodes[1..], path, tail[j]);
      }
      assert Preorder(nodes, path) == head + tail;
    }
  }

  /** Everything walked under `n` has `n`'s name at the level of `n`. */
  lemma HeadNamed(n: Node, path: string, e: IndexElement)
    requires DistinctNamesOne(n) && e in PreorderOne(n, path)
    ensures |Above(path)| < |Components(e.path)| && Components(e.path)[|Above(path)|] == n.name
  {
    var one := [n];
    assert one[1..] == [];
    assert PreorderOne(n, path) + [] == PreorderOne(n, path);
    assert DistinctNames(one[1..]) && !Named(one[1..], n.name);
    assert DistinctNames(one);
    assert Preorder(one, path) == PreorderOne(n, path) + Preorder(one[1..], path);
    WalkLeads(one, path, e);
  }

  lemma {:induction false} WalkDistinctOne(n: Node, path: string)
    requires DistinctNamesOne(n)
    ensures DistinctPaths(PreorderOne(n, path))
    decreases n, 1
  {
    if n.Folder? {
      var inner := Join(path, n.name);
      WalkDistinct(n.content, inner);
      ComponentsJoin(path, n.name);
      var walk := Preorder(n.content, inner);
      forall j | 0 <= j < |walk| ensures walk[j].path != inner {
        WalkLeads(n.content, inner, walk[j]);
      }
    }
  }

  /**
   * With distinct sibling names, the index has no path twice, and every entry's path, split at the slashes,
   * leads from the root to a node with the entry's name, size and kind.
   */
  lemma IndexPathsResolve(nodes: seq<Node>)
    requires DistinctNames(nodes)
    ensures forall e :: e in CreateIndexOf(nodes) ==>
              var n := Resolve(nodes, Components(e.path));
              !n.Null? && e.name == n.name && e.size == n.size && e.isFolder == n.Folder?
    ensures DistinctPaths(CreateIndexOf(nodes))
  {
    IndexIsSortedPermutation(nodes);
    WalkDistinct(nodes, "");
    var walk, index := Preorder(nodes, ""), CreateIndexOf(nodes);
    forall e | e in index
      ensures var n := Resolve(nodes, Components(e.path));
              !n.Null? && e.name == n.name && e.size == n.size && e.isFolder == n.Folder?
    {
      assert e in multiset(index);
      assert e in walk;
      WalkLeads(nodes, "", e);
      assert Components(e.path)[0..] == Components(e.path);
    }
    PermutationKeepsDistinct(walk, index, PathOf);
  }

  /** Every node that names lead to has been walked, under the path that consists of these names. */
  lemma {:induction false} WalkReaches(nodes: seq<Node>, path: string, names: seq<string>) returns (e: IndexElement)
    requires DistinctNames(nodes) && !Resolve(nodes, names).Null?
    ensures e in Preorder(nodes, path) && Components(e.path) == Above(path) + names
    ensures e == ElementOf(Resolve(nodes, names), e.path)
    decreases names, |nodes|
  {
    hide Components, Lower;
    var n := nodes[0];
    if n.Null? || n.name != names[0] {
      e := WalkReaches(nodes[1..], path, names);
    } else {
      var inner := Join(path, n.name);
      OwnPathLeads(nodes, path);
      assert names == [n.name] + names[1..];
      if |names| == 1 {
        e := ElementOf(n, inner);
        assert PreorderOne(n, path)[0] == e;
      } else {
        e := WalkReaches(n.content, inner, names[1..]);
        assert Above(inner) + names[1..] == Above(path) + names;
      }
    }
  }

  /** Conversely, every node below the root has an entry, under its own path. */
  lemma EveryNodeIsIndexed(nodes: seq<Node>, names: seq<string>)
    requires DistinctNames(nodes)
    ensures !Resolve(nodes, names).Null? <==> exists e :: e in CreateIndexOf(nodes) && Components(e.path) == names
  {
    hide Components, Resolve;
    IndexIsSortedPermutation(nodes);
    IndexPathsResolve(nodes);
    var walk, index := Preorder(nodes, ""), CreateIndexOf(nodes);
    if !Resolve(nodes, names).Null? {
      var e := WalkReaches(nodes, "", names);
      assert Above("") + names == names;
      assert e in multiset(walk);
      assert e in index;
    }
  }

  // ----- Searching the index of a tree -----

  /** On the index of any tree, a literal search is complete under the conditions of `LiteralSearchIsComplete`. */
  lemma SearchOnIndexIsComplete(nodes: seq<Node>, p: Pattern)
    requires Literal(p)
    requires var index := CreateIndexOf(nodes);
      !NeighboursMatch(index, p) || exists e :: e in MatchesOf(Kept(index, p), p) && p.source <= e.lowercase_name
    ensures multiset(SearchResult(CreateIndexOf(nodes), p)) == multiset(MatchesOf(Preorder(nodes, ""), p))
  {
    IndexIsSortedPermutation(nodes);
    LiteralSearchIsComplete(CreateIndexOf(nodes), p);
    MatchesOfPermutation(CreateIndexOf(nodes), Preorder(nodes, ""), p);
  }

  /** The matches of a listing as a multiset depend only on how often each entry occurs. */
  lemma {:induction false} MatchesOfPermutation(a: seq<IndexElement>, b: seq<IndexElement>, p: Pattern)
    requires multiset(a) == multiset(b)
    ensures multiset(MatchesOf(a, p)) == multiset(MatchesOf(b, p))
  {
    forall e ensures multiset(MatchesOf(a, p))[e] == multiset(MatchesOf(b, p))[e] {
      MatchesOfCount(a, p, e);
      MatchesOfCount(b, p, e);
    }
  }

  lemma {:induction false} MatchesOfCount(a: seq<IndexElement>, p: Pattern, e: IndexElement)
    ensures multiset(MatchesOf(a, p))[e] == if p.Matches(e) then multiset(a)[e] else 0
  {
    if a != [] {
      MatchesOfCount(a[..|a| - 1], p, e);
      assert a == a[..|a| - 1] + [a[|a| - 1]];
    }
  }
}
