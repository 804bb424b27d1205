/**
 * Searching a user's index (`searchInIndex`, src/treefiles/treeFiles.service.ts:129-177).
 *
 * The first pass removes matching entries from the array it is iterating over, so the entry that slides into
 * the place of a removed one is never looked at. A binary search over what is left then tries to land on any
 * further match; if it does, two scans pick up all the others.
 */
module IndexSearch {
  import opened Ordering
  import opened Seqs

  datatype IndexElement = IndexElement(
    lowercase_name: string, name: string, path: string, size: int, isFolder: bool)

  /** A compiled pattern: its test, and its source text as the binary search compares it. */
  datatype Pattern = Pattern(test: string -> bool, source: string) {
    predicate Matches(e: IndexElement) {
      test(Lower(e.name))
    }
  }

  // ----- What the search computes -----

  function Taken(xs: seq<IndexElement>, p: Pattern): seq<IndexElement> {
    if xs == [] then []
    else if p.Matches(xs[0]) then [xs[0]] + (if |xs| == 1 then [] else Taken(xs[2..], p))
    else Taken(xs[1..], p)
  }

  function Kept(xs: seq<IndexElement>, p: Pattern): seq<IndexElement> {
    if xs == [] then []
    else if p.Matches(xs[0]) then (if |xs| == 1 then [] else [xs[1]] + Kept(xs[2..], p))
    else [xs[0]] + Kept(xs[1..], p)
  }

  function MatchesOf(xs: seq<IndexElement>, p: Pattern): seq<IndexElement> {
    if xs == [] then []
    else MatchesOf(xs[..|xs| - 1], p) + if p.Matches(xs[|xs| - 1]) then [xs[|xs| - 1]] else []
  }

  /** The index on which the binary search between `left` and `right` lands, or -1. */
  function Probe(xs: seq<IndexElement>, p: Pattern, left: int, right: int): (m: int)
    requires 0 <= left <= right + 1 <= |xs|
    ensures m == -1 || (0 <= m < |xs| && p.Matches(xs[m]))
    decreases right - left + 1
  {
    if left > right then -1
    else
      var mid := (left + right) / 2;
      if p.Matches(xs[mid]) then mid
      else if StrLess(Lower(xs[mid].name), p.source) then Probe(xs, p, mid + 1, right)
      else Probe(xs, p, left, mid - 1)
  }

  /** What the second phase adds: the landing place, the matches below it downwards, those above it upwards. */
  function SecondPhase(xs: seq<IndexElement>, p: Pattern): seq<IndexElement> {
    var m := Probe(xs, p, 0, |xs| - 1);
    if m == -1 then [] else [xs[m]] + Reverse(MatchesOf(xs[..m], p)) + MatchesOf(xs[m + 1..], p)
  }

  function SearchResult(index: seq<IndexElement>, p: Pattern): seq<IndexElement> {
    Taken(index, p) + SecondPhase(Kept(index, p), p)
  }

  // ----- The algorithm -----

  lemma {:induction false} MatchesOfConcat(xs: seq<IndexElement>, ys: seq<IndexElement>, p: Pattern)
    ensures MatchesOf(xs + ys, p) == MatchesOf(xs, p) + MatchesOf(ys, p)
  {
    if ys == [] {
      assert xs + ys == xs;
    } else {
      assert (xs + ys)[..|xs + ys| - 1] == xs + ys[..|ys| - 1];
      MatchesOfConcat(xs, ys[..|ys| - 1], p);
    }
  }

  lemma MatchesOfSingle(x: IndexElement, p: Pattern)
    ensures MatchesOf([x], p) == if p.Matches(x) then [x] else []
  {
    assert [x][..0] == [];
  }

  method SearchInIndex(index: seq<IndexElement>, p: Pattern) returns (results: seq<IndexElement>)
    ensures results == SearchResult(index, p)
  {
    hide Taken, Kept, MatchesOf, Reverse, StrLess, Lower;
    var files;
    results, files := SplicePass(index, p);
    ghost var taken := results;
    var left, right := 0, |files| - 1;
    while left <= right
      invariant 0 <= left <= right + 1 <= |files|
      invariant results == taken
      invariant Probe(files, p, left, right) == Probe(files, p, 0, |files| - 1)
    {
      var mid := (left + right) / 2;
      var midName := Lower(files[mid].name);
      if p.test(midName) {
        results := results + [files[mid]];
        var below := ScanDown(files, p, mid);
        var above := ScanUp(files, p, mid + 1);
        results := results + below + above;
        SecondPhaseAt(files, p, mid, below + above);
        Assoc(taken, [files[mid]], below + above);
        Assoc(taken + [files[mid]], below, above);
        return;
      } else if StrLess(midName, p.source) {
        left := mid + 1;
      } else {
        right := mid - 1;
      }
    }
  }

  lemma SecondPhaseAt(files: seq<IndexElement>, p: Pattern, mid: nat, more: seq<IndexElement>)
    requires mid < |files| && Probe(files, p, 0, |files| - 1) == mid
    requires more == Reverse(MatchesOf(files[..mid], p)) + MatchesOf(files[mid + 1..], p)
    ensures SecondPhase(files, p) == [files[mid]] + more
  {
    Assoc([files[mid]], Reverse(MatchesOf(files[..mid], p)), MatchesOf(files[mid + 1..], p));
  }

  lemma Assoc<T>(a: seq<T>, b: seq<T>, c: seq<T>)
    ensures a + b + c == a + (b + c)
  {}

  /** `forEach` visits the positions the array had at the start, as far as the shrinking array still has them. */
  method SplicePass(index: seq<IndexElement>, p: Pattern)
      returns (results: seq<IndexElement>, files: seq<IndexElement>)
    ensures results == Taken(index, p) && files == Kept(index, p)
  {
    results, files := [], index;
    ghost var done, rest := [], index;
    for i := 0 to |index|
      invariant files == done + rest && |files| <= |index|
      invariant |done| == i || (rest == [] && |done| <= i)
      invariant results + Taken(rest, p) == Taken(index, p)
      invariant done + Kept(rest, p) == Kept(index, p)
    {
      if i < |files| {
        assert files[i] == rest[0];
        if p.test(Lower(files[i].name)) {
          Assoc(results, [rest[0]], if |rest| == 1 then [] else Taken(rest[2..], p));
          results := results + [files[i]];
          files := files[..i] + files[i + 1..];
          assert files == done + rest[1..];
          if |rest| == 1 {
            rest := [];
          } else {
            assert rest[1..] == [rest[1]] + rest[2..];
            Assoc(done, [rest[1]], rest[2..]);
            Assoc(done, [rest[1]], Kept(rest[2..], p));
            done, rest := done + [rest[1]], rest[2..];
          }
        } else {
          assert rest == [rest[0]] + rest[1..];
          Assoc(done, [rest[0]], rest[1..]);
          Assoc(done, [rest[0]], Kept(rest[1..], p));
          done, rest := done + [rest[0]], rest[1..];
        }
      }
    }
  }

  lemma DownStep(files: seq<IndexElement>, p: Pattern, i: nat, mid: nat)
    requires i < mid <= |files|
    ensures Reverse(MatchesOf(files[i..mid], p))
         == Reverse(MatchesOf(files[i + 1..mid], p)) + if p.Matches(files[i]) then [files[i]] else []
  {
    hide MatchesOf;
    var tail := MatchesOf(files[i + 1..mid], p);
    assert files[i..mid] == [files[i]] + files[i + 1..mid];
    MatchesOfConcat([files[i]], files[i + 1..mid], p);
    MatchesOfSingle(files[i], p);
    assert [] + tail == tail;
    assert ([files[i]] + tail)[1..] == tail;
  }

  lemma UpStep(files: seq<IndexElement>, p: Pattern, lo: nat, j: nat)
    requires lo <= j < |files|
    ensures MatchesOf(files[lo..j + 1], p) == MatchesOf(files[lo..j], p) + if p.Matches(files[j]) then [files[j]] else []
  {
    assert files[lo..j + 1][..j - lo] == files[lo..j];
  }

  lemma NoMatches(p: Pattern)
    ensures MatchesOf([], p) == [] && Reverse<IndexElement>([]) == []
  {}

  method ScanDown(files: seq<IndexElement>, p: Pattern, mid: nat) returns (found: seq<IndexElement>)
    requires mid < |files|
    ensures found == Reverse(MatchesOf(files[..mid], p))
  {
    hide MatchesOf;
    found := [];
    var i := mid - 1;
    NoMatches(p);
    assert files[mid..mid] == [];
    while i >= 0
      invariant -1 <= i < mid
      invariant found == Reverse(MatchesOf(files[i + 1..mid], p))
    {
      DownStep(files, p, i, mid);
      if p.test(Lower(files[i].name)) {
        found := found + [files[i]];
      }
      i := i - 1;
    }
    assert files[0..mid] == files[..mid];
  }

  method ScanUp(files: seq<IndexElement>, p: Pattern, start: nat) returns (found: seq<IndexElement>)
    requires start <= |files|
    ensures found == MatchesOf(files[start..], p)
  {
    hide MatchesOf;
    found := [];
    var j := start;
    NoMatches(p);
    assert files[start..start] == [];
    while j < |files|
      invariant start <= j <= |files|
      invariant found == MatchesOf(files[start..j], p)
    {
      UpStep(files, p, start, j);
      if p.test(Lower(files[j].name)) {
        found := found + [files[j]];
      }
      j := j + 1;
    }
    assert files[start..|files|] == files[start..];
  }
}
