/** What a search finds, and exactly when it finds everything. */
module SearchTheorems {
  import opened Ordering
  import opened Seqs
  import opened IndexSearch

  // ----- Nothing wrong, nothing twice, at least half -----

  /** The matches a search does not return. */
  function Missed(index: seq<IndexElement>, p: Pattern): seq<IndexElement> {
    var rest := Kept(index, p);
    if Probe(rest, p, 0, |rest| - 1) == -1 then MatchesOf(rest, p) else []
  }

  lemma {:induction false} MatchesOfMatch(xs: seq<IndexElement>, p: Pattern)
    ensures forall e :: e in MatchesOf(xs, p) <==> e in xs && p.Matches(e)
  {
    if xs != [] {
      MatchesOfMatch(xs[..|xs| - 1], p);
      assert xs == xs[..|xs| - 1] + [xs[|xs| - 1]];
    }
  }

  lemma MatchesOfCons(xs: seq<IndexElement>, p: Pattern)
    requires xs != []
    ensures MatchesOf(xs, p) == (if p.Matches(xs[0]) then [xs[0]] else []) + MatchesOf(xs[1..], p)
  {
    assert xs == [xs[0]] + xs[1..];
    MatchesOfConcat([xs[0]], xs[1..], p);
    MatchesOfSingle(xs[0], p);
  }

  /** The first pass splits the matches into those it takes and those it jumps over. */
  lemma {:induction false} PassSplits(xs: seq<IndexElement>, p: Pattern)
    ensures multiset(MatchesOf(xs, p)) == multiset(Taken(xs, p)) + multiset(MatchesOf(Kept(xs, p), p))
    ensures |MatchesOf(Kept(xs, p), p)| <= |Taken(xs, p)|
  {
    hide MatchesOf;
    if xs == [] {
      NoMatches(p);
    } else {
      MatchesOfCons(xs, p);
      if !p.Matches(xs[0]) {
        PassSplits(xs[1..], p);
        MatchesOfCons(Kept(xs, p), p);
        assert Kept(xs, p)[1..] == Kept(xs[1..], p);
      } else if |xs| > 1 {
        PassSplits(xs[2..], p);
        MatchesOfCons(xs[1..], p);
        assert xs[1..][1..] == xs[2..];
        MatchesOfCons(Kept(xs, p), p);
        assert Kept(xs, p)[1..] == Kept(xs[2..], p);
      } else {
        assert xs[1..] == [];
        NoMatches(p);
      }
    }
  }

  lemma SecondPhaseFinds(xs: seq<IndexElement>, p: Pattern)
    ensures multiset(SecondPhase(xs, p))
         == if Probe(xs, p, 0, |xs| - 1) == -1 then multiset{} else multiset(MatchesOf(xs, p))
  {
    var m := Probe(xs, p, 0, |xs| - 1);
    if m != -1 {
      assert xs == xs[..m] + ([xs[m]] + xs[m + 1..]);
      MatchesOfConcat(xs[..m], [xs[m]] + xs[m + 1..], p);
      MatchesOfConcat([xs[m]], xs[m + 1..], p);
      MatchesOfSingle(xs[m], p);
      ReverseSame(MatchesOf(xs[..m], p));
    }
  }

  /** A kept match was jumped over right after the removal of a match. */
  lemma {:induction false} KeptMatchFollowsRemoval(xs: seq<IndexElement>, p: Pattern, e: IndexElement)
    requires e in Kept(xs, p) && p.Matches(e)
    ensures exists i :: 0 < i < |xs| && xs[i] == e && xs[i - 1] in Taken(xs, p) && p.Matches(xs[i - 1])
  {
    if !p.Matches(xs[0]) {
      KeptMatchFollowsRemoval(xs[1..], p, e);
      var i :| 0 < i < |xs[1..]| && xs[1..][i] == e && xs[1..][i - 1] in Taken(xs[1..], p) && p.Matches(xs[1..][i - 1]);
      assert xs[i + 1] == e && xs[i + 1 - 1] == xs[1..][i - 1];
    } else if e == xs[1] {
      assert xs[1] == e && xs[1 - 1] in Taken(xs, p);
    } else {
      KeptMatchFollowsRemoval(xs[2..], p, e);
      var i :| 0 < i < |xs[2..]| && xs[2..][i] == e && xs[2..][i - 1] in Taken(xs[2..], p) && p.Matches(xs[2..][i - 1]);
      assert xs[i + 2] == e && xs[i + 2 - 1] == xs[2..][i - 1];
    }
  }

  /**
   * For every index and every pattern, the results and the missed entries together are exactly the matches,
   * counted with multiplicity: nothing that does not match is returned and nothing is returned twice. At most
   * half of the matches are missed, and each missed one directly follows a returned one in the index.
   */
  lemma SearchFindsAtLeastHalf(index: seq<IndexElement>, p: Pattern)
    ensures multiset(SearchResult(index, p)) + multiset(Missed(index, p)) == multiset(MatchesOf(index, p))
    ensures forall e :: e in SearchResult(index, p) ==> e in index && p.Matches(e)
    ensures |Missed(index, p)| <= |SearchResult(index, p)|
    ensures |MatchesOf(index, p)| <= 2 * |SearchResult(index, p)|
    ensures forall e :: e in Missed(index, p) ==>
              exists i :: 0 < i < |index| && index[i] == e && index[i - 1] in SearchResult(index, p)
  {
    var rest := Kept(index, p);
    PassSplits(index, p);
    SecondPhaseFinds(rest, p);
    MatchesOfMatch(index, p);
    MatchesOfMatch(rest, p);
    var found, all := SearchResult(index, p), MatchesOf(index, p);
    assert multiset(found) == multiset(Taken(index, p)) + multiset(SecondPhase(rest, p));
    forall e | e in found ensures e in index && p.Matches(e) {
      assert e in multiset(found);
      assert e in all;
    }
    assert |multiset(all)| == |multiset(found)| + |multiset(Missed(index, p))|;
    forall e | e in Missed(index, p)
      ensures exists i :: 0 < i < |index| && index[i] == e && index[i - 1] in SearchResult(index, p)
    {
      KeptMatchFollowsRemoval(index, p, e);
    }
  }

  // ----- When the search is complete -----

  /** Two entries next to each other in the index both match. */
  ghost predicate NeighboursMatch(xs: seq<IndexElement>, p: Pattern) {
    exists i :: 0 < i < |xs| && p.Matches(xs[i - 1]) && p.Matches(xs[i])
  }

  lemma NeighboursFurther(xs: seq<IndexElement>, p: Pattern, k: nat)
    requires k <= |xs| && forall i :: 0 < i <= k && i < |xs| ==> !(p.Matches(xs[i - 1]) && p.Matches(xs[i]))
    ensures NeighboursMatch(xs, p) <==> NeighboursMatch(xs[k..], p)
  {
    if i :| 0 < i < |xs| && p.Matches(xs[i - 1]) && p.Matches(xs[i]) {
      assert xs[k..][i - k - 1] == xs[i - 1] && xs[k..][i - k] == xs[i];
    }
    if i :| 0 < i < |xs[k..]| && p.Matches(xs[k..][i - 1]) && p.Matches(xs[k..][i]) {
      assert xs[k..][i - 1] == xs[i + k - 1] && xs[k..][i] == xs[i + k];
    }
  }

  /** The first pass jumps over a match exactly when two neighbours match. */
  lemma {:induction false} SkipsIffNeighboursMatch(xs: seq<IndexElement>, p: Pattern)
    ensures MatchesOf(Kept(xs, p), p) == [] <==> !NeighboursMatch(xs, p)
  {
    hide MatchesOf;
    if xs == [] {
      NoMatches(p);
    } else if !p.Matches(xs[0]) {
      SkipsIffNeighboursMatch(xs[1..], p);
      NeighboursFurther(xs, p, 1);
      MatchesOfCons(Kept(xs, p), p);
      assert Kept(xs, p)[1..] == Kept(xs[1..], p);
    } else if |xs| == 1 {
      NoMatches(p);
    } else {
      MatchesOfCons(Kept(xs, p), p);
      assert Kept(xs, p)[1..] == Kept(xs[2..], p);
      if p.Matches(xs[1]) {
        assert p.Matches(xs[1 - 1]) && NeighboursMatch(xs, p);
      } else {
        SkipsIffNeighboursMatch(xs[2..], p);
        NeighboursFurther(xs, p, 2);
      }
    }
  }

  /** Entries carry their lower-cased name and are sorted by it, as `createIndex` leaves them. */
  ghost predicate SortedIndex(xs: seq<IndexElement>) {
    && (forall e :: e in xs ==> e.lowercase_name == Lower(e.name))
    && Sorted(xs, ByLowercaseName)
  }

  predicate ByLowercaseName(a: IndexElement, b: IndexElement) {
    StrLe(a.lowercase_name, b.lowercase_name)
  }

  /** A pattern without special characters matches the names that contain it. */
  ghost predicate Literal(p: Pattern) {
    forall s :: p.test(s) <==> Contains(s, p.source)
  }

  lemma SuffixSorted(xs: seq<IndexElement>, k: nat)
    requires SortedIndex(xs) && k < |xs|
    ensures SortedIndex(xs[k + 1..])
    ensures forall e :: e in xs[k + 1..] ==> e in xs && ByLowercaseName(xs[k], e)
  {
    var rest := xs[k + 1..];
    forall e | e in rest ensures e in xs && ByLowercaseName(xs[k], e) {
      var i :| 0 <= i < |rest| && rest[i] == e;
      assert xs[k + 1 + i] == e;
    }
    forall i, j | 0 <= i < j < |rest| ensures ByLowercaseName(rest[i], rest[j]) {
      assert rest[i] == xs[k + 1 + i] && rest[j] == xs[k + 1 + j];
    }
  }

  lemma ConsSortedIndex(x: IndexElement, xs: seq<IndexElement>)
    requires SortedIndex(xs) && x.lowercase_name == Lower(x.name)
    requires forall e :: e in xs ==> ByLowercaseName(x, e)
    ensures SortedIndex([x] + xs)
  {}

  lemma {:induction false} KeptSorted(xs: seq<IndexElement>, p: Pattern)
    requires SortedIndex(xs)
    ensures SortedIndex(Kept(xs, p)) && forall e :: e in Kept(xs, p) ==> e in xs
  {
    hide SortedIndex, ByLowercaseName;
    if xs == [] || (|xs| == 1 && p.Matches(xs[0])) {
      EmptySorted();
    } else {
      var k := if p.Matches(xs[0]) then 1 else 0;
      SuffixSorted(xs, k);
      KeptSorted(xs[k + 1..], p);
      NamesLowered(xs, xs[k]);
      ConsSortedIndex(xs[k], Kept(xs[k + 1..], p));
    }
  }

  lemma EmptySorted()
    ensures SortedIndex([])
  {}

  lemma NamesLowered(xs: seq<IndexElement>, e: IndexElement)
    requires SortedIndex(xs) && e in xs
    ensures e.lowercase_name == Lower(e.name)
  {}

  /** An entry that begins with the pattern lies on the side of a non-matching probe that the comparison picks. */
  lemma PrefixSide(xs: seq<IndexElement>, p: Pattern, mid: int, k: int)
    requires 0 <= mid < |xs| && 0 <= k < |xs| && SortedIndex(xs)
    requires p.source <= xs[k].lowercase_name && !(p.source <= xs[mid].lowercase_name)
    ensures if StrLess(xs[mid].lowercase_name, p.source) then mid < k else k < mid
  {
    hide Lower, StrLe;
    var name, found := xs[mid].lowercase_name, xs[k].lowercase_name;
    PrefixLe(p.source, found);
    StrTotal(p.source, name);
    if StrLess(name, p.source) {
      if k < mid {
        assert ByLowercaseName(xs[k], xs[mid]);
        StrTransitive(p.source, found, name);
        StrAntisymmetric(p.source, name);
      }
    } else {
      PrefixBlock(p.source, found, name);
      if mid < k {
        assert ByLowercaseName(xs[mid], xs[k]);
        StrAntisymmetric(name, found);
      }
    }
  }

  /** The binary search lands if some entry in its window begins with the pattern: such entries form a block. */
  lemma {:induction false} ProbeLands(xs: seq<IndexElement>, p: Pattern, left: int, right: int, k: int)
    requires 0 <= left <= k <= right < |xs| && SortedIndex(xs)
    requires p.source <= xs[k].lowercase_name
    requires forall s :: p.source <= s ==> p.test(s)
    ensures Probe(xs, p, left, right) != -1
    decreases right - left
  {
    hide SortedIndex, StrLess;
    var mid := (left + right) / 2;
    NamesLowered(xs, xs[mid]);
    if !p.Matches(xs[mid]) {
      PrefixSide(xs, p, mid, k);
      if StrLess(xs[mid].lowercase_name, p.source) {
        ProbeLands(xs, p, mid + 1, right, k);
      } else {
        ProbeLands(xs, p, left, mid - 1, k);
      }
    }
  }

  lemma CompleteIffNothingMissed(index: seq<IndexElement>, p: Pattern)
    ensures multiset(SearchResult(index, p)) == multiset(MatchesOf(index, p)) <==> Missed(index, p) == []
  {
    SearchFindsAtLeastHalf(index, p);
    assert |multiset(Missed(index, p))| == |Missed(index, p)|;
  }

  /**
   * On a sorted index, a literal search returns exactly the matches if no two neighbours match, or if the first
   * pass jumped over a match that begins with the pattern.
   */
  lemma LiteralSearchIsComplete(index: seq<IndexElement>, p: Pattern)
    requires SortedIndex(index) && Literal(p)
    requires !NeighboursMatch(index, p)
             || exists e :: e in MatchesOf(Kept(index, p), p) && p.source <= e.lowercase_name
    ensures multiset(SearchResult(index, p)) == multiset(MatchesOf(index, p))
  {
    hide Probe, Kept, MatchesOf, SearchResult, NeighboursMatch;
    var rest := Kept(index, p);
    SkipsIffNeighboursMatch(index, p);
    KeptSorted(index, p);
    MatchesOfMatch(rest, p);
    if e :| e in MatchesOf(rest, p) && p.source <= e.lowercase_name {
      var k :| 0 <= k < |rest| && rest[k] == e;
      forall s | p.source <= s ensures p.test(s) {
        assert Contains(s, p.source);
      }
      ProbeLands(rest, p, 0, |rest| - 1, k);
    }
    CompleteIffNothingMissed(index, p);
  }

  /** The positions that a plain binary search for `source` looks at, whatever the pattern matches. */
  function ProbePath(xs: seq<IndexElement>, source: string, left: int, right: int): (path: seq<int>)
    requires 0 <= left <= right + 1 <= |xs|
    ensures forall m :: m in path ==> left <= m <= right
    decreases right - left + 1
  {
    if left > right then []
    else
      var mid := (left + right) / 2;
      [mid] + if StrLess(Lower(xs[mid].name), source) then ProbePath(xs, source, mid + 1, right)
              else ProbePath(xs, source, left, mid - 1)
  }

  /** One of the positions on a path holds a match. */
  ghost predicate Hits(xs: seq<IndexElement>, p: Pattern, path: seq<int>) {
    exists m :: m in path && 0 <= m < |xs| && p.Matches(xs[m])
  }

  lemma HitsCons(xs: seq<IndexElement>, p: Pattern, mid: int, rest: seq<int>)
    requires 0 <= mid < |xs|
    ensures Hits(xs, p, [mid] + rest) <==> p.Matches(xs[mid]) || Hits(xs, p, rest)
  {
    var path := [mid] + rest;
    assert path[0] == mid;
    if m :| m in rest && 0 <= m < |xs| && p.Matches(xs[m]) {
      assert m in path;
    }
  }

  lemma {:induction false} ProbeFollowsPath(xs: seq<IndexElement>, p: Pattern, left: int, right: int)
    requires 0 <= left <= right + 1 <= |xs|
    ensures Probe(xs, p, left, right) != -1 <==> Hits(xs, p, ProbePath(xs, p.source, left, right))
    decreases right - left + 1
  {
    if left <= right {
      hide Hits, StrLess, Pattern.Matches;
      var mid := (left + right) / 2;
      var below := StrLess(Lower(xs[mid].name), p.source);
      var lo, hi := if below then mid + 1 else left, if below then right else mid - 1;
      ProbeFollowsPath(xs, p, lo, hi);
      HitsCons(xs, p, mid, ProbePath(xs, p.source, lo, hi));
    }
  }

  /**
   * For every index and pattern, the search is complete exactly when no two neighbours of the index match, or, in
   * what the first pass leaves, one of the positions that a plain binary search for the pattern's text visits holds a match.
   */
  lemma SearchCompleteIff(index: seq<IndexElement>, p: Pattern)
    ensures
      var rest := Kept(index, p);
      multiset(SearchResult(index, p)) == multiset(MatchesOf(index, p))
      <==> !NeighboursMatch(index, p)
           || Hits(rest, p, ProbePath(rest, p.source, 0, |rest| - 1))
  {
    hide Probe, ProbePath, Kept, MatchesOf, SearchResult, NeighboursMatch;
    CompleteIffNothingMissed(index, p);
    SkipsIffNeighboursMatch(index, p);
    var rest := Kept(index, p);
    ProbeFollowsPath(rest, p, 0, |rest| - 1);
  }

  // ----- What a match is: case does not count -----

  /** `text` occurs in `name` from place `i` on, but for the case of letters. */
  predicate OccursUpToCase(name: string, text: string, i: int) {
    0 <= i <= |name| - |text| && SameUpToCase(name[i..i + |text|], text)
  }

  ghost predicate ContainsUpToCase(name: string, text: string) {
    exists i :: OccursUpToCase(name, text, i)
  }

  /** Names that differ in case only match the same patterns; a name without upper-case letters is tested as it is. */
  lemma MatchesIgnoresCase(e: IndexElement, other: IndexElement, p: Pattern)
    ensures SameUpToCase(e.name, other.name) ==> (p.Matches(e) <==> p.Matches(other))
    ensures NoUpper(e.name) ==> (p.Matches(e) <==> p.test(e.name))
    ensures exists s :: SameUpToCase(e.name, s) && NoUpper(s) && (p.Matches(e) <==> p.test(s))
  {
    SameLowerIff(e.name, other.name);
    LowerMeaning(e.name);
  }

  /** The pattern for a search text without special characters. */
  function PatternFor(text: string): Pattern {
    LiteralPattern(Lower(text))
  }

  lemma MatchesTextIff(e: IndexElement, text: string)
    ensures PatternFor(text).Matches(e) <==> ContainsUpToCase(e.name, text)
  {
    var name := Lower(e.name);
    ContainsIff(name, Lower(text));
    if i :| OccursAt(name, Lower(text), i) {
      LowerSlice(e.name, i, i + |text|);
      SameLowerIff(e.name[i..i + |text|], text);
      assert OccursUpToCase(e.name, text, i);
    }
    if i :| OccursUpToCase(e.name, text, i) {
      LowerSlice(e.name, i, i + |text|);
      SameLowerIff(e.name[i..i + |text|], text);
      assert OccursAt(name, Lower(text), i);
    }
  }

  /**
   * Searching for a text returns only entries whose name contains it in upper or lower case; and all of them, if no two
   * neighbours of the index do.
   */
  lemma SearchForText(index: seq<IndexElement>, text: string)
    ensures
      var found := SearchResult(index, PatternFor(text));
      && (forall e :: e in found ==> e in index && ContainsUpToCase(e.name, text))
      && ((forall i :: 0 < i < |index| ==>
             !(ContainsUpToCase(index[i - 1].name, text) && ContainsUpToCase(index[i].name, text)))
          ==> forall e :: e in index && ContainsUpToCase(e.name, text) ==> e in found)
  {
    var p := PatternFor(text);
    forall e: IndexElement ensures p.Matches(e) <==> ContainsUpToCase(e.name, text) { MatchesTextIff(e, text); }
    hide PatternFor, ContainsUpToCase, Kept, MatchesOf, SearchResult, Missed;
    SearchFindsAtLeastHalf(index, p);
    if forall i :: 0 < i < |index| ==>
         !(ContainsUpToCase(index[i - 1].name, text) && ContainsUpToCase(index[i].name, text))
    {
      assert !NeighboursMatch(index, p);
      SearchCompleteIff(index, p);
      FoundWhenComplete(index, p);
    }
  }

  lemma FoundWhenComplete(index: seq<IndexElement>, p: Pattern)
    requires multiset(SearchResult(index, p)) == multiset(MatchesOf(index, p))
    ensures forall e :: e in index && p.Matches(e) ==> e in SearchResult(index, p)
  {
    MatchesOfMatch(index, p);
    forall e | e in index && p.Matches(e) ensures e in SearchResult(index, p) {
      assert e in MatchesOf(index, p);
      assert e in multiset(MatchesOf(index, p));
    }
  }

  // ----- The order of the results -----

  /** `found` stands in `xs` at the ascending places `at`. */
  ghost predicate Places(xs: seq<IndexElement>, found: seq<IndexElement>, at: seq<nat>) {
    && |at| == |found|
    && (forall k :: 0 <= k < |at| ==> at[k] < |xs| && xs[at[k]] == found[k])
    && forall j, k :: 0 <= j < k < |at| ==> at[j] < at[k]
  }

  function Shifted(at: seq<nat>, n: nat): (r: seq<nat>)
    ensures |r| == |at| && forall k :: 0 <= k < |at| ==> r[k] == at[k] + n
  {
    seq(|at|, k requires 0 <= k < |at| => at[k] + n)
  }

  lemma PlacesShifted(xs: seq<IndexElement>, found: seq<IndexElement>, at: seq<nat>, n: nat)
    requires n <= |xs| && Places(xs[n..], found, at)
    ensures Places(xs, found, Shifted(at, n))
  {
    forall k | 0 <= k < |at| ensures xs[Shifted(at, n)[k]] == found[k] {
      assert xs[n..][at[k]] == xs[at[k] + n];
    }
  }

  lemma PlacesAfterFirst(xs: seq<IndexElement>, found: seq<IndexElement>, at: seq<nat>)
    requires xs != [] && Places(xs, found, at) && forall k :: 0 <= k < |at| ==> at[k] > 0
    ensures Places(xs, [xs[0]] + found, [0] + at)
  {}

  lemma {:induction false} MatchPlaces(xs: seq<IndexElement>, p: Pattern) returns (at: seq<nat>)
    ensures Places(xs, MatchesOf(xs, p), at)
  {
    at := [];
    if xs != [] {
      at := MatchPlaces(xs[..|xs| - 1], p);
      if p.Matches(xs[|xs| - 1]) { at := at + [|xs| - 1]; }
    }
  }

  lemma {:induction false} ReversePlaces<T>(s: seq<T>)
    ensures forall k :: 0 <= k < |s| ==> Reverse(s)[k] == s[|s| - 1 - k]
  {
    if s != [] { ReversePlaces(s[1..]); }
  }

  /** The first pass returns what it takes in the order of the index. */
  lemma {:induction false} TakenPlaces(xs: seq<IndexElement>, p: Pattern) returns (at: seq<nat>)
    ensures Places(xs, Taken(xs, p), at)
  {
    hide Places;
    if xs == [] {
      at := [];
      NoPlaces(xs);
    } else if !p.Matches(xs[0]) {
      at := TakenPlaces(xs[1..], p);
      PlacesShifted(xs, Taken(xs[1..], p), at, 1);
      at := Shifted(at, 1);
    } else {
      var n: nat := if |xs| == 1 then 1 else 2;
      var rest := Taken(xs[n..], p);
      at := TakenPlaces(xs[n..], p);
      PlacesShifted(xs, rest, at, n);
      at := Shifted(at, n);
      PlacesAfterFirst(xs, rest, at);
      at := [0] + at;
    }
  }

  lemma NoPlaces(xs: seq<IndexElement>)
    ensures Places(xs, [], [])
  {}

  /**
   * The second phase returns its landing place first, then what lies below it from near to far, then what lies above
   * it from near to far.
   */
  lemma SecondPhaseOrder(xs: seq<IndexElement>, p: Pattern) returns (below: seq<nat>, above: seq<nat>)
    requires Probe(xs, p, 0, |xs| - 1) != -1
    ensures
      var m, n, found := Probe(xs, p, 0, |xs| - 1), |below|, SecondPhase(xs, p);
      && |found| == 1 + n + |above| && found[0] == xs[m]
      && (forall k :: 0 <= k < n ==> below[k] < m && xs[below[k]] == found[n - k])
      && (forall k :: 0 <= k < |above| ==> m < above[k] < |xs| && xs[above[k]] == found[1 + n + k])
    ensures forall j, k :: 0 <= j < k < |below| ==> below[j] < below[k]
    ensures forall j, k :: 0 <= j < k < |above| ==> above[j] < above[k]
  {
    var m := Probe(xs, p, 0, |xs| - 1);
    hide Probe, MatchesOf;
    var lower, higher := MatchesOf(xs[..m], p), MatchesOf(xs[m + 1..], p);
    below := MatchPlaces(xs[..m], p);
    above := MatchPlaces(xs[m + 1..], p);
    PlacesShifted(xs, higher, above, m + 1);
    above := Shifted(above, m + 1);
    ReversePlaces(lower);
    var found := [xs[m]] + Reverse(lower) + higher;
    assert SecondPhase(xs, p) == found;
    forall k | 0 <= k < |below| ensures xs[below[k]] == found[|below| - k] {
      assert found[|below| - k] == Reverse(lower)[|below| - k - 1];
    }
    forall k | 0 <= k < |above| ensures m < above[k] < |xs| && xs[above[k]] == found[1 + |below| + k] {
      assert found[1 + |below| + k] == higher[k];
    }
  }

  // ----- A search that loses a match -----

  function Entry(name: string): IndexElement {
    IndexElement(Lower(name), name, name, 0, false)
  }

  function LiteralPattern(text: string): Pattern {
    Pattern(s => Contains(s, text), text)
  }

  /** Searching `p` among `1p, 2p, a, b`: `2p` slides into the place of `1p`, and the binary search misses it. */
  lemma SearchCanLoseAMatch()
    ensures
      var index := [Entry("1p"), Entry("2p"), Entry("a"), Entry("b")];
      SortedIndex(index) && Literal(LiteralPattern("p"))
      && SearchResult(index, LiteralPattern("p")) == [Entry("1p")]
      && Missed(index, LiteralPattern("p")) == [Entry("2p")]
  {
    var p := LiteralPattern("p");
    var e1, e2, a, b := Entry("1p"), Entry("2p"), Entry("a"), Entry("b");
    NamesInOrder();
    PatternOnNames(p, e1, e2, a, b);
    LostSearch(p, e1, e2, a, b);
  }

  lemma NamesInOrder()
    ensures SortedIndex([Entry("1p"), Entry("2p"), Entry("a"), Entry("b")])
  {
    assert Lower("1p") == "1p" && Lower("2p") == "2p" && Lower("a") == "a" && Lower("b") == "b";
  }

  lemma PatternOnNames(p: Pattern, e1: IndexElement, e2: IndexElement, a: IndexElement, b: IndexElement)
    requires p == LiteralPattern("p") && e1 == Entry("1p") && e2 == Entry("2p") && a == Entry("a") && b == Entry("b")
    ensures p.Matches(e1) && p.Matches(e2) && !p.Matches(a) && !p.Matches(b)
    ensures StrLess(Lower(a.name), p.source) && StrLess(Lower(b.name), p.source)
  {
    assert Lower("1p") == "1p" && Lower("2p") == "2p" && Lower("a") == "a" && Lower("b") == "b";
    assert "1p"[1..] == "p" && "2p"[1..] == "p";
    assert Contains("1p", "p") && Contains("2p", "p");
    assert !Contains("a"[1..], "p") && !Contains("b"[1..], "p");
  }

  /** Any index of this shape loses its second match. */
  lemma LostSearch(p: Pattern, e1: IndexElement, e2: IndexElement, a: IndexElement, b: IndexElement)
    requires p.Matches(e1) && p.Matches(e2) && !p.Matches(a) && !p.Matches(b)
    requires StrLess(Lower(a.name), p.source) && StrLess(Lower(b.name), p.source)
    ensures SearchResult([e1, e2, a, b], p) == [e1] && Missed([e1, e2, a, b], p) == [e2]
  {
    var index, rest := [e1, e2, a, b], [e2, a, b];
    assert index[2..] == [a, b] && [a, b][1..] == [b] && [b][1..] == [];
    assert Kept([b], p) == [b] && Taken([b], p) == [];
    assert Kept([a, b], p) == [a, b] && Taken([a, b], p) == [];
    assert Kept(index, p) == rest && Taken(index, p) == [e1];
    assert Probe(rest, p, 2, 2) == Probe(rest, p, 3, 2) == -1;
    assert Probe(rest, p, 0, 2) == -1;
    MatchesOfCons(rest, p);
    MatchesOfCons([a, b], p);
    MatchesOfCons([b], p);
    assert rest[1..] == [a, b];
  }
}
