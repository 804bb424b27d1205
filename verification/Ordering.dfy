/** String order, lower-casing, and the stable sort behind `orderBy`. */
module Ordering {

  // ----- Strings -----

  function LowerChar(c: char): char {
    if 'A' <= c <= 'Z' then 'a' + (c - 'A') else c
  }

  function Lower(s: string): (r: string)
    ensures |r| == |s|
  {
    seq(|s|, i requires 0 <= i < |s| => LowerChar(s[i]))
  }

  /** The same letter, in upper or lower case. */
  predicate SameLetter(c: char, d: char) {
    || c == d
    || ('A' <= c <= 'Z' && d as int == c as int + 32)
    || ('A' <= d <= 'Z' && c as int == d as int + 32)
  }

  /** Two strings that differ in the case of letters only. */
  predicate SameUpToCase(a: string, b: string) {
    |a| == |b| && forall i :: 0 <= i < |a| ==> SameLetter(a[i], b[i])
  }

  predicate NoUpper(s: string) {
    forall i :: 0 <= i < |s| ==> !('A' <= s[i] <= 'Z')
  }

  /** Lower-casing leaves no upper-case letter and changes nothing but case, so it tells apart what differs otherwise. */
  lemma LowerMeaning(s: string)
    ensures NoUpper(Lower(s)) && SameUpToCase(s, Lower(s))
    ensures NoUpper(s) ==> Lower(s) == s
  {}

  lemma SameLowerIff(a: string, b: string)
    ensures Lower(a) == Lower(b) <==> SameUpToCase(a, b)
  {
    if Lower(a) == Lower(b) {
      assert |a| == |b|;
      forall i | 0 <= i < |a| ensures SameLetter(a[i], b[i]) {
        assert Lower(a)[i] == Lower(b)[i];
      }
    }
    if SameUpToCase(a, b) {
      forall i | 0 <= i < |a| ensures Lower(a)[i] == Lower(b)[i] {
        assert SameLetter(a[i], b[i]);
      }
    }
  }

  lemma LowerSlice(s: string, i: nat, j: nat)
    requires i <= j <= |s|
    ensures Lower(s)[i..j] == Lower(s[i..j])
  {}

  /** Lexicographic order on code units, as `<=` on strings. */
  predicate StrLe(a: string, b: string) {
    a == [] || (b != [] && (a[0] < b[0] || (a[0] == b[0] && StrLe(a[1..], b[1..]))))
  }

  predicate StrLess(a: string, b: string) {
    StrLe(a, b) && a != b
  }

  lemma {:induction false} StrTotal(a: string, b: string)
    ensures StrLe(a, b) || StrLe(b, a)
  {
    if a != [] && b != [] { StrTotal(a[1..], b[1..]); }
  }

  lemma {:induction false} StrTransitive(a: string, b: string, c: string)
    requires StrLe(a, b) && StrLe(b, c)
    ensures StrLe(a, c)
  {
    if a != [] && b[0] == a[0] && c[0] == b[0] { StrTransitive(a[1..], b[1..], c[1..]); }
  }

  lemma {:induction false} StrAntisymmetric(a: string, b: string)
    requires StrLe(a, b) && StrLe(b, a)
    ensures a == b
  {
    if a != [] {
      StrAntisymmetric(a[1..], b[1..]);
      assert a == [a[0]] + a[1..] && b == [b[0]] + b[1..];
    }
  }

  lemma {:induction false} PrefixLe(p: string, s: string)
    requires p <= s
    ensures StrLe(p, s)
  {
    if p != [] { PrefixLe(p[1..], s[1..]); }
  }

  /** Strings that begin with `p` form a block: whatever is at least `p` without beginning with it lies above. */
  lemma {:induction false} PrefixBlock(p: string, s: string, above: string)
    requires p <= s && StrLe(p, above) && !(p <= above)
    ensures StrLess(s, above)
  {
    assert p != [] && above != [];
    if p[0] == above[0] {
      assert p[1..] <= s[1..];
      assert p == [p[0]] + p[1..] && above == [above[0]] + above[1..];
      PrefixBlock(p[1..], s[1..], above[1..]);
    }
  }

  /** The order is decided at the first place where two strings differ. */
  lemma {:induction false} StrLeDecides(common: string, a: string, b: string)
    requires a != [] && b != [] && a[0] != b[0]
    ensures StrLe(common + a, common + b) <==> a[0] < b[0]
  {
    if common == [] {
      assert common + a == a && common + b == b;
    } else {
      assert (common + a)[1..] == common[1..] + a && (common + b)[1..] == common[1..] + b;
      StrLeDecides(common[1..], a, b);
    }
  }

  predicate Contains(s: string, part: string) {
    part <= s || (s != [] && Contains(s[1..], part))
  }

  /** `part` stands in `s` from place `i` on. */
  predicate OccursAt(s: string, part: string, i: int) {
    0 <= i <= |s| - |part| && s[i..i + |part|] == part
  }

  lemma OccursFurther(s: string, part: string, i: int)
    requires s != [] && i >= 0
    ensures OccursAt(s, part, i + 1) <==> OccursAt(s[1..], part, i)
  {
    if i + 1 <= |s| - |part| {
      assert s[1..][i..i + |part|] == s[i + 1..i + 1 + |part|];
    }
  }

  lemma {:induction false} ContainsIff(s: string, part: string)
    ensures Contains(s, part) <==> exists i :: OccursAt(s, part, i)
  {
    if part <= s {
      assert OccursAt(s, part, 0);
    } else if s != [] {
      ContainsIff(s[1..], part);
      if i :| OccursAt(s[1..], part, i) {
        OccursFurther(s, part, i);
      }
      if i :| OccursAt(s, part, i) {
        assert i > 0;
        OccursFurther(s, part, i - 1);
      }
    }
  }

  // ----- Stable sort -----

  ghost predicate TotalPreorder<T(!new)>(le: (T, T) -> bool) {
    && (forall a, b :: le(a, b) || le(b, a))
    && forall a, b, c :: le(a, b) && le(b, c) ==> le(a, c)
  }

  ghost predicate Sorted<T>(s: seq<T>, le: (T, T) -> bool) {
    forall i, j :: 0 <= i < j < |s| ==> le(s[i], s[j])
  }

  /** Puts `x` before the first element that is not below it. */
  function Insert<T>(x: T, s: seq<T>, le: (T, T) -> bool): seq<T> {
    if s == [] || le(x, s[0]) then [x] + s else [s[0]] + Insert(x, s[1..], le)
  }

  function StableSort<T>(s: seq<T>, le: (T, T) -> bool): seq<T> {
    if s == [] then [] else Insert(s[0], StableSort(s[1..], le), le)
  }

  lemma {:induction false} InsertAdds<T>(x: T, s: seq<T>, le: (T, T) -> bool)
    ensures multiset(Insert(x, s, le)) == multiset{x} + multiset(s)
  {
    if s != [] && !le(x, s[0]) {
      InsertAdds(x, s[1..], le);
      assert s == [s[0]] + s[1..];
    }
  }

  lemma ConsSorted<T(!new)>(x: T, s: seq<T>, le: (T, T) -> bool)
    requires Sorted(s, le) && forall y :: y in s ==> le(x, y)
    ensures Sorted([x] + s, le)
  {}

  lemma {:induction false} InsertSorted<T(!new)>(x: T, s: seq<T>, le: (T, T) -> bool)
    requires TotalPreorder(le) && Sorted(s, le)
    ensures Sorted(Insert(x, s, le), le)
  {
    if s == [] || le(x, s[0]) {
      forall y | y in s ensures le(x, y) {
        var j :| 0 <= j < |s| && s[j] == y;
        assert j > 0 ==> le(s[0], s[j]);
      }
      ConsSorted(x, s, le);
    } else {
      InsertSorted(x, s[1..], le);
      InsertAdds(x, s[1..], le);
      var r := Insert(x, s[1..], le);
      forall y | y in r ensures le(s[0], y) {
        assert y in multiset(r);
        if y != x {
          var k :| 0 <= k < |s[1..]| && s[1..][k] == y;
          assert le(s[0], s[k + 1]);
        }
      }
      ConsSorted(s[0], r, le);
    }
  }

  predicate Tied<T>(a: T, b: T, le: (T, T) -> bool) {
    le(a, b) && le(b, a)
  }

  /** The elements that the order does not tell from `x`, in their order in `s`. */
  function Ties<T>(s: seq<T>, x: T, le: (T, T) -> bool): seq<T> {
    if s == [] then [] else (if Tied(x, s[0], le) then [s[0]] else []) + Ties(s[1..], x, le)
  }

  /** Inserting keeps the order of elements that are tied. */
  lemma {:induction false} InsertKeepsTies<T(!new)>(x: T, s: seq<T>, le: (T, T) -> bool, y: T)
    requires TotalPreorder(le)
    ensures Ties(Insert(x, s, le), y, le) == Ties([x] + s, y, le)
  {
    assert ([x] + s)[1..] == s;
    if s != [] && !le(x, s[0]) {
      InsertKeepsTies(x, s[1..], le, y);
      assert ([x] + s[1..])[1..] == s[1..];
      var r := Insert(x, s[1..], le);
      assert ([s[0]] + r)[1..] == r;
      assert !(Tied(y, x, le) && Tied(y, s[0], le));
    }
  }

  /** Sorting gives a sorted permutation that leaves elements in their order where the comparison does not decide. */
  lemma {:induction false} StableSortSorts<T(!new)>(s: seq<T>, le: (T, T) -> bool)
    requires TotalPreorder(le)
    ensures Sorted(StableSort(s, le), le)
    ensures multiset(StableSort(s, le)) == multiset(s)
    ensures forall x :: Ties(StableSort(s, le), x, le) == Ties(s, x, le)
  {
    if s != [] {
      var rest := StableSort(s[1..], le);
      StableSortSorts(s[1..], le);
      InsertSorted(s[0], rest, le);
      InsertAdds(s[0], rest, le);
      assert s == [s[0]] + s[1..];
      forall x ensures Ties(Insert(s[0], rest, le), x, le) == Ties(s, x, le) {
        InsertKeepsTies(s[0], rest, le, x);
        assert ([s[0]] + rest)[1..] == rest;
      }
    }
  }

  lemma FirstTied<T(!new)>(s: seq<T>, x: T, le: (T, T) -> bool)
    requires s != [] && Tied(x, s[0], le)
    ensures Ties(s, x, le) != [] && Ties(s, x, le)[0] == s[0] && Ties(s, x, le)[1..] == Ties(s[1..], x, le)
  {}

  lemma {:induction false} TiesInside<T(!new)>(s: seq<T>, x: T, le: (T, T) -> bool, y: T)
    requires y in Ties(s, x, le)
    ensures y in s && Tied(x, y, le)
  {
    if !(Tied(x, s[0], le) && y == s[0]) { TiesInside(s[1..], x, le, y); }
  }

  /** Two sorted sequences with the same ties begin with the same element. */
  lemma SameFirst<T(!new)>(r: seq<T>, t: seq<T>, le: (T, T) -> bool)
    requires TotalPreorder(le) && Sorted(r, le) && Sorted(t, le) && r != []
    requires forall x :: Ties(r, x, le) == Ties(t, x, le)
    ensures t != [] && t[0] == r[0]
  {
    FirstTied(r, r[0], le);
    TiesInside(t, r[0], le, r[0]);
    FirstTied(t, t[0], le);
    TiesInside(r, t[0], le, t[0]);
    var j :| 0 <= j < |t| && t[j] == r[0];
    var k :| 0 <= k < |r| && r[k] == t[0];
    assert (j > 0 ==> le(t[0], t[j])) && (k > 0 ==> le(r[0], r[k]));
    FirstTied(t, r[0], le);
  }

  /** There is only one such sequence, so this says everything about the result of sorting. */
  lemma {:induction false} SortedTiesDecide<T(!new)>(r: seq<T>, t: seq<T>, le: (T, T) -> bool)
    requires TotalPreorder(le) && Sorted(r, le) && Sorted(t, le)
    requires forall x :: Ties(r, x, le) == Ties(t, x, le)
    ensures r == t
  {
    if r == [] {
      if t != [] { FirstTied(t, t[0], le); }
    } else {
      SameFirst(r, t, le);
      forall x ensures Ties(r[1..], x, le) == Ties(t[1..], x, le) {
        if Tied(x, r[0], le) {
          FirstTied(r, x, le);
          FirstTied(t, x, le);
        } else {
          assert Ties(r, x, le) == Ties(r[1..], x, le) && Ties(t, x, le) == Ties(t[1..], x, le);
        }
      }
      SortedTiesDecide(r[1..], t[1..], le);
      assert r == [r[0]] + r[1..] && t == [t[0]] + t[1..];
    }
  }

  // ----- Sequences with distinct keys -----

  ghost predicate DistinctBy<T, K>(s: seq<T>, key: T -> K) {
    forall i, j :: 0 <= i < j < |s| ==> key(s[i]) != key(s[j])
  }

  lemma PermutationKeepsDistinct<T, K>(a: seq<T>, b: seq<T>, key: T -> K)
    requires multiset(a) == multiset(b) && DistinctBy(a, key)
    ensures DistinctBy(b, key)
  {
    forall i, j | 0 <= i < j < |b| ensures key(b[i]) != key(b[j]) {
      assert b[i] in multiset(b) && b[j] in multiset(b);
      var k :| 0 <= k < |a| && a[k] == b[i];
      var l :| 0 <= l < |a| && a[l] == b[j];
      OnceInDistinct(a, k, key);
      CountedTwice(b, i, j);
      assert k != l;
      assert key(a[if k < l then k else l]) != key(a[if k < l then l else k]);
    }
  }

  lemma CountedTwice<T>(b: seq<T>, i: nat, j: nat)
    requires i < j < |b|
    ensures b[i] == b[j] ==> multiset(b)[b[i]] >= 2
  {
    assert b == b[..i] + [b[i]] + b[i + 1..j] + [b[j]] + b[j + 1..];
  }

  lemma OnceInDistinct<T, K>(a: seq<T>, k: nat, key: T -> K)
    requires DistinctBy(a, key) && k < |a|
    ensures multiset(a)[a[k]] == 1
  {
    assert a == a[..k] + [a[k]] + a[k + 1..];
    forall i | 0 <= i < k ensures a[..k][i] != a[k] {
      assert key(a[i]) != key(a[k]);
    }
    var above := a[k + 1..];
    forall i | 0 <= i < |above| ensures above[i] != a[k] {
      assert key(a[k]) != key(a[k + 1 + i]);
    }
  }
}
