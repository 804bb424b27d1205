/** Sequences and sums used by several parts of the model. */
module Seqs {

  ghost predicate NoDup<T>(s: seq<T>) {
    forall i, j :: 0 <= i < j < |s| ==> s[i] != s[j]
  }

  lemma AppendNoDup<T>(s: seq<T>, x: T)
    requires NoDup(s) && x !in s
    ensures NoDup(s + [x])
  {}

  /** `array.filter(y => y !== x)` */
  function Without<T(==, !new)>(s: seq<T>, x: T): (r: seq<T>)
    ensures forall y :: y in r <==> y in s && y != x
  {
    if s == [] then []
    else
      var front := s[..|s| - 1];
      assert s == front + [s[|s| - 1]];
      if s[|s| - 1] == x then Without(front, x) else Without(front, x) + [s[|s| - 1]]
  }

  function Reverse<T>(s: seq<T>): (r: seq<T>)
    ensures |r| == |s|
  {
    if s == [] then [] else Reverse(s[1..]) + [s[0]]
  }

  lemma {:induction false} ReverseSnoc<T>(s: seq<T>, x: T)
    ensures Reverse(s + [x]) == [x] + Reverse(s)
  {
    if s == [] {
    } else {
      assert (s + [x])[1..] == s[1..] + [x];
      ReverseSnoc(s[1..], x);
    }
  }

  lemma {:induction false} ReverseSame<T>(s: seq<T>)
    ensures multiset(Reverse(s)) == multiset(s)
  {
    if s != [] {
      ReverseSame(s[1..]);
      assert s == [s[0]] + s[1..];
    }
  }

  /** The sum of `weight` over the entries of `m` listed in `keys`; keys that `m` lacks add nothing. */
  function SumOver<K, V>(keys: seq<K>, m: map<K, V>, weight: V -> int): int {
    if keys == [] then 0
    else
      var k := keys[|keys| - 1];
      SumOver(keys[..|keys| - 1], m, weight) + if k in m then weight(m[k]) else 0
  }

  lemma SumSnoc<K, V>(keys: seq<K>, m: map<K, V>, weight: V -> int, k: K)
    ensures SumOver(keys + [k], m, weight) == SumOver(keys, m, weight) + if k in m then weight(m[k]) else 0
  {
    assert (keys + [k])[..|keys|] == keys;
  }

  lemma {:induction false} SumFrame<K, V>(keys: seq<K>, m: map<K, V>, m': map<K, V>, weight: V -> int)
    requires forall k :: k in keys ==> (k in m <==> k in m') && (k in m ==> m[k] == m'[k])
    ensures SumOver(keys, m, weight) == SumOver(keys, m', weight)
  {
    if keys != [] {
      SumFrame(keys[..|keys| - 1], m, m', weight);
    }
  }

  /** Changing one entry of a duplicate-free listing changes the sum by the difference of the weights. */
  lemma {:induction false} SumUpdate<K, V>(keys: seq<K>, m: map<K, V>, weight: V -> int, k: K, v: V)
    requires NoDup(keys) && k in keys && k in m
    ensures SumOver(keys, m[k := v], weight) == SumOver(keys, m, weight) - weight(m[k]) + weight(v)
  {
    var front, last := keys[..|keys| - 1], keys[|keys| - 1];
    if last == k {
      assert k !in front;
      SumFrame(front, m, m[k := v], weight);
    } else {
      assert k in front by {
        var i :| 0 <= i < |keys| && keys[i] == k;
        assert front[i] == k;
      }
      SumUpdate(front, m, weight, k, v);
    }
  }

  lemma {:induction false} SumRemove<K(!new), V>(keys: seq<K>, m: map<K, V>, weight: V -> int, k: K)
    requires NoDup(keys) && k in keys && k in m
    ensures SumOver(Without(keys, k), m - {k}, weight) == SumOver(keys, m, weight) - weight(m[k])
  {
    var front, last := keys[..|keys| - 1], keys[|keys| - 1];
    assert keys == front + [last];
    if last == k {
      assert k !in front;
      WithoutAbsent(front, k);
      SumFrame(front, m, m - {k}, weight);
    } else {
      assert k in front;
      SumRemove(front, m, weight, k);
      var w := Without(front, k);
      assert Without(keys, k) == w + [last];
      assert (w + [last])[..|w + [last]| - 1] == w;
    }
  }

  lemma {:induction false} WithoutNoDup<T(!new)>(s: seq<T>, x: T)
    requires NoDup(s)
    ensures NoDup(Without(s, x))
  {
    if s != [] {
      var front, last := s[..|s| - 1], s[|s| - 1];
      WithoutNoDup(front, x);
      var w := Without(front, x);
      assert last !in w;
      assert NoDup(w + [last]);
    }
  }

  lemma WithoutSnoc<T(!new)>(s: seq<T>, x: T)
    ensures Without(s + [x], x) == Without(s, x)
  {
    assert (s + [x])[..|s|] == s;
  }

  /** All that is removed from a duplicate-free sequence is the element itself, wherever it stands. */
  lemma {:induction false} WithoutBetween<T(!new)>(a: seq<T>, x: T, b: seq<T>)
    requires x !in a && x !in b
    ensures Without(a + [x] + b, x) == a + b
  {
    if b == [] {
      assert a + [x] + b == a + [x];
      WithoutSnoc(a, x);
      WithoutAbsent(a, x);
    } else {
      var front, last := b[..|b| - 1], b[|b| - 1];
      assert (a + [x] + b)[..|a + [x] + b| - 1] == a + [x] + front;
      WithoutBetween(a, x, front);
      assert a + front + [last] == a + b;
    }
  }

  lemma {:induction false} WithoutAbsent<T(!new)>(s: seq<T>, x: T)
    requires x !in s
    ensures Without(s, x) == s
  {
    if s != [] {
      var front := s[..|s| - 1];
      assert s == front + [s[|s| - 1]];
      WithoutAbsent(front, x);
    }
  }

  lemma {:induction false} SumNonNegative<K, V>(keys: seq<K>, m: map<K, V>, weight: V -> int)
    requires forall k :: k in m ==> weight(m[k]) >= 0
    ensures SumOver(keys, m, weight) >= 0
  {
    if keys != [] {
      SumNonNegative(keys[..|keys| - 1], m, weight);
    }
  }
}
