/**
 * Why counting bytes is enough to know that a file is complete: disjoint chunks inside `[0, size)` cover all of
 * it exactly when their lengths add up to `size`.
 */
module UploadCoverage {
  import opened TempStorage

  predicate InBounds(b: Blob, size: nat) {
    b.bytes != [] && 0 <= b.position && b.position + |b.bytes| <= size
  }

  predicate Apart(a: Blob, b: Blob) {
    a.position + |a.bytes| <= b.position || b.position + |b.bytes| <= a.position
  }

  /** Non-empty chunks, inside the file, pairwise disjoint. */
  ghost predicate Tidy(line: seq<Blob>, size: nat) {
    && (forall i :: 0 <= i < |line| ==> InBounds(line[i], size))
    && forall i, j :: 0 <= i < j < |line| ==> Apart(line[i], line[j])
  }

  function SumLens(line: seq<Blob>): nat {
    if line == [] then 0 else SumLens(line[..|line| - 1]) + |line[|line| - 1].bytes|
  }

  lemma {:induction false} SumLensConcat(a: seq<Blob>, b: seq<Blob>)
    ensures SumLens(a + b) == SumLens(a) + SumLens(b)
  {
    if b == [] {
      assert a + b == a;
    } else {
      assert (a + b)[..|a + b| - 1] == a + b[..|b| - 1];
      SumLensConcat(a, b[..|b| - 1]);
    }
  }

  predicate Touches(b: Blob, o: int) {
    b.position <= o < b.position + |b.bytes|
  }

  /** Offset `o` lies in one of the chunks. */
  ghost predicate Touched(line: seq<Blob>, o: int) {
    exists i :: 0 <= i < |line| && Touches(line[i], o)
  }

  function Interval(lo: int, hi: int): (r: set<int>)
    ensures forall o :: o in r <==> lo <= o < hi
    ensures |r| == if lo <= hi then hi - lo else 0
    decreases hi - lo
  {
    if lo < hi then Interval(lo, hi - 1) + {hi - 1} else {}
  }

  ghost function Cover(line: seq<Blob>): (c: set<int>)
    ensures forall o :: o in c <==> Touched(line, o)
  {
    if line == [] then {}
    else
      var front, last := line[..|line| - 1], line[|line| - 1];
      assert line == front + [last];
      assert forall o :: Touched(line, o) <==> Touched(front, o) || Touches(last, o) by {
        forall o ensures Touched(line, o) <==> Touched(front, o) || Touches(last, o) {
          if Touched(front, o) {
            var i :| 0 <= i < |front| && Touches(front[i], o);
            assert Touches(line[i], o);
          }
          if Touches(last, o) { assert Touches(line[|line| - 1], o); }
        }
      }
      Cover(front) + Interval(last.position, last.position + |last.bytes|)
  }

  lemma CoverBounds(line: seq<Blob>, size: nat)
    requires Tidy(line, size)
    ensures Cover(line) <= Interval(0, size)
  {
    forall o | o in Cover(line) ensures 0 <= o < size {
      assert Touched(line, o);
      var i :| 0 <= i < |line| && Touches(line[i], o);
      assert InBounds(line[i], size);
    }
  }

  lemma CoverApart(front: seq<Blob>, b: Blob)
    requires forall i :: 0 <= i < |front| ==> Apart(front[i], b)
    ensures Cover(front) !! Interval(b.position, b.position + |b.bytes|)
  {
    forall o | o in Cover(front) ensures !Touches(b, o) {
      assert Touched(front, o);
      var i :| 0 <= i < |front| && Touches(front[i], o);
      assert Apart(front[i], b);
    }
  }

  /** The chunks' lengths add up to the number of distinct offsets they touch, hence to at most `size`. */
  lemma {:induction false} CoverSize(line: seq<Blob>, size: nat)
    requires Tidy(line, size)
    ensures |Cover(line)| == SumLens(line) <= size
  {
    if line != [] {
      var front, last := line[..|line| - 1], line[|line| - 1];
      CoverSize(front, size);
      CoverApart(front, last);
      assert Cover(line) == Cover(front) + Interval(last.position, last.position + |last.bytes|);
    }
    CoverBounds(line, size);
    SubsetSize(Cover(line), Interval(0, size));
  }

  lemma SubsetSize<T>(a: set<T>, b: set<T>)
    requires a <= b
    ensures |a| <= |b|
    ensures |a| == |b| ==> a == b
  {
    assert b == a + (b - a);
  }

  /** The byte count reaches `size` exactly when every offset of the file has been touched. */
  lemma CompleteIffCovered(line: seq<Blob>, size: nat)
    requires Tidy(line, size)
    ensures SumLens(line) >= size <==> forall o :: 0 <= o < size ==> Touched(line, o)
  {
    CoverSize(line, size);
    CoverBounds(line, size);
    SubsetSize(Cover(line), Interval(0, size));
    if forall o :: 0 <= o < size ==> Touched(line, o) {
      assert Cover(line) == Interval(0, size);
    }
  }

  /** Whatever the chunks, to touch every offset of a file they need at least its size in bytes. */
  lemma CoveringNeedsBytes(line: seq<Blob>, size: nat)
    requires forall o :: 0 <= o < size ==> Touched(line, o)
    ensures SumLens(line) >= size
  {
    CoverAtMost(line);
    SubsetSize(Interval(0, size), Cover(line));
  }

  lemma {:induction false} CoverAtMost(line: seq<Blob>)
    ensures |Cover(line)| <= SumLens(line)
  {
    if line != [] {
      var front, last := line[..|line| - 1], line[|line| - 1];
      CoverAtMost(front);
      var added := Interval(last.position, last.position + |last.bytes|);
      assert Cover(line) == Cover(front) + added == Cover(front) + (added - Cover(front));
      SubsetSize(added - Cover(front), added);
    }
  }

  /** Two chunks of a tidy line are the same chunk or disjoint. */
  lemma TidyMembers(line: seq<Blob>, size: nat, a: Blob, b: Blob)
    requires Tidy(line, size) && a in line && b in line
    ensures InBounds(a, size) && (a == b || Apart(a, b))
  {
    var i :| 0 <= i < |line| && line[i] == a;
    var j :| 0 <= j < |line| && line[j] == b;
    if i < j { assert Apart(line[i], line[j]); }
    if j < i { assert Apart(line[j], line[i]); }
  }

  lemma SumLensSingle(b: Blob)
    ensures SumLens([b]) == |b.bytes|
  {
    assert [b][..0] == [];
  }

  lemma {:induction false} SumLensPermutation(a: seq<Blob>, b: seq<Blob>)
    requires multiset(a) == multiset(b)
    ensures SumLens(a) == SumLens(b)
  {
    if a == [] {
      assert |b| == |multiset(b)| == |multiset(a)|;
    } else {
      var x := a[|a| - 1];
      assert a == a[..|a| - 1] + [x];
      assert x in multiset(b);
      var i :| 0 <= i < |b| && b[i] == x;
      var rest := b[..i] + b[i + 1..];
      assert b == b[..i] + [x] + b[i + 1..];
      assert multiset(a[..|a| - 1]) == multiset(a) - multiset{x};
      assert multiset(rest) == multiset(b) - multiset{x};
      SumLensPermutation(a[..|a| - 1], rest);
      SumLensConcat(b[..i] + [x], b[i + 1..]);
      SumLensConcat(b[..i], [x]);
      SumLensConcat(b[..i], b[i + 1..]);
      SumLensSingle(x);
    }
  }

  // ----- What the disk holds -----

  /** The disk content carries chunk `b` at its place. */
  ghost predicate Holds(content: seq<Byte>, b: Blob) {
    0 <= b.position && b.position + |b.bytes| <= |content|
    && content[b.position..b.position + |b.bytes|] == b.bytes
  }

  /** Writing a chunk, even its first part only, leaves in place what is disjoint from it, and the chunk itself. */
  lemma WriteKeeps(content: seq<Byte>, b: Blob, cut: nat, a: Blob)
    requires 0 <= b.position && cut <= |b.bytes|
    requires Holds(content, a) && (a == b || Apart(a, b))
    ensures Holds(WriteAt(content, b.position, b.bytes[..cut]), a)
  {
    var r := WriteAt(content, b.position, b.bytes[..cut]);
    assert |content| <= |r|;
    forall i | 0 <= i < |a.bytes|
      ensures r[a.position..a.position + |a.bytes|][i] == a.bytes[i]
    {
      assert content[a.position..a.position + |a.bytes|][i] == content[a.position + i];
      if a == b && i < cut {
        assert r[b.position..b.position + cut][i] == b.bytes[..cut][i];
      }
    }
  }

  lemma TouchedByte(content: seq<Byte>, line: seq<Blob>, data: seq<Byte>, o: int)
    requires forall b :: b in line ==> Holds(content, b) && Holds(data, b)
    requires Touched(line, o)
    ensures 0 <= o < |content| && o < |data| && content[o] == data[o]
  {
    var i :| 0 <= i < |line| && Touches(line[i], o);
    var b := line[i];
    assert b in line;
    assert content[b.position..b.position + |b.bytes|][o - b.position] == b.bytes[o - b.position];
    assert data[b.position..b.position + |b.bytes|][o - b.position] == b.bytes[o - b.position];
  }

  /** If chunks cut from `data` are all in place and cover its length, the content is `data`. */
  lemma CoveredContentIsData(content: seq<Byte>, line: seq<Blob>, data: seq<Byte>)
    requires |content| <= |data|
    requires forall b :: b in line ==> Holds(content, b) && Holds(data, b)
    requires forall o :: 0 <= o < |data| ==> Touched(line, o)
    ensures content == data
  {
    forall o | 0 <= o < |data|
      ensures o < |content| && content[o] == data[o]
    {
      TouchedByte(content, line, data, o);
    }
    if |content| < |data| {
      TouchedByte(content, line, data, |content|);
    }
  }
}
