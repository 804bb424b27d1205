/**
 * Time buckets of the activity charts (src/logs/logs.service.ts:208-302). Times are milliseconds since an epoch
 * at a unit boundary, units have fixed lengths, and a bucket counts the log entries from `from` to `to` inclusive.
 */
module Charts {
  import opened Basics

  datatype Bucket = Bucket(from: Time, to: Time)

  datatype Dimension = Invalid | Buckets(buckets: seq<Bucket>)

  function StartOf(t: Time, unit: nat): Time
    requires unit > 0
  {
    t - t % unit
  }

  function EndOf(t: Time, unit: nat): Time
    requires unit > 0
  {
    StartOf(t, unit) + unit - 1
  }

  /** The unit of a custom range, and how many whole units lie between its ends. */
  function DefineTimeRanges(from: Time, to: Time): (r: (nat, int))
    ensures r.0 == HOUR || r.0 == DAY
  {
    var hours := DiffUnits(to, from, HOUR);
    if hours <= 36 then (HOUR, hours)
    else if hours <= 48 then (HOUR, hours)
    else (DAY, DiffUnits(to, from, DAY))
  }

  function MiddleBucket(from: Time, unit: nat, i: nat): Bucket
    requires unit > 0
  {
    if i == 0 then Bucket(from, EndOf(from, unit))
    else Bucket(StartOf(from + i * unit, unit), EndOf(from + i * unit, unit))
  }

  function MiddleBuckets(from: Time, unit: nat, n: nat): (r: seq<Bucket>)
    requires unit > 0
    ensures |r| == n
  {
    seq(n, i requires 0 <= i < n => MiddleBucket(from, unit, i))
  }

  /** A negative number of whole units is not an array length. */
  function CustomDimension(from: Time, to: Time): Dimension {
    var (unit, n) := DefineTimeRanges(from, to);
    if n < 0 then Invalid
    else Buckets(MiddleBuckets(from, unit, n) + [Bucket(StartOf(to, unit), to)])
  }

  // ----- Counting -----

  function CountIn(logs: seq<Time>, from: Time, to: Time): nat {
    if logs == [] then 0 else CountIn(logs[1..], from, to) + if from <= logs[0] <= to then 1 else 0
  }

  function SumCounts(logs: seq<Time>, buckets: seq<Bucket>): nat {
    if buckets == [] then 0
    else
      var last := buckets[|buckets| - 1];
      SumCounts(logs, buckets[..|buckets| - 1]) + CountIn(logs, last.from, last.to)
  }

  lemma {:induction false} CountSplits(logs: seq<Time>, from: Time, mid: Time, to: Time)
    requires from - 1 <= mid <= to
    ensures CountIn(logs, from, to) == CountIn(logs, from, mid) + CountIn(logs, mid + 1, to)
  {
    if logs != [] { CountSplits(logs[1..], from, mid, to); }
  }

  lemma {:induction false} CountNothing(logs: seq<Time>, from: Time, to: Time)
    requires to < from
    ensures CountIn(logs, from, to) == 0
  {
    if logs != [] { CountNothing(logs[1..], from, to); }
  }

  // ----- Arithmetic of units -----

  lemma MulAtLeast(a: int, unit: nat)
    requires a >= 1
    ensures a * unit >= unit
  {
    assert a * unit == (a - 1) * unit + unit;
  }

  lemma QuotientUnique(q: int, r: int, k: int, m: int, unit: nat)
    requires q * unit + r == k * unit + m && 0 <= r < unit && 0 <= m < unit
    ensures q == k && r == m
  {
    assert (q - k) * unit == m - r && (k - q) * unit == r - m;
    if q > k {
      MulAtLeast(q - k, unit);
    } else if q < k {
      MulAtLeast(k - q, unit);
    }
  }

  lemma DivModUnique(x: int, k: int, m: int, unit: nat)
    requires unit > 0 && x == k * unit + m && 0 <= m < unit
    ensures x / unit == k && x % unit == m
  {
    QuotientUnique(x / unit, x % unit, k, m, unit);
  }

  /** The start of the unit `i` units later. */
  lemma StartOfLater(t: Time, unit: nat, i: int)
    requires unit > 0
    ensures StartOf(t + i * unit, unit) == StartOf(t, unit) + i * unit
  {
    var q, r := t / unit, t % unit;
    assert t + i * unit == (q + i) * unit + r;
    DivModUnique(t + i * unit, q + i, r, unit);
  }

  /** Where the last unit of a range starts, counted in whole units from its first. */
  lemma LastUnit(from: Time, to: Time, unit: nat)
    requires unit > 0 && from <= to
    ensures
      var n := DiffUnits(to, from, unit);
      StartOf(to, unit) == StartOf(from, unit) + (if from % unit <= to % unit then n else n + 1) * unit
  {
    var q, q', r, r' := from / unit, to / unit, from % unit, to % unit;
    assert to - from == (q' - q) * unit + (r' - r);
    if r <= r' {
      DivModUnique(to - from, q' - q, r' - r, unit);
    } else {
      assert to - from == (q' - q - 1) * unit + (r' - r + unit);
      DivModUnique(to - from, q' - q - 1, r' - r + unit, unit);
    }
    var n := DiffUnits(to, from, unit);
    assert StartOf(to, unit) == q' * unit && StartOf(from, unit) == q * unit;
    assert q' * unit == q * unit + (q' - q) * unit;
  }

  lemma MiddleBounds(from: Time, unit: nat, i: nat)
    requires unit > 0
    ensures MiddleBucket(from, unit, i).to == StartOf(from, unit) + (i + 1) * unit - 1
    ensures MiddleBucket(from, unit, i).from == if i == 0 then from else StartOf(from, unit) + i * unit
  {
    StartOfLater(from, unit, i);
  }

  // ----- Custom ranges -----

  /** A range of less than 49 hours is shown in hours, a longer one in days. */
  function UnitOf(from: Time, to: Time): nat {
    if to - from < 49 * HOUR then HOUR else DAY
  }

  lemma RangesOf(from: Time, to: Time)
    requires from <= to
    ensures DefineTimeRanges(from, to) == (UnitOf(from, to), (to - from) / UnitOf(from, to))
    ensures (to - from) / UnitOf(from, to) >= 1 <==> to - from >= HOUR
  {}

  /**
   * A range that is not reversed has one bucket more than it has whole hours or days. The first starts at the start of
   * the range and goes to the end of its unit, the last from the start of its unit to the end of the range, and each in
   * between is the whole unit that many units after the start.
   */
  lemma ChartShape(from: Time, to: Time)
    requires from <= to
    ensures
      var unit := UnitOf(from, to);
      var n := (to - from) / unit;
      && CustomDimension(from, to).Buckets?
      && var b := CustomDimension(from, to).buckets;
      && |b| == 1 + n
      && b[n].to == to && to - unit < b[n].from <= to && b[n].from % unit == 0
      && (n > 0 ==> b[0].from == from && from <= b[0].to < from + unit && (b[0].to + 1) % unit == 0)
      && forall i :: 0 < i < n ==>
           b[i].from % unit == 0 && b[i].to == b[i].from + unit - 1 && b[i].from <= from + i * unit <= b[i].to
  {
    RangesOf(from, to);
    var unit := UnitOf(from, to);
    var n := (to - from) / unit;
    StartOfAligned(to, unit);
    StartOfAligned(from, unit);
    forall i | 0 < i < n
      ensures
        var m := MiddleBucket(from, unit, i);
        m.from % unit == 0 && m.to == m.from + unit - 1 && m.from <= from + i * unit <= m.to
    {
      StartOfAligned(from + i * unit, unit);
    }
  }

  lemma StartOfAligned(t: Time, unit: nat)
    requires unit > 0
    ensures StartOf(t, unit) % unit == 0 && (EndOf(t, unit) + 1) % unit == 0
    ensures t - unit < StartOf(t, unit) <= t <= EndOf(t, unit) < t + unit
  {
    var q := t / unit;
    assert StartOf(t, unit) == q * unit + 0;
    DivModUnique(StartOf(t, unit), q, 0, unit);
    assert StartOf(t, unit) + unit == (q + 1) * unit + 0;
    DivModUnique(StartOf(t, unit) + unit, q + 1, 0, unit);
  }

  /** The buckets of any range that is not reversed follow one another without overlapping. */
  lemma BucketsAscend(from: Time, to: Time)
    requires from <= to
    ensures CustomDimension(from, to).Buckets?
    ensures var b := CustomDimension(from, to).buckets; forall i, j :: 0 <= i < j < |b| ==> b[i].to < b[j].from
  {
    var (unit, n) := DefineTimeRanges(from, to);
    var b := CustomDimension(from, to).buckets;
    LastUnit(from, to, unit);
    forall i, j | 0 <= i < j < |b| ensures b[i].to < b[j].from {
      MiddleBounds(from, unit, i);
      if j < n {
        MiddleBounds(from, unit, j);
        assert (i + 1) * unit <= j * unit;
      } else {
        assert (i + 1) * unit <= n * unit;
      }
    }
  }

  lemma {:induction false} MiddleCounts(logs: seq<Time>, from: Time, unit: nat, n: nat)
    requires unit > 0 && n > 0
    ensures SumCounts(logs, MiddleBuckets(from, unit, n)) == CountIn(logs, from, StartOf(from, unit) + n * unit - 1)
  {
    var b := MiddleBuckets(from, unit, n);
    MiddleBounds(from, unit, n - 1);
    assert b[..n - 1] == MiddleBuckets(from, unit, n - 1);
    if n == 1 {
      assert b[..0] == [];
    } else {
      MiddleCounts(logs, from, unit, n - 1);
      assert (n - 1) * unit >= unit;
      assert n * unit == (n - 1) * unit + unit;
      CountSplits(logs, from, StartOf(from, unit) + (n - 1) * unit - 1, StartOf(from, unit) + n * unit - 1);
    }
  }

  /** The one unit left out between the middle buckets and the last one, if the ends are out of step. */
  function OmittedUnit(from: Time, to: Time, unit: nat): Bucket
    requires unit > 0
  {
    if from % unit <= to % unit then Bucket(0, -1) else Bucket(StartOf(to, unit) - unit, StartOf(to, unit) - 1)
  }

  /**
   * With at least an hour between the ends, the buckets together count every entry of the range, except those of
   * exactly one unit (the one before the last) when `from` lies later in its unit than `to` in its own.
   */
  lemma BucketCounts(logs: seq<Time>, from: Time, to: Time)
    requires to - from >= HOUR
    ensures
      var gap := OmittedUnit(from, to, UnitOf(from, to));
      SumCounts(logs, CustomDimension(from, to).buckets) + CountIn(logs, gap.from, gap.to) == CountIn(logs, from, to)
  {
    RangesOf(from, to);
    var (unit, n) := DefineTimeRanges(from, to);
    var b := CustomDimension(from, to).buckets;
    assert b[..|b| - 1] == MiddleBuckets(from, unit, n);
    UnitCounts(logs, from, to, unit);
  }

  /** The same for any unit, over the middle buckets and the last one. */
  lemma UnitCounts(logs: seq<Time>, from: Time, to: Time, unit: nat)
    requires unit > 0 && from <= to && DiffUnits(to, from, unit) >= 1
    ensures
      var gap := OmittedUnit(from, to, unit);
      SumCounts(logs, MiddleBuckets(from, unit, DiffUnits(to, from, unit))) + CountIn(logs, StartOf(to, unit), to)
        + CountIn(logs, gap.from, gap.to) == CountIn(logs, from, to)
  {
    hide CountIn, SumCounts;
    var n, start := DiffUnits(to, from, unit), StartOf(to, unit);
    MiddleCounts(logs, from, unit, n);
    LastUnit(from, to, unit);
    MulAtLeast(n, unit);
    hide DiffUnits;
    assert from < StartOf(from, unit) + unit && start <= to;
    CountSplits(logs, from, start - 1, to);
    if from % unit <= to % unit {
      CountNothing(logs, 0, -1);
    } else {
      assert (n + 1) * unit == n * unit + unit;
      CountSplits(logs, from, start - unit - 1, start - 1);
    }
  }

  /** The chart exists, and its buckets count every entry of the range once, and nothing else. */
  ghost predicate Partitions(from: Time, to: Time) {
    && CustomDimension(from, to).Buckets?
    && forall logs :: SumCounts(logs, CustomDimension(from, to).buckets) == CountIn(logs, from, to)
  }

  /** With an hour between the ends: an entry in the omitted unit is in the range and in no bucket. */
  lemma LongRangePartitions(from: Time, to: Time)
    requires to - from >= HOUR
    ensures
      var unit := UnitOf(from, to);
      Partitions(from, to) <==> from % unit <= to % unit
  {
    var unit := UnitOf(from, to);
    forall logs
      ensures from % unit <= to % unit
              ==> SumCounts(logs, CustomDimension(from, to).buckets) == CountIn(logs, from, to)
    {
      BucketCounts(logs, from, to);
      if from % unit <= to % unit { CountNothing(logs, 0, -1); }
    }
    var gap := OmittedUnit(from, to, unit);
    if from % unit > to % unit {
      BucketCounts([gap.from], from, to);
      CountSingle(gap.from, gap.from, gap.to);
      assert SumCounts([gap.from], CustomDimension(from, to).buckets) != CountIn([gap.from], from, to);
    }
  }

  lemma CountSingle(t: Time, from: Time, to: Time)
    ensures CountIn([t], from, to) == if from <= t <= to then 1 else 0
  {
    assert [t][1..] == [];
  }

  /** With less than a unit between the ends there is one bucket, from the start of the last hour. */
  lemma ShortRangePartitions(from: Time, to: Time)
    requires DefineTimeRanges(from, to).1 == 0
    ensures Partitions(from, to) <==> from == StartOf(to, HOUR)
  {
    var b, start := CustomDimension(from, to).buckets, StartOf(to, HOUR);
    assert b == [Bucket(start, to)] && b[..0] == [];
    forall logs ensures SumCounts(logs, b) == CountIn(logs, start, to) {}
    CountSingle(start, start, to);
    CountSingle(start, from, to);
    CountSingle(from, start, to);
    CountSingle(from, from, to);
    if Partitions(from, to) {
      assert SumCounts([start], b) == CountIn([start], from, to);
      assert SumCounts([from], b) == CountIn([from], from, to);
    }
  }

  /** A range reversed by an hour or more has no chart. */
  lemma ReversedRange(from: Time, to: Time)
    requires to < from
    ensures CustomDimension(from, to).Invalid? <==> from - to >= HOUR
    ensures DefineTimeRanges(from, to).1 <= 0
  {}

  /**
   * For any two ends, the counts add up to that of the range for every log exactly when the range is not reversed
   * and its start is no later in its unit (hours below 49 hours, days from there on) than its end, or, under an hour,
   * is the very start of the last hour.
   */
  lemma BucketsPartitionIff(from: Time, to: Time)
    ensures
      var unit := if to - from < 49 * HOUR then HOUR else DAY;
      Partitions(from, to)
      <==> from <= to && if to - from >= HOUR then from % unit <= to % unit else from == to - to % HOUR
  {
    hide Partitions;
    if to < from {
      ReversedRange(from, to);
      ReversedHasNoPartition(from, to);
    } else if to - from >= HOUR {
      LongRangePartitions(from, to);
    } else {
      RangesOf(from, to);
      ShortRangePartitions(from, to);
    }
  }

  lemma ReversedHasNoPartition(from: Time, to: Time)
    requires to < from
    ensures !Partitions(from, to)
  {
    ReversedRange(from, to);
    if from - to < HOUR {
      ShortRangePartitions(from, to);
      assert StartOf(to, HOUR) <= to;
    }
  }

  // ----- Fixed ranges -----

  /** The last `n` whole units up to and including the current one, oldest first. */
  function LastUnits(now: Time, unit: nat, n: nat): (r: seq<Bucket>)
    requires unit > 0
    ensures |r| == n
  {
    seq(n, i requires 0 <= i < n =>
      Bucket(StartOf(now - (n - 1 - i) * unit, unit), EndOf(now - (n - 1 - i) * unit, unit)))
  }

  lemma LastUnitAt(now: Time, unit: nat, n: nat, i: nat)
    requires unit > 0 && i < n
    ensures
      var lo := StartOf(now, unit) - (n - 1) * unit;
      LastUnits(now, unit, n)[i] == Bucket(lo + i * unit, lo + i * unit + unit - 1)
  {
    var j := n - 1 - i;
    StartOfLater(now, unit, -j);
    var back := j * unit;
    assert (-j) * unit == -back;
    assert StartOf(now - back, unit) == StartOf(now, unit) - back;
    assert back == (n - 1) * unit - i * unit by { assert (j + i) * unit == j * unit + i * unit; }
    assert LastUnits(now, unit, n)[i] == Bucket(StartOf(now - back, unit), EndOf(now - back, unit));
  }

  lemma {:induction false} LastUnitsPrefix(logs: seq<Time>, now: Time, unit: nat, n: nat, k: nat)
    requires unit > 0 && k <= n
    ensures SumCounts(logs, LastUnits(now, unit, n)[..k])
         == CountIn(logs, StartOf(now, unit) - (n - 1) * unit, StartOf(now, unit) - (n - 1) * unit + k * unit - 1)
  {
    hide StartOf, EndOf;
    var b, lo := LastUnits(now, unit, n), StartOf(now, unit) - (n - 1) * unit;
    if k == 0 {
      CountNothing(logs, lo, lo - 1);
    } else {
      LastUnitsPrefix(logs, now, unit, n, k - 1);
      assert b[..k][..k - 1] == b[..k - 1];
      LastUnitAt(now, unit, n, k - 1);
      var before := (k - 1) * unit;
      assert before >= 0 && k * unit == before + unit;
      CountSplits(logs, lo, lo + before - 1, lo + before + unit - 1);
    }
  }

  /** Fixed charts count every entry from the start of their oldest unit to the end of the current one. */
  lemma LastUnitsPartition(logs: seq<Time>, now: Time, unit: nat, n: nat)
    requires unit > 0 && n > 0
    ensures SumCounts(logs, LastUnits(now, unit, n))
         == CountIn(logs, StartOf(now, unit) - (n - 1) * unit, EndOf(now, unit))
  {
    LastUnitsPrefix(logs, now, unit, n, n);
    assert LastUnits(now, unit, n)[..n] == LastUnits(now, unit, n);
    assert n * unit == (n - 1) * unit + unit;
  }

  /** The current hour is the last of the hours begun since midnight. */
  lemma HoursSinceMidnight(now: Time)
    ensures StartOf(now, HOUR) == StartOf(now, DAY) + (now % DAY / HOUR) * HOUR
  {
    var k, d := now / DAY, now % DAY;
    var h, r := d / HOUR, d % HOUR;
    assert now == (24 * k + h) * HOUR + r;
    DivModUnique(now, 24 * k + h, r, HOUR);
  }

  /** Today's chart has one bucket per hour since midnight: it starts exactly at midnight. */
  lemma TodayStartsAtMidnight(logs: seq<Time>, now: Time)
    ensures var hours := now % DAY / HOUR + 1;
      SumCounts(logs, LastUnits(now, HOUR, hours)) == CountIn(logs, StartOf(now, DAY), EndOf(now, HOUR))
  {
    hide SumCounts, CountIn, LastUnits, StartOf;
    HoursSinceMidnight(now);
    LastUnitsPartition(logs, now, HOUR, now % DAY / HOUR + 1);
  }
}
