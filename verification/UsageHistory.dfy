/**
 Usage samples, pruned by age when they are recorded and averaged into buckets when they are queried
 (internal/system/history.go, internal/system/system.go). Averages of floats are over the reals; sums of
 byte counts wrap at 64 bits, as in the source.
 */
module UsageHistory {
  import opened Options
  import opened HistoryWindow
  import opened Units

  type uint64 = x: int | 0 <= x < TWO64

  datatype SystemPoint = SystemPoint(
    time: int,
    cpuUsage: Option<real>, cpuLimit: Option<real>, memoryUsage: Option<real>, memLimit: Option<real>)

  /** A mount's used and total bytes, or the container storage's total and declared bytes. */
  datatype StoragePoint = StoragePoint(time: int, first: Option<uint64>, second: Option<uint64>)

  /** One field of a series: a sample that does not carry the field is a gap. */
  datatype Reading<+V> = Reading(time: int, value: Option<V>)

  datatype Window = Window(from: int, to: int, step: int)

  predicate Proper(w: Window) { w.step > 0 }

  // The bucket of a sample.

  predicate Covers(w: Window, t: int) { w.from <= t < w.to }

  function Buckets(w: Window): nat { NumBuckets(w.to - w.from, w.step) }

  function BucketOf(w: Window, t: int): int
    requires Proper(w)
  {
    (t - w.from) / w.step
  }

  /** A covered sample has exactly one bucket, the one whose bounds enclose it, and that bucket exists. */
  lemma BucketEncloses(w: Window, t: int, i: int)
    requires Proper(w) && Covers(w, t)
    ensures BucketOf(w, t) == i <==> w.from + i * w.step <= t < w.from + (i + 1) * w.step
    ensures 0 <= BucketOf(w, t) < Buckets(w)
  {
    QuotientBounds(t - w.from, w.to - w.from, w.step, i);
  }

  lemma QuotientBounds(d: int, span: int, step: int, i: int)
    requires 0 <= d < span && step > 0
    ensures d / step == i <==> i * step <= d < (i + 1) * step
    ensures 0 <= d / step < NumBuckets(span, step)
  {
    var q := d / step;
    Division(d, step);
    BucketsCoverSpan(span, step, q);
    hide NumBuckets;
    QuotientIs(d, step, q, i);
  }

  lemma Division(d: int, step: int)
    requires 0 <= d && step > 0
    ensures 0 <= d / step && d / step * step <= d < d / step * step + step
  {
  }

  lemma QuotientIs(d: int, step: int, q: int, i: int)
    requires step > 0 && q * step <= d < q * step + step
    ensures q == i <==> i * step <= d < (i + 1) * step
  {
    Times(i, step);
    if i < q {
      MulMonotone(i + 1, q, step);
    } else if i > q {
      Times(q, step);
      MulMonotone(q + 1, i, step);
    }
  }

  /** The bucket that the loops over the samples pick. */
  lemma BucketExists(w: Window, t: int)
    requires Proper(w)
    ensures Covers(w, t) <==> w.from <= t < w.to
    ensures Covers(w, t) ==> BucketOf(w, t) == (t - w.from) / w.step && 0 <= BucketOf(w, t) < Buckets(w)
  {
    if Covers(w, t) {
      BucketEncloses(w, t, 0);
    }
  }

  lemma Times(a: int, b: int)
    ensures (a + 1) * b == a * b + b
  {
  }

  predicate Lands<V>(w: Window, r: Reading<V>, i: int)
    requires Proper(w)
  {
    r.value.Some? && Covers(w, r.time) && BucketOf(w, r.time) == i
  }

  /** The values that land in bucket i, in the order of the samples. */
  function Values<V>(s: seq<Reading<V>>, w: Window, i: int): seq<V>
    requires Proper(w)
  {
    if s == [] then []
    else
      var last := s[|s| - 1];
      Values(s[..|s| - 1], w, i) + (if Lands(w, last, i) then [last.value.value] else [])
  }

  /** The values of all covered samples that carry the field. */
  function Covered<V>(s: seq<Reading<V>>, w: Window): seq<V> {
    if s == [] then []
    else
      var last := s[|s| - 1];
      Covered(s[..|s| - 1], w) + (if last.value.Some? && Covers(w, last.time) then [last.value.value] else [])
  }

  function InBucket<V(==)>(s: seq<Reading<V>>, w: Window, i: int, v: V): nat
    requires Proper(w)
  {
    multiset(Values(s, w, i))[v]
  }

  /** How often v occurs in the buckets below n. */
  function Occurrences<V(==)>(s: seq<Reading<V>>, w: Window, n: nat, v: V): nat
    requires Proper(w)
  {
    if n == 0 then 0 else Occurrences(s, w, n - 1, v) + InBucket(s, w, n - 1, v)
  }

  lemma ValuesGrow<V>(s: seq<Reading<V>>, r: Reading<V>, w: Window, i: int)
    requires Proper(w)
    ensures Values(s + [r], w, i) == Values(s, w, i) + (if Lands(w, r, i) then [r.value.value] else [])
  {
    assert (s + [r])[..|s + [r]| - 1] == s;
  }

  /** The reading adds one v to bucket i. */
  predicate Adds<V(==)>(w: Window, r: Reading<V>, v: V, i: int)
    requires Proper(w)
  {
    r.value == Some(v) && Covers(w, r.time) && BucketOf(w, r.time) == i
  }

  lemma CountGrows<V>(s: seq<Reading<V>>, r: Reading<V>, w: Window, i: int, v: V)
    requires Proper(w)
    ensures InBucket(s + [r], w, i, v) == InBucket(s, w, i, v) + One(Adds(w, r, v, i))
  {
    ValuesGrow(s, r, w, i);
    hide Values, BucketOf, Covers;
  }

  /** The reading adds one v to a bucket below n. */
  predicate AddsBelow<V(==)>(w: Window, r: Reading<V>, v: V, n: nat)
    requires Proper(w)
  {
    r.value == Some(v) && Covers(w, r.time) && 0 <= BucketOf(w, r.time) < n
  }

  function One(b: bool): nat { if b then 1 else 0 }

  lemma AddsToOne<V>(w: Window, r: Reading<V>, v: V, n: nat)
    requires Proper(w)
    ensures One(AddsBelow(w, r, v, n)) == if n == 0 then 0 else One(AddsBelow(w, r, v, n - 1)) + One(Adds(w, r, v, n - 1))
  {
    hide BucketOf, Covers;
  }

  /** One more reading adds its value to its bucket and to no other. */
  lemma {:induction false} OccurrencesGrow<V>(s: seq<Reading<V>>, r: Reading<V>, w: Window, n: nat, v: V)
    requires Proper(w)
    ensures Occurrences(s + [r], w, n, v) == Occurrences(s, w, n, v) + One(AddsBelow(w, r, v, n))
  {
    hide *;
    OccurrencesUpTo(s, w, n, v);
    OccurrencesUpTo(s + [r], w, n, v);
    AddsToOne(w, r, v, n);
    if n > 0 {
      OccurrencesGrow(s, r, w, n - 1, v);
      CountGrows(s, r, w, n - 1, v);
    }
  }

  lemma OccurrencesUpTo<V>(s: seq<Reading<V>>, w: Window, n: nat, v: V)
    requires Proper(w)
    ensures Occurrences(s, w, n, v) == if n == 0 then 0 else Occurrences(s, w, n - 1, v) + InBucket(s, w, n - 1, v)
  {
  }

  lemma {:induction false} NothingOccurs<V>(w: Window, n: nat, v: V)
    requires Proper(w)
    ensures Occurrences([], w, n, v) == 0
  {
    if n > 0 {
      NothingOccurs(w, n - 1, v);
    }
  }

  lemma CoveredGrows<V>(s: seq<Reading<V>>, r: Reading<V>, w: Window)
    ensures Covered(s + [r], w) == Covered(s, w) + (if r.value.Some? && Covers(w, r.time) then [r.value.value] else [])
  {
    assert (s + [r])[..|s + [r]| - 1] == s;
  }

  /** The buckets partition the window: nothing covered is dropped, moved out or counted twice. */
  lemma {:induction false} BucketsPartition<V>(s: seq<Reading<V>>, w: Window, v: V)
    requires Proper(w)
    ensures Occurrences(s, w, Buckets(w), v) == multiset(Covered(s, w))[v]
  {
    if s == [] {
      NothingOccurs(w, Buckets(w), v);
    } else {
      var init, last := s[..|s| - 1], s[|s| - 1];
      assert s == init + [last];
      hide Occurrences, BucketOf, Buckets, Covered, Covers;
      BucketsPartition(init, w, v);
      OccurrencesGrow(init, last, w, Buckets(w), v);
      CoveredGrows(init, last, w);
      if Covers(w, last.time) {
        BucketEncloses(w, last.time, 0);
      }
    }
  }

  lemma {:induction false} ValuesConcat<V>(a: seq<Reading<V>>, b: seq<Reading<V>>, w: Window, i: int)
    requires Proper(w)
    ensures Values(a + b, w, i) == Values(a, w, i) + Values(b, w, i)
  {
    if b == [] {
      assert a + b == a && Values(b, w, i) == [];
    } else {
      var init, last := b[..|b| - 1], b[|b| - 1];
      assert a + b == (a + init) + [last] && b == init + [last];
      hide *;
      ValuesConcat(a, init, w, i);
      ValuesGrow(a + init, last, w, i);
      ValuesGrow(init, last, w, i);
    }
  }

  lemma {:induction false} NothingLandsIff<V>(s: seq<Reading<V>>, w: Window, i: int)
    requires Proper(w)
    ensures Values(s, w, i) == [] <==> forall k | 0 <= k < |s| :: !Lands(w, s[k], i)
  {
    if s != [] {
      NothingLandsIff(s[..|s| - 1], w, i);
      hide Lands, Proper;
    }
  }

  /** Leaving out the first d samples changes the values of a bucket exactly when one of them lands there. */
  lemma LeavingOutShowsIff<V>(s: seq<Reading<V>>, d: nat, w: Window, i: int)
    requires Proper(w) && d <= |s|
    ensures Values(s, w, i) == Values(s[d..], w, i) <==> forall k | 0 <= k < d :: !Lands(w, s[k], i)
  {
    hide *;
    assert s == s[..d] + s[d..];
    ValuesConcat(s[..d], s[d..], w, i);
    NothingLandsIff(s[..d], w, i);
    assert forall k | 0 <= k < d :: s[..d][k] == s[k];
  }

  /** Samples before the window change no bucket. */
  lemma EarlierSamplesAreInvisible<V>(s: seq<Reading<V>>, d: nat, w: Window, i: int)
    requires Proper(w) && d <= |s|
    requires forall k | 0 <= k < d :: s[k].time < w.from
    ensures Values(s, w, i) == Values(s[d..], w, i)
  {
    assert forall k | 0 <= k < d :: !Lands(w, s[k], i);
    LeavingOutShowsIff(s, d, w, i);
  }

  // Averages.

  function SumReal(vs: seq<real>): real {
    if vs == [] then 0.0 else SumReal(vs[..|vs| - 1]) + vs[|vs| - 1]
  }

  function AverageReal(vs: seq<real>): Option<real> {
    if vs == [] then None else Some(SumReal(vs) / |vs| as real)
  }

  function SumInt(vs: seq<uint64>): int {
    if vs == [] then 0 else SumInt(vs[..|vs| - 1]) + vs[|vs| - 1]
  }

  function AverageUint64(vs: seq<uint64>): Option<int> {
    if vs == [] then None else Some(SumInt(vs) % TWO64 / |vs|)
  }

  lemma {:induction false} SumRealBounds(vs: seq<real>, lo: real, hi: real)
    requires forall v | v in vs :: lo <= v <= hi
    ensures lo * |vs| as real <= SumReal(vs) <= hi * |vs| as real
  {
    if vs != [] {
      var init := vs[..|vs| - 1];
      assert forall v | v in init :: v in vs;
      SumRealBounds(init, lo, hi);
      assert vs[|vs| - 1] in vs;
      var n := (|vs| - 1) as real;
      assert lo * (n + 1.0) == lo * n + lo && hi * (n + 1.0) == hi * n + hi;
    }
  }

  /** A field is empty exactly when no sample carried it, and lies between the least and the greatest value. */
  lemma AverageRealBounds(vs: seq<real>, lo: real, hi: real)
    requires forall v | v in vs :: lo <= v <= hi
    ensures AverageReal(vs).None? <==> vs == []
    ensures vs != [] ==> lo <= AverageReal(vs).value <= hi
  {
    if vs != [] {
      SumRealBounds(vs, lo, hi);
      DivideBounds(SumReal(vs), |vs| as real, lo, hi);
    }
  }

  lemma DivideBounds(sum: real, n: real, lo: real, hi: real)
    requires n > 0.0 && lo * n <= sum <= hi * n
    ensures lo <= sum / n <= hi
  {
    assert sum == (sum / n) * n;
  }

  lemma {:induction false} SumIntBounds(vs: seq<uint64>, lo: int, hi: int)
    requires forall v | v in vs :: lo <= v <= hi
    ensures lo * |vs| <= SumInt(vs) <= hi * |vs|
  {
    if vs != [] {
      var init := vs[..|vs| - 1];
      assert forall v | v in init :: v in vs;
      SumIntBounds(init, lo, hi);
      assert vs[|vs| - 1] in vs;
      assert lo * |vs| == lo * (|vs| - 1) + lo && hi * |vs| == hi * (|vs| - 1) + hi;
    }
  }

  lemma DivideIntBounds(sum: int, n: int, lo: int, hi: int)
    requires n > 0 && lo * n <= sum <= hi * n
    ensures lo <= sum / n <= hi
  {
    var q := sum / n;
    assert q * n <= sum < q * n + n;
    Times(q, n);
    Times(hi, n);
    Cancel(lo, q + 1, n);
    Cancel(q, hi + 1, n);
  }

  lemma Cancel(a: int, b: int, n: int)
    requires n > 0 && a * n < b * n
    ensures a < b
  {
    if a >= b {
      MulMonotone(b, a, n);
    }
  }

  /** The same for byte counts, as long as their sum fits into 64 bits. */
  lemma AverageUint64Bounds(vs: seq<uint64>, lo: int, hi: int)
    requires forall v | v in vs :: lo <= v <= hi
    ensures AverageUint64(vs).None? <==> vs == []
    ensures vs != [] && 0 <= SumInt(vs) < TWO64 ==> lo <= AverageUint64(vs).value <= hi
  {
    if vs != [] && 0 <= SumInt(vs) < TWO64 {
      assert SumInt(vs) % TWO64 == SumInt(vs);
      assert AverageUint64(vs) == Some(SumInt(vs) / |vs|);
      hide *;
      SumIntBounds(vs, lo, hi);
      DivideIntBounds(SumInt(vs), |vs|, lo, hi);
    }
  }

  // The fields of a series.

  datatype SystemField = CpuUsage | CpuLimit | MemoryUsage | MemLimit

  function SystemValue(p: SystemPoint, f: SystemField): Option<real> {
    match f
    case CpuUsage => p.cpuUsage
    case CpuLimit => p.cpuLimit
    case MemoryUsage => p.memoryUsage
    case MemLimit => p.memLimit
  }

  function SystemReadings(points: seq<SystemPoint>, f: SystemField): (r: seq<Reading<real>>)
    ensures |r| == |points|
    ensures forall k | 0 <= k < |points| :: r[k] == Reading(points[k].time, SystemValue(points[k], f))
  {
    seq(|points|, k requires 0 <= k < |points| => Reading(points[k].time, SystemValue(points[k], f)))
  }

  datatype StorageField = First | Second

  function StorageValue(p: StoragePoint, f: StorageField): Option<uint64> {
    if f.First? then p.first else p.second
  }

  function StorageReadings(points: seq<StoragePoint>, f: StorageField): (r: seq<Reading<uint64>>)
    ensures |r| == |points|
    ensures forall k | 0 <= k < |points| :: r[k] == Reading(points[k].time, StorageValue(points[k], f))
  {
    seq(|points|, k requires 0 <= k < |points| => Reading(points[k].time, StorageValue(points[k], f)))
  }

  function SystemValues(points: seq<SystemPoint>, f: SystemField, w: Window, i: int): seq<real>
    requires Proper(w)
  {
    Values(SystemReadings(points, f), w, i)
  }

  function StorageValues(points: seq<StoragePoint>, f: StorageField, w: Window, i: int): seq<uint64>
    requires Proper(w)
  {
    Values(StorageReadings(points, f), w, i)
  }

  datatype SystemMetrics = SystemMetrics(
    time: int,
    cpuUsage: Option<real>, cpuLimit: Option<real>, memoryUsage: Option<real>, memLimit: Option<real>)

  datatype StorageUsage = StorageUsage(time: int, first: Option<int>, second: Option<int>)

  function SystemBucket(points: seq<SystemPoint>, w: Window, i: int): SystemMetrics
    requires Proper(w)
  {
    SystemMetrics(w.from + i * w.step,
      AverageReal(SystemValues(points, CpuUsage, w, i)), AverageReal(SystemValues(points, CpuLimit, w, i)),
      AverageReal(SystemValues(points, MemoryUsage, w, i)), AverageReal(SystemValues(points, MemLimit, w, i)))
  }

  function StorageBucket(points: seq<StoragePoint>, w: Window, i: int): StorageUsage
    requires Proper(w)
  {
    StorageUsage(w.from + i * w.step,
      AverageUint64(StorageValues(points, First, w, i)), AverageUint64(StorageValues(points, Second, w, i)))
  }

  ghost predicate IsSystemSeries(result: seq<SystemMetrics>, points: seq<SystemPoint>, w: Window)
    requires Proper(w)
  {
    |result| == Buckets(w) && forall i | 0 <= i < |result| :: result[i] == SystemBucket(points, w, i)
  }

  ghost predicate IsStorageSeries(result: seq<StorageUsage>, points: seq<StoragePoint>, w: Window)
    requires Proper(w)
  {
    |result| == Buckets(w) && forall i | 0 <= i < |result| :: result[i] == StorageBucket(points, w, i)
  }

  // What a bucket shows, field by field.

  /** Sums add up, and an average times its count is the sum. */
  lemma {:induction false} AverageRealMeans(a: seq<real>, b: seq<real>, v: real)
    ensures SumReal([v]) == v && SumReal(a + b) == SumReal(a) + SumReal(b)
    ensures AverageReal([v]) == Some(v)
    ensures a != [] ==> AverageReal(a).Some? && AverageReal(a).value * |a| as real == SumReal(a)
    decreases |b|
  {
    assert SumReal([v]) == SumReal([]) + v;
    if b == [] {
      assert a + b == a;
    } else {
      AverageRealMeans(a, b[..|b| - 1], v);
      assert (a + b)[..|a + b| - 1] == a + b[..|b| - 1];
    }
  }

  lemma {:induction false} AverageUint64Means(a: seq<uint64>, b: seq<uint64>, v: uint64)
    ensures SumInt([v]) == v && SumInt(a + b) == SumInt(a) + SumInt(b)
    ensures AverageUint64([v]) == Some(v as int)
    ensures a != [] ==> AverageUint64(a).Some?
                        && AverageUint64(a).value * |a| <= SumInt(a) % 0x1_0000_0000_0000_0000 < (AverageUint64(a).value + 1) * |a|
    decreases |b|
  {
    assert SumInt([v]) == SumInt([]) + v;
    if a != [] {
      RoundedDown(SumInt(a) % TWO64, |a|);
    }
    if b == [] {
      assert a + b == a;
    } else {
      AverageUint64Means(a, b[..|b| - 1], v);
      assert (a + b)[..|a + b| - 1] == a + b[..|b| - 1];
    }
  }

  lemma RoundedDown(sum: int, n: int)
    requires n > 0
    ensures sum / n * n <= sum < (sum / n + 1) * n
  {
  }

  /** The instants of bucket i. */
  predicate InBounds(w: Window, i: int, time: int) {
    w.from <= time < w.to && w.from + i * w.step <= time < w.from + (i + 1) * w.step
  }

  lemma LandsIff<V>(w: Window, r: Reading<V>, i: int)
    requires Proper(w)
    ensures Lands(w, r, i) <==> r.value.Some? && InBounds(w, i, r.time)
  {
    if Covers(w, r.time) {
      BucketEncloses(w, r.time, i);
    }
    hide BucketOf;
  }

  /** One more sample puts each value it carries into its bucket's list for that field, and into no other. */
  lemma SystemSampleShows(points: seq<SystemPoint>, p: SystemPoint, w: Window, i: int)
    requires Proper(w)
    ensures var q, here := points + [p], InBounds(w, i, p.time);
            && SystemValues(q, CpuUsage, w, i)
               == SystemValues(points, CpuUsage, w, i) + (if here && p.cpuUsage.Some? then [p.cpuUsage.value] else [])
            && SystemValues(q, CpuLimit, w, i)
               == SystemValues(points, CpuLimit, w, i) + (if here && p.cpuLimit.Some? then [p.cpuLimit.value] else [])
            && SystemValues(q, MemoryUsage, w, i)
               == SystemValues(points, MemoryUsage, w, i) + (if here && p.memoryUsage.Some? then [p.memoryUsage.value] else [])
            && SystemValues(q, MemLimit, w, i)
               == SystemValues(points, MemLimit, w, i) + (if here && p.memLimit.Some? then [p.memLimit.value] else [])
  {
    assert SystemReadings(points + [p], CpuUsage) == SystemReadings(points, CpuUsage) + [Reading(p.time, p.cpuUsage)];
    assert SystemReadings(points + [p], CpuLimit) == SystemReadings(points, CpuLimit) + [Reading(p.time, p.cpuLimit)];
    assert SystemReadings(points + [p], MemoryUsage) == SystemReadings(points, MemoryUsage) + [Reading(p.time, p.memoryUsage)];
    assert SystemReadings(points + [p], MemLimit) == SystemReadings(points, MemLimit) + [Reading(p.time, p.memLimit)];
    hide SystemReadings, Values, Lands, InBounds;
    ReadingShows(SystemReadings(points, CpuUsage), p.time, p.cpuUsage, w, i);
    ReadingShows(SystemReadings(points, CpuLimit), p.time, p.cpuLimit, w, i);
    ReadingShows(SystemReadings(points, MemoryUsage), p.time, p.memoryUsage, w, i);
    ReadingShows(SystemReadings(points, MemLimit), p.time, p.memLimit, w, i);
  }

  lemma ReadingShows<V>(s: seq<Reading<V>>, time: int, value: Option<V>, w: Window, i: int)
    requires Proper(w)
    ensures Values(s + [Reading(time, value)], w, i) ==
            Values(s, w, i) + (if InBounds(w, i, time) && value.Some? then [value.value] else [])
  {
    ValuesGrow(s, Reading(time, value), w, i);
    LandsIff(w, Reading(time, value), i);
    hide Values, Lands, InBounds;
  }

  lemma StorageSampleShows(points: seq<StoragePoint>, p: StoragePoint, w: Window, i: int)
    requires Proper(w)
    ensures var q, here := points + [p], InBounds(w, i, p.time);
            && StorageValues(q, First, w, i)
               == StorageValues(points, First, w, i) + (if here && p.first.Some? then [p.first.value] else [])
            && StorageValues(q, Second, w, i)
               == StorageValues(points, Second, w, i) + (if here && p.second.Some? then [p.second.value] else [])
  {
    assert StorageReadings(points + [p], First) == StorageReadings(points, First) + [Reading(p.time, p.first)];
    assert StorageReadings(points + [p], Second) == StorageReadings(points, Second) + [Reading(p.time, p.second)];
    hide StorageReadings, Values, InBounds;
    ReadingShows(StorageReadings(points, First), p.time, p.first, w, i);
    ReadingShows(StorageReadings(points, Second), p.time, p.second, w, i);
  }

  lemma OneSystemValue(p: SystemPoint, f: SystemField, w: Window, i: int)
    requires Proper(w) && InBounds(w, i, p.time)
    ensures AverageReal(SystemValues([p], f, w, i)) == SystemValue(p, f)
  {
    var v := SystemValue(p, f);
    assert SystemReadings([p], f) == [] + [Reading(p.time, v)];
    ReadingShows([], p.time, v, w, i);
    if v.Some? {
      AverageRealMeans([], [], v.value);
      assert [] + [v.value] == [v.value];
    }
  }

  /** A bucket with one sample shows that sample, each field in its place, at the time the bucket starts. */
  lemma OneSystemSampleIsShown(p: SystemPoint, w: Window, i: int)
    requires Proper(w) && InBounds(w, i, p.time)
    ensures SystemBucket([p], w, i) == SystemMetrics(w.from + i * w.step, p.cpuUsage, p.cpuLimit, p.memoryUsage, p.memLimit)
  {
    OneSystemValue(p, CpuUsage, w, i);
    OneSystemValue(p, CpuLimit, w, i);
    OneSystemValue(p, MemoryUsage, w, i);
    OneSystemValue(p, MemLimit, w, i);
    hide SystemValues, AverageReal, InBounds;
  }

  lemma OneStorageValue(p: StoragePoint, f: StorageField, w: Window, i: int)
    requires Proper(w) && InBounds(w, i, p.time)
    ensures var v := StorageValue(p, f);
            AverageUint64(StorageValues([p], f, w, i)) == if v.Some? then Some(v.value as int) else None
  {
    var v := StorageValue(p, f);
    assert StorageReadings([p], f) == [] + [Reading(p.time, v)];
    ReadingShows([], p.time, v, w, i);
    if v.Some? {
      AverageUint64Means([], [], v.value);
      assert [] + [v.value] == [v.value];
    }
  }

  lemma OneStorageSampleIsShown(p: StoragePoint, w: Window, i: int)
    requires Proper(w) && InBounds(w, i, p.time)
    ensures StorageBucket([p], w, i) ==
            StorageUsage(w.from + i * w.step,
                         if p.first.Some? then Some(p.first.value as int) else None,
                         if p.second.Some? then Some(p.second.value as int) else None)
  {
    OneStorageValue(p, First, w, i);
    OneStorageValue(p, Second, w, i);
    hide StorageValues, AverageUint64, InBounds;
  }

  // The accumulators of the bucketing loops.

  datatype SystemAcc = SystemAcc(
    cpuUsage: real, cpuLimit: real, mem: real, memLimit: real,
    nCpuUsage: nat, nCpuLimit: nat, nMem: nat, nMemLimit: nat)

  function SystemSums(points: seq<SystemPoint>, w: Window, i: int): SystemAcc
    requires Proper(w)
  {
    var a, b := SystemValues(points, CpuUsage, w, i), SystemValues(points, CpuLimit, w, i);
    var c, d := SystemValues(points, MemoryUsage, w, i), SystemValues(points, MemLimit, w, i);
    SystemAcc(SumReal(a), SumReal(b), SumReal(c), SumReal(d), |a|, |b|, |c|, |d|)
  }

  /** One turn of the loop over the samples. */
  function AddSystem(acc: SystemAcc, p: SystemPoint): SystemAcc {
    var a := if p.cpuUsage.Some? then acc.(cpuUsage := acc.cpuUsage + p.cpuUsage.value, nCpuUsage := acc.nCpuUsage + 1) else acc;
    var b := if p.cpuLimit.Some? then a.(cpuLimit := a.cpuLimit + p.cpuLimit.value, nCpuLimit := a.nCpuLimit + 1) else a;
    var c := if p.memoryUsage.Some? then b.(mem := b.mem + p.memoryUsage.value, nMem := b.nMem + 1) else b;
    if p.memLimit.Some? then c.(memLimit := c.memLimit + p.memLimit.value, nMemLimit := c.nMemLimit + 1) else c
  }

  lemma SystemValuesGrow(points: seq<SystemPoint>, p: SystemPoint, f: SystemField, w: Window, i: int)
    requires Proper(w)
    ensures var before, after := SystemValues(points, f, w, i), SystemValues(points + [p], f, w, i);
            var lands := Covers(w, p.time) && BucketOf(w, p.time) == i && SystemValue(p, f).Some?;
            after == if lands then before + [SystemValue(p, f).value] else before
  {
    assert SystemReadings(points + [p], f) == SystemReadings(points, f) + [Reading(p.time, SystemValue(p, f))];
    ValuesGrow(SystemReadings(points, f), Reading(p.time, SystemValue(p, f)), w, i);
  }

  lemma SumRealSnoc(vs: seq<real>, v: real)
    ensures SumReal(vs + [v]) == SumReal(vs) + v && |vs + [v]| == |vs| + 1
  {
    assert (vs + [v])[..|vs + [v]| - 1] == vs;
  }

  lemma SystemFieldGrows(points: seq<SystemPoint>, p: SystemPoint, f: SystemField, w: Window, i: int)
    requires Proper(w)
    ensures var before, after := SystemValues(points, f, w, i), SystemValues(points + [p], f, w, i);
            if Covers(w, p.time) && BucketOf(w, p.time) == i && SystemValue(p, f).Some?
            then SumReal(after) == SumReal(before) + SystemValue(p, f).value && |after| == |before| + 1
            else after == before
  {
    SystemValuesGrow(points, p, f, w, i);
    hide *;
    if Covers(w, p.time) && BucketOf(w, p.time) == i && SystemValue(p, f).Some? {
      SumRealSnoc(SystemValues(points, f, w, i), SystemValue(p, f).value);
    }
  }

  lemma SystemSumsGrow(points: seq<SystemPoint>, p: SystemPoint, w: Window, i: int)
    requires Proper(w)
    ensures SystemSums(points + [p], w, i) ==
            if Covers(w, p.time) && BucketOf(w, p.time) == i then AddSystem(SystemSums(points, w, i), p)
            else SystemSums(points, w, i)
  {
    SystemFieldGrows(points, p, CpuUsage, w, i);
    SystemFieldGrows(points, p, CpuLimit, w, i);
    SystemFieldGrows(points, p, MemoryUsage, w, i);
    SystemFieldGrows(points, p, MemLimit, w, i);
    hide SystemValues, SumReal, BucketOf, Covers;
  }

  datatype StorageAcc = StorageAcc(firstSum: int, secondSum: int, nFirst: nat, nSecond: nat)

  function StorageSums(points: seq<StoragePoint>, w: Window, i: int): StorageAcc
    requires Proper(w)
  {
    var a, b := StorageValues(points, First, w, i), StorageValues(points, Second, w, i);
    StorageAcc(SumInt(a) % TWO64, SumInt(b) % TWO64, |a|, |b|)
  }

  function AddStorage(acc: StorageAcc, p: StoragePoint): StorageAcc {
    var a := if p.first.Some? then acc.(firstSum := (acc.firstSum + p.first.value) % TWO64, nFirst := acc.nFirst + 1) else acc;
    if p.second.Some? then a.(secondSum := (a.secondSum + p.second.value) % TWO64, nSecond := a.nSecond + 1) else a
  }

  lemma StorageValuesGrow(points: seq<StoragePoint>, p: StoragePoint, f: StorageField, w: Window, i: int)
    requires Proper(w)
    ensures var before, after := StorageValues(points, f, w, i), StorageValues(points + [p], f, w, i);
            var lands := Covers(w, p.time) && BucketOf(w, p.time) == i && StorageValue(p, f).Some?;
            after == if lands then before + [StorageValue(p, f).value] else before
  {
    assert StorageReadings(points + [p], f) == StorageReadings(points, f) + [Reading(p.time, StorageValue(p, f))];
    ValuesGrow(StorageReadings(points, f), Reading(p.time, StorageValue(p, f)), w, i);
  }

  lemma SumIntSnoc(vs: seq<uint64>, v: uint64)
    ensures SumInt(vs + [v]) % TWO64 == (SumInt(vs) % TWO64 + v) % TWO64 && |vs + [v]| == |vs| + 1
  {
    assert (vs + [v])[..|vs + [v]| - 1] == vs;
  }

  lemma StorageFieldGrows(points: seq<StoragePoint>, p: StoragePoint, f: StorageField, w: Window, i: int)
    requires Proper(w)
    ensures var before, after := StorageValues(points, f, w, i), StorageValues(points + [p], f, w, i);
            if Covers(w, p.time) && BucketOf(w, p.time) == i && StorageValue(p, f).Some?
            then SumInt(after) % TWO64 == (SumInt(before) % TWO64 + StorageValue(p, f).value) % TWO64 && |after| == |before| + 1
            else after == before
  {
    StorageValuesGrow(points, p, f, w, i);
    hide *;
    if Covers(w, p.time) && BucketOf(w, p.time) == i && StorageValue(p, f).Some? {
      SumIntSnoc(StorageValues(points, f, w, i), StorageValue(p, f).value);
    }
  }

  lemma StorageSumsGrow(points: seq<StoragePoint>, p: StoragePoint, w: Window, i: int)
    requires Proper(w)
    ensures StorageSums(points + [p], w, i) ==
            if Covers(w, p.time) && BucketOf(w, p.time) == i then AddStorage(StorageSums(points, w, i), p)
            else StorageSums(points, w, i)
  {
    StorageFieldGrows(points, p, First, w, i);
    StorageFieldGrows(points, p, Second, w, i);
    hide StorageValues, SumInt, BucketOf, Covers;
  }

  /** The average of a field, or a gap. */
  function MeanReal(sum: real, n: nat): Option<real> {
    if n > 0 then Some(sum / n as real) else None
  }

  function SystemMetricsOf(time: int, acc: SystemAcc): SystemMetrics {
    SystemMetrics(time,
      MeanReal(acc.cpuUsage, acc.nCpuUsage), MeanReal(acc.cpuLimit, acc.nCpuLimit),
      MeanReal(acc.mem, acc.nMem), MeanReal(acc.memLimit, acc.nMemLimit))
  }

  /** The position of the bucket, unless the sample is too old. */
  method BucketIndex(t: int, from: int, step: int) returns (idx: int, ok: bool)
    requires step > 0
    ensures ok <==> from <= t
    ensures ok ==> idx == (t - from) / step && 0 <= idx
  {
    if t < from {
      return 0, false;
    }
    return (t - from) / step, true;
  }

  ghost predicate SystemSumsAre(sums: seq<SystemAcc>, points: seq<SystemPoint>, w: Window)
    requires Proper(w)
  {
    |sums| == Buckets(w) && forall i | 0 <= i < |sums| :: sums[i] == SystemSums(points, w, i)
  }

  lemma NoSystemSums(sums: seq<SystemAcc>, w: Window)
    requires Proper(w) && |sums| == Buckets(w) && forall i | 0 <= i < |sums| :: sums[i] == SystemAcc(0.0, 0.0, 0.0, 0.0, 0, 0, 0, 0)
    ensures SystemSumsAre(sums, [], w)
  {
  }

  /** A sample is added to its bucket, if it has one, and to no other. */
  lemma NextSystemSums(sums: seq<SystemAcc>, points: seq<SystemPoint>, p: SystemPoint, w: Window)
    requires Proper(w) && SystemSumsAre(sums, points, w)
    ensures !Covers(w, p.time) ==> SystemSumsAre(sums, points + [p], w)
    ensures Covers(w, p.time) ==>
              var i := BucketOf(w, p.time);
              0 <= i < |sums| && SystemSumsAre(sums[i := AddSystem(sums[i], p)], points + [p], w)
  {
    forall i
      ensures SystemSums(points + [p], w, i) ==
              if Covers(w, p.time) && BucketOf(w, p.time) == i then AddSystem(SystemSums(points, w, i), p) else SystemSums(points, w, i)
    {
      SystemSumsGrow(points, p, w, i);
    }
    if Covers(w, p.time) {
      BucketEncloses(w, p.time, 0);
    }
    hide Covers, BucketOf, SystemSums, AddSystem, Buckets;
  }

  lemma SystemBucketOfSums(sums: seq<SystemAcc>, points: seq<SystemPoint>, w: Window, i: nat)
    requires Proper(w) && SystemSumsAre(sums, points, w) && i < |sums|
    ensures SystemMetricsOf(w.from + i * w.step, sums[i]) == SystemBucket(points, w, i)
  {
    hide SystemValues, SumReal, SumInt;
  }

  lemma SystemSeriesDone(result: seq<SystemMetrics>, points: seq<SystemPoint>, w: Window)
    requires Proper(w) && |result| == Buckets(w) && forall i | 0 <= i < |result| :: result[i] == SystemBucket(points, w, i)
    ensures IsSystemSeries(result, points, w)
  {
  }

  /** One turn of the loop over the samples. */
  method SumSystemPoint(sums: array<SystemAcc>, p: SystemPoint, w: Window, ghost points: seq<SystemPoint>)
    requires Proper(w) && SystemSumsAre(sums[..], points, w)
    modifies sums
    ensures SystemSumsAre(sums[..], points + [p], w)
  {
    ghost var before := sums[..];
    assert w.step > 0 && sums.Length == Buckets(w);
    NextSystemSums(before, points, p, w);
    BucketExists(w, p.time);
    hide *;
    if !(p.time < w.to) {
      return;
    }
    var idx, ok := BucketIndex(p.time, w.from, w.step);
    if !ok || idx >= sums.Length {
      return;
    }
    sums[idx] := AddSystem(sums[idx], p);
    assert sums[..] == before[idx := AddSystem(before[idx], p)];
  }

  /** The loop over the samples. */
  method SumSystemPoints(points: seq<SystemPoint>, w: Window) returns (sums: array<SystemAcc>)
    requires Proper(w)
    ensures fresh(sums) && SystemSumsAre(sums[..], points, w)
  {
    assert Buckets(w) == NumBuckets(w.to - w.from, w.step);
    hide *;
    sums := new SystemAcc[NumBuckets(w.to - w.from, w.step)](_ => SystemAcc(0.0, 0.0, 0.0, 0.0, 0, 0, 0, 0));
    NoSystemSums(sums[..], w);
    assert points[..0] == [];
    for k := 0 to |points|
      invariant SystemSumsAre(sums[..], points[..k], w)
    {
      assert points[..k + 1] == points[..k] + [points[k]];
      SumSystemPoint(sums, points[k], w, points[..k]);
    }
    assert points[..|points|] == points;
  }

  method BucketSystemPoints(points: seq<SystemPoint>, w: Window) returns (result: seq<SystemMetrics>)
    requires Proper(w)
    ensures IsSystemSeries(result, points, w)
  {
    var sums := SumSystemPoints(points, w);
    ghost var total := sums[..];
    assert |total| == sums.Length == Buckets(w);
    hide *;
    result := [];
    for i := 0 to sums.Length
      invariant |result| == i && sums[..] == total
      invariant forall j | 0 <= j < i :: result[j] == SystemBucket(points, w, j)
    {
      SystemBucketOfSums(total, points, w, i);
      result := result + [SystemMetricsOf(w.from + i * w.step, sums[i])];
    }
    SystemSeriesDone(result, points, w);
  }

  function MeanInt(sum: int, n: nat): Option<int> {
    if n > 0 then Some(sum / n) else None
  }

  function StorageUsageOf(time: int, acc: StorageAcc): StorageUsage {
    StorageUsage(time, MeanInt(acc.firstSum, acc.nFirst), MeanInt(acc.secondSum, acc.nSecond))
  }

  ghost predicate StorageSumsAre(sums: seq<StorageAcc>, points: seq<StoragePoint>, w: Window)
    requires Proper(w)
  {
    |sums| == Buckets(w) && forall i | 0 <= i < |sums| :: sums[i] == StorageSums(points, w, i)
  }

  lemma NoStorageSums(sums: seq<StorageAcc>, w: Window)
    requires Proper(w) && |sums| == Buckets(w) && forall i | 0 <= i < |sums| :: sums[i] == StorageAcc(0, 0, 0, 0)
    ensures StorageSumsAre(sums, [], w)
  {
  }

  /** A sample is added to its bucket, if it has one, and to no other. */
  lemma NextStorageSums(sums: seq<StorageAcc>, points: seq<StoragePoint>, p: StoragePoint, w: Window)
    requires Proper(w) && StorageSumsAre(sums, points, w)
    ensures !Covers(w, p.time) ==> StorageSumsAre(sums, points + [p], w)
    ensures Covers(w, p.time) ==>
              var i := BucketOf(w, p.time);
              0 <= i < |sums| && StorageSumsAre(sums[i := AddStorage(sums[i], p)], points + [p], w)
  {
    forall i
      ensures StorageSums(points + [p], w, i) ==
              if Covers(w, p.time) && BucketOf(w, p.time) == i then AddStorage(StorageSums(points, w, i), p) else StorageSums(points, w, i)
    {
      StorageSumsGrow(points, p, w, i);
    }
    if Covers(w, p.time) {
      BucketEncloses(w, p.time, 0);
    }
    hide Covers, BucketOf, StorageSums, AddStorage, Buckets;
  }

  lemma StorageBucketOfSums(sums: seq<StorageAcc>, points: seq<StoragePoint>, w: Window, i: nat)
    requires Proper(w) && StorageSumsAre(sums, points, w) && i < |sums|
    ensures StorageUsageOf(w.from + i * w.step, sums[i]) == StorageBucket(points, w, i)
  {
    hide StorageValues, SumReal, SumInt;
  }

  lemma StorageSeriesDone(result: seq<StorageUsage>, points: seq<StoragePoint>, w: Window)
    requires Proper(w) && |result| == Buckets(w) && forall i | 0 <= i < |result| :: result[i] == StorageBucket(points, w, i)
    ensures IsStorageSeries(result, points, w)
  {
  }

  /** One turn of the loop over the samples. */
  method SumStoragePoint(sums: array<StorageAcc>, p: StoragePoint, w: Window, ghost points: seq<StoragePoint>)
    requires Proper(w) && StorageSumsAre(sums[..], points, w)
    modifies sums
    ensures StorageSumsAre(sums[..], points + [p], w)
  {
    ghost var before := sums[..];
    assert w.step > 0 && sums.Length == Buckets(w);
    NextStorageSums(before, points, p, w);
    BucketExists(w, p.time);
    hide *;
    if !(p.time < w.to) {
      return;
    }
    var idx, ok := BucketIndex(p.time, w.from, w.step);
    if !ok || idx >= sums.Length {
      return;
    }
    sums[idx] := AddStorage(sums[idx], p);
    assert sums[..] == before[idx := AddStorage(before[idx], p)];
  }

  /** The loop over the samples. */
  method SumStoragePoints(points: seq<StoragePoint>, w: Window) returns (sums: array<StorageAcc>)
    requires Proper(w)
    ensures fresh(sums) && StorageSumsAre(sums[..], points, w)
  {
    assert Buckets(w) == NumBuckets(w.to - w.from, w.step);
    hide *;
    sums := new StorageAcc[NumBuckets(w.to - w.from, w.step)](_ => StorageAcc(0, 0, 0, 0));
    NoStorageSums(sums[..], w);
    assert points[..0] == [];
    for k := 0 to |points|
      invariant StorageSumsAre(sums[..], points[..k], w)
    {
      assert points[..k + 1] == points[..k] + [points[k]];
      SumStoragePoint(sums, points[k], w, points[..k]);
    }
    assert points[..|points|] == points;
  }

  /** bucketMountPoints, and the same loops again in bucketDockerPoints. */
  method BucketStoragePoints(points: seq<StoragePoint>, w: Window) returns (result: seq<StorageUsage>)
    requires Proper(w)
    ensures IsStorageSeries(result, points, w)
  {
    var sums := SumStoragePoints(points, w);
    ghost var total := sums[..];
    assert |total| == sums.Length == Buckets(w);
    hide *;
    result := [];
    for i := 0 to sums.Length
      invariant |result| == i && sums[..] == total
      invariant forall j | 0 <= j < i :: result[j] == StorageBucket(points, w, j)
    {
      StorageBucketOfSums(total, points, w, i);
      result := result + [StorageUsageOf(w.from + i * w.step, sums[i])];
    }
    StorageSeriesDone(result, points, w);
  }

  // Recording and pruning.

  function SystemTime(p: SystemPoint): int { p.time }

  function StorageTime(p: StoragePoint): int { p.time }

  /** How many samples at the front are older than the cutoff. */
  function Expired<T>(points: seq<T>, cutoff: int, timeOf: T -> int): (n: nat)
    ensures n <= |points|
    ensures forall k | 0 <= k < n :: timeOf(points[k]) < cutoff
    ensures n < |points| ==> timeOf(points[n]) >= cutoff
  {
    if points == [] || timeOf(points[0]) >= cutoff then 0 else 1 + Expired(points[1..], cutoff, timeOf)
  }

  function Aged<T>(points: seq<T>, cutoff: int, timeOf: T -> int): seq<T> {
    points[Expired(points, cutoff, timeOf)..]
  }

  method DropBefore<T>(points: seq<T>, cutoff: int, timeOf: T -> int) returns (r: seq<T>)
    ensures r == Aged(points, cutoff, timeOf)
    ensures |r| <= |points| && r == points[|points| - |r|..]
    ensures forall k | 0 <= k < |points| - |r| :: timeOf(points[k]) < cutoff
    ensures r != [] ==> timeOf(r[0]) >= cutoff
  {
    var i := 0;
    while i < |points| && timeOf(points[i]) < cutoff
      invariant 0 <= i <= |points|
      invariant Expired(points, cutoff, timeOf) == i + Expired(points[i..], cutoff, timeOf)
    {
      i := i + 1;
    }
    r := points[i..];
  }

  /** kept is what is left of all after dropping some samples at the front, each older than the cutoff. */
  ghost predicate PrunedTo<T(!new)>(all: seq<T>, kept: seq<T>, cutoff: int, timeOf: T -> int) {
    && |kept| <= |all|
    && kept == all[|all| - |kept|..]
    && forall k | 0 <= k < |all| - |kept| :: timeOf(all[k]) < cutoff
  }

  /** Pruning again, after more was recorded, with a cutoff that is no earlier. */
  lemma PruneMore<T(!new)>(all: seq<T>, kept: seq<T>, more: seq<T>, old_cutoff: int, cutoff: int, bound: int, timeOf: T -> int)
    requires PrunedTo(all, kept, old_cutoff, timeOf) && old_cutoff <= bound && cutoff <= bound
    ensures PrunedTo(all + more, Aged(kept + more, cutoff, timeOf), bound, timeOf)
  {
    var now := kept + more;
    var n := Expired(now, cutoff, timeOf);
    var d := |all| - |kept|;
    assert all + more == all[..d] + now;
    forall k | 0 <= k < d + n
      ensures timeOf((all + more)[k]) < bound
    {
      if k >= d {
        assert (all + more)[k] == now[k - d];
      }
    }
  }

  datatype MountUsage = MountUsage(mountPoint: string, usedBytes: uint64, totalBytes: uint64)

  datatype DockerUsage = DockerUsage(totalBytes: uint64, declaredSize: uint64)

  type MountSeries = map<string, seq<StoragePoint>>

  function SeriesOf(mounts: MountSeries, m: string): seq<StoragePoint> {
    if m in mounts then mounts[m] else []
  }

  /** The samples one tick adds for mount m. */
  function MountPoints(usages: seq<MountUsage>, now: int, m: string): seq<StoragePoint> {
    if usages == [] then []
    else
      var u := usages[|usages| - 1];
      MountPoints(usages[..|usages| - 1], now, m)
      + (if u.mountPoint == m then [StoragePoint(now, Some(u.usedBytes), Some(u.totalBytes))] else [])
  }

  /** A query starts at or after the cutoff of every prune so far, so it cannot tell what was pruned. */
  lemma PrunedSystemIsInvisible(all: seq<SystemPoint>, kept: seq<SystemPoint>, cutoff: int, w: Window, f: SystemField, i: int)
    requires Proper(w) && cutoff <= w.from && PrunedTo(all, kept, cutoff, SystemTime)
    ensures SystemValues(all, f, w, i) == SystemValues(kept, f, w, i)
  {
    var d := |all| - |kept|;
    forall k | 0 <= k < d
      ensures SystemReadings(all, f)[k].time < w.from
    {
      assert SystemTime(all[k]) < cutoff;
    }
    EarlierSamplesAreInvisible(SystemReadings(all, f), d, w, i);
    assert SystemReadings(all, f)[d..] == SystemReadings(kept, f);
  }

  lemma PrunedStorageIsInvisible(all: seq<StoragePoint>, kept: seq<StoragePoint>, cutoff: int, w: Window, f: StorageField, i: int)
    requires Proper(w) && cutoff <= w.from && PrunedTo(all, kept, cutoff, StorageTime)
    ensures StorageValues(all, f, w, i) == StorageValues(kept, f, w, i)
  {
    var d := |all| - |kept|;
    forall k | 0 <= k < d
      ensures StorageReadings(all, f)[k].time < w.from
    {
      assert StorageTime(all[k]) < cutoff;
    }
    EarlierSamplesAreInvisible(StorageReadings(all, f), d, w, i);
    assert StorageReadings(all, f)[d..] == StorageReadings(kept, f);
  }

  lemma SystemSeriesOfAll(result: seq<SystemMetrics>, all: seq<SystemPoint>, kept: seq<SystemPoint>, cutoff: int, w: Window)
    requires Proper(w) && cutoff <= w.from && PrunedTo(all, kept, cutoff, SystemTime)
    requires IsSystemSeries(result, kept, w)
    ensures IsSystemSeries(result, all, w)
  {
    forall i | 0 <= i < |result|
      ensures result[i] == SystemBucket(all, w, i)
    {
      PrunedSystemIsInvisible(all, kept, cutoff, w, CpuUsage, i);
      PrunedSystemIsInvisible(all, kept, cutoff, w, CpuLimit, i);
      PrunedSystemIsInvisible(all, kept, cutoff, w, MemoryUsage, i);
      PrunedSystemIsInvisible(all, kept, cutoff, w, MemLimit, i);
    }
  }

  lemma StorageBucketOfAll(all: seq<StoragePoint>, kept: seq<StoragePoint>, cutoff: int, w: Window, i: int)
    requires Proper(w) && cutoff <= w.from && PrunedTo(all, kept, cutoff, StorageTime)
    ensures StorageBucket(all, w, i) == StorageBucket(kept, w, i)
  {
    PrunedStorageIsInvisible(all, kept, cutoff, w, First, i);
    PrunedStorageIsInvisible(all, kept, cutoff, w, Second, i);
  }

  lemma StorageSeriesOfAll(result: seq<StorageUsage>, all: seq<StoragePoint>, kept: seq<StoragePoint>, cutoff: int, w: Window)
    requires Proper(w) && cutoff <= w.from && PrunedTo(all, kept, cutoff, StorageTime)
    requires IsStorageSeries(result, kept, w)
    ensures IsStorageSeries(result, all, w)
  {
    forall i | 0 <= i < |result|
      ensures result[i] == StorageBucket(all, w, i)
    {
      StorageBucketOfAll(all, kept, cutoff, w, i);
    }
  }

  /** A series with nothing in any bucket. */
  ghost predicate IsBlank(points: seq<StoragePoint>, w: Window)
    requires Proper(w)
  {
    forall i: int :: StorageBucket(points, w, i) == StorageUsage(w.from + i * w.step, None, None)
  }

  lemma PrunedAwayIsBlank(all: seq<StoragePoint>, cutoff: int, w: Window)
    requires Proper(w) && cutoff <= w.from && PrunedTo(all, [], cutoff, StorageTime)
    ensures IsBlank(all, w)
  {
    forall i: int
      ensures StorageBucket(all, w, i) == StorageUsage(w.from + i * w.step, None, None)
    {
      StorageBucketOfAll(all, [], cutoff, w, i);
    }
  }

  datatype HistoryQuery = HistoryQuery(from: Arg, to: Arg, range: Arg, step: Arg)

  datatype HistoryResponse = HistoryResponse(
    window: Window,
    system: seq<SystemMetrics>,
    mounts: map<string, seq<StorageUsage>>,
    docker: Option<seq<StorageUsage>>)

  /** The window and step the query resolves to. */
  predicate WindowFor(q: HistoryQuery, now: int, collectionInterval: int, w: Window) {
    var native := if collectionInterval <= 0 then SECOND else collectionInterval;
    && ResolveWindow(q.from, q.to, q.range, now) == Ok(Span(w.from, w.to))
    && ResolveStep(q.step, w.to - w.from, native) == Ok(w.step)
    && Proper(w)
  }

  /** With samples in time order, what is kept is exactly what is not too old. */
  lemma {:induction false} AgedKeepsRecent<T(!new)>(points: seq<T>, cutoff: int, timeOf: T -> int, k: nat)
    requires forall i, j | 0 <= i < j < |points| :: timeOf(points[i]) <= timeOf(points[j])
    requires k < |points|
    ensures k < Expired(points, cutoff, timeOf) <==> timeOf(points[k]) < cutoff
  {
    var n := Expired(points, cutoff, timeOf);
    if n < k {
      assert timeOf(points[n]) <= timeOf(points[k]);
    }
  }

  /**
   A record can outrun a query: one made at `time`, and another just over the retention later, after the
   query has read its clock. The first sample lies in the window asked for, and is gone.
   */
  lemma RecordMayOutrunQuery(time: int, cpu: real, step: int)
    requires 0 < step <= HISTORY_RETENTION
    ensures var now := time + HISTORY_RETENTION;
            var w := Window(time, now, step);
            var p := SystemPoint(time, Some(cpu), None, None, None);
            && ResolveWindow(Absent, Absent, Given(HISTORY_RETENTION), now) == Ok(Span(w.from, w.to))
            && Aged([p], now + 1 - HISTORY_RETENTION, SystemTime) == []
            && SystemValues([p], CpuUsage, w, 0) == [cpu] && SystemValues([], CpuUsage, w, 0) == []
  {
    var w := Window(time, time + HISTORY_RETENTION, step);
    var p := SystemPoint(time, Some(cpu), None, None, None);
    BucketEncloses(w, time, 0);
    SystemValuesGrow([], p, CpuUsage, w, 0);
    assert [] + [p] == [p];
  }

  /** The part of GetSystemInfoHistory before the history is locked. */
  method ResolveQuery(q: HistoryQuery, now: int, collectionInterval: int) returns (r: Result<Window, QueryError>)
    ensures r.Err? <==> ResolveWindow(q.from, q.to, q.range, now).Err? || ResolveStep(q.step, 1, 1).Err?
    ensures r.Err? ==>
              r.error == if ResolveWindow(q.from, q.to, q.range, now).Err?
                         then ResolveWindow(q.from, q.to, q.range, now).error else ResolveStep(q.step, 1, 1).error
    ensures r.Ok? ==> WindowFor(q, now, collectionInterval, r.value) && now - HISTORY_RETENTION <= r.value.from
    ensures r.Ok? ==>
              var w, oldest := r.value, now - 86_400_000_000_000;
              var both := q.from.Given? && q.to.Given?;
              var lo := if both then q.from.value else if q.range.Given? then now - q.range.value else now - 3_600_000_000_000;
              var hi := if both then q.to.value else now;
              && w.from == (if lo < oldest then oldest else lo)
              && w.to == if lo < now && oldest < hi then if hi > now then now else hi else w.from + 1_000_000_000
    ensures r.Ok? ==>
              var w, native := r.value, if collectionInterval <= 0 then 1_000_000_000 else collectionInterval;
              var asked := if q.step.Given? && q.step.value > native then q.step.value else native;
              w.step == if (w.to - w.from) / 720 > asked then (w.to - w.from) / 720 else asked
  {
    StepErrors(q.step);
    var window := ResolveWindow(q.from, q.to, q.range, now);
    if window.Err? {
      return Err(window.error);
    }
    var from, to := window.value.from, window.value.to;
    var nativeInterval := collectionInterval;
    if nativeInterval <= 0 {
      nativeInterval := SECOND;
    }
    var step := ResolveStep(q.step, to - from, nativeInterval);
    StepIsAsked(q.step, to - from, nativeInterval);
    if step.Err? {
      return Err(step.error);
    }
    WindowWithinRetention(q.from, q.to, q.range, now);
    WindowIsAsked(q.from, q.to, q.range, now);
    hide ResolveWindow, ResolveStep;
    return Ok(Window(from, to, step.value));
  }

  /** Whether a step is refused does not depend on the window. */
  lemma StepErrors(reqStep: Arg)
    ensures forall span: int, native: int :: ResolveStep(reqStep, span, native).Err? <==> ResolveStep(reqStep, 1, 1).Err?
    ensures forall span: int, native: int ::
              ResolveStep(reqStep, span, native).Err? ==> ResolveStep(reqStep, span, native) == ResolveStep(reqStep, 1, 1)
  {
  }

  class History {
    var system: seq<SystemPoint>
    var mounts: MountSeries
    var docker: seq<StoragePoint>

    // Everything ever recorded, and the latest time at which something was.
    ghost var allSystem: seq<SystemPoint>
    ghost var allMounts: MountSeries
    ghost var allDocker: seq<StoragePoint>
    ghost var latest: int

    ghost predicate Valid()
      reads this
    {
      && PrunedTo(allSystem, system, latest - HISTORY_RETENTION, SystemTime)
      && PrunedTo(allDocker, docker, latest - HISTORY_RETENTION, StorageTime)
      && MountsPruned(allMounts, mounts, latest - HISTORY_RETENTION)
    }

    constructor (ghost now: int)
      ensures Valid() && latest == now && allSystem == [] && allMounts == map[] && allDocker == []
    {
      system, mounts, docker := [], map[], [];
      allSystem, allMounts, allDocker, latest := [], map[], [], now;
    }

    method Record(now: int, sys: Option<SystemPoint>, usages: seq<MountUsage>, usage: Option<DockerUsage>)
      requires Valid()
      modifies this
      ensures Valid()
      ensures latest == if now > old(latest) then now else old(latest)
      ensures allSystem == old(allSystem) + OneOf(sys) == old(allSystem) + if sys.Some? then [sys.value] else []
      ensures allMounts == WithMounts(old(allMounts), usages, now)
      ensures allDocker == old(allDocker) + DockerPoints(usage, now)
      ensures usage.Some? ==>
                DockerPoints(usage, now) == [StoragePoint(now, Some(usage.value.totalBytes), Some(usage.value.declaredSize))]
      ensures usage.None? ==> DockerPoints(usage, now) == []
      ensures forall m: string :: SeriesOf(allMounts, m) == SeriesOf(old(allMounts), m) + MountPoints(usages, now, m)
      ensures system == Aged(old(system) + OneOf(sys), now - HISTORY_RETENTION, SystemTime)
      ensures docker == Aged(old(docker) + DockerPoints(usage, now), now - HISTORY_RETENTION, StorageTime)
      ensures MountsAged(WithMounts(old(mounts), usages, now), mounts, now - HISTORY_RETENTION)
      ensures system != [] ==> system[0].time >= now - 86_400_000_000_000
      ensures docker != [] ==> docker[0].time >= now - 86_400_000_000_000
      ensures forall m | m in mounts :: mounts[m] != [] && mounts[m][0].time >= now - 86_400_000_000_000
    {
      hide PrunedTo, MountsPruned, MountsAged, Aged, WithMounts, OneOf, DockerPoints;
      TickSamples(sys, usage, now);
      forall m: string {
        WithMountsAppends(allMounts, usages, now, m);
      }
      Append(now, sys, usages, usage);
      PruneLocked(now);
      RecordPrunes(now, old(latest), sys, usages, usage, old(allSystem), old(system), old(allMounts), old(mounts), mounts,
                   old(allDocker), old(docker));
      allSystem := allSystem + OneOf(sys);
      allMounts := WithMounts(allMounts, usages, now);
      allDocker := allDocker + DockerPoints(usage, now);
      latest := if now > latest then now else latest;
      AgedStartsFresh(old(system) + OneOf(sys), now - HISTORY_RETENTION, SystemTime);
      AgedStartsFresh(old(docker) + DockerPoints(usage, now), now - HISTORY_RETENTION, StorageTime);
      MountsStartFresh(WithMounts(old(mounts), usages, now), mounts, now - HISTORY_RETENTION);
      assert HISTORY_RETENTION == 86_400_000_000_000;
    }

    /** The answer is made of the samples that are still kept. */
    ghost predicate OfKept(r: HistoryResponse, podmanEnabled: bool)
      reads this
      requires Proper(r.window)
    {
      && IsSystemSeries(r.system, system, r.window)
      && r.mounts.Keys == mounts.Keys
      && (forall m | m in r.mounts :: IsStorageSeries(r.mounts[m], mounts[m], r.window))
      && r.docker.Some? == podmanEnabled
      && (podmanEnabled ==> IsStorageSeries(r.docker.value, docker, r.window))
    }

    /**
     Every bucket of every series is what it would be had nothing ever been pruned; a mount left out of the
     answer would have had only gaps.
     */
    ghost predicate OfAll(r: HistoryResponse, podmanEnabled: bool)
      reads this
      requires Proper(r.window)
    {
      && IsSystemSeries(r.system, allSystem, r.window)
      && (forall m | m in r.mounts :: IsStorageSeries(r.mounts[m], SeriesOf(allMounts, m), r.window))
      && (forall m | m in allMounts && m !in r.mounts :: IsBlank(allMounts[m], r.window))
      && r.docker.Some? == podmanEnabled
      && (podmanEnabled ==> IsStorageSeries(r.docker.value, allDocker, r.window))
    }

    /**
     GetSystemInfoHistory. now is read before the history is locked, so a sample may already have been
     recorded at a later time. Pruning cannot be told from the answer whenever the window starts within the
     retention as of the last record, which it always does when now is not before that record.
     */
    method Query(q: HistoryQuery, now: int, collectionInterval: int, podmanEnabled: bool)
      returns (r: Result<HistoryResponse, QueryError>)
      requires Valid()
      ensures r.Err? <==> ResolveWindow(q.from, q.to, q.range, now).Err? || ResolveStep(q.step, 1, 1).Err?
      ensures r.Err? ==>
                r.error == if ResolveWindow(q.from, q.to, q.range, now).Err?
                           then ResolveWindow(q.from, q.to, q.range, now).error else ResolveStep(q.step, 1, 1).error
      ensures r.Ok? ==> WindowFor(q, now, collectionInterval, r.value.window) && OfKept(r.value, podmanEnabled)
      ensures r.Ok? ==>
                var w, oldest := r.value.window, now - 86_400_000_000_000;
                var both := q.from.Given? && q.to.Given?;
                var lo := if both then q.from.value else if q.range.Given? then now - q.range.value else now - 3_600_000_000_000;
                var hi := if both then q.to.value else now;
                && w.from == (if lo < oldest then oldest else lo)
                && w.to == if lo < now && oldest < hi then if hi > now then now else hi else w.from + 1_000_000_000
      ensures r.Ok? ==>
                var w, native := r.value.window, if collectionInterval <= 0 then 1_000_000_000 else collectionInterval;
                var asked := if q.step.Given? && q.step.value > native then q.step.value else native;
                w.step == if (w.to - w.from) / 720 > asked then (w.to - w.from) / 720 else asked
      ensures r.Ok? && latest - HISTORY_RETENTION <= r.value.window.from ==> OfAll(r.value, podmanEnabled)
      ensures r.Ok? && latest <= now ==> latest - HISTORY_RETENTION <= r.value.window.from
    {
      var resolved := ResolveQuery(q, now, collectionInterval);
      if resolved.Err? {
        return Err(resolved.error);
      }
      var w := resolved.value;
      var systemSeries := BucketSystemPoints(system, w);
      var mountSeries := BucketMounts(w);
      var dockerSeries := None;
      if podmanEnabled {
        var d := BucketStoragePoints(docker, w);
        dockerSeries := Some(d);
      }
      var response := HistoryResponse(w, systemSeries, mountSeries, dockerSeries);
      assert OfKept(response, podmanEnabled);
      if latest - HISTORY_RETENTION <= w.from {
        KeptIsAll(response, podmanEnabled);
      }
      return Ok(response);
    }

    method BucketMounts(w: Window) returns (r: map<string, seq<StorageUsage>>)
      requires Proper(w)
      ensures r.Keys == mounts.Keys && forall m | m in r :: IsStorageSeries(r[m], mounts[m], w)
    {
      r := map[];
      var keys := mounts.Keys;
      hide IsStorageSeries;
      while keys != {}
        invariant keys <= mounts.Keys && r.Keys == mounts.Keys - keys
        invariant forall m | m in r :: IsStorageSeries(r[m], mounts[m], w)
        decreases keys
      {
        var m :| m in keys;
        keys := keys - {m};
        var series := BucketStoragePoints(mounts[m], w);
        r := r[m := series];
      }
    }

    lemma KeptIsAll(r: HistoryResponse, podmanEnabled: bool)
      requires Valid() && Proper(r.window) && latest - HISTORY_RETENTION <= r.window.from
      requires OfKept(r, podmanEnabled)
      ensures OfAll(r, podmanEnabled)
    {
      var cutoff, w := latest - HISTORY_RETENTION, r.window;
      hide IsSystemSeries, IsStorageSeries, IsBlank, PrunedTo;
      SystemSeriesOfAll(r.system, allSystem, system, cutoff, w);
      forall m | m in r.mounts
        ensures IsStorageSeries(r.mounts[m], SeriesOf(allMounts, m), w)
      {
        assert PrunedTo(SeriesOf(allMounts, m), SeriesOf(mounts, m), cutoff, StorageTime);
        StorageSeriesOfAll(r.mounts[m], SeriesOf(allMounts, m), mounts[m], cutoff, w);
      }
      forall m | m in allMounts && m !in r.mounts
        ensures IsBlank(allMounts[m], w)
      {
        assert PrunedTo(SeriesOf(allMounts, m), SeriesOf(mounts, m), cutoff, StorageTime);
        PrunedAwayIsBlank(allMounts[m], cutoff, w);
      }
      if podmanEnabled {
        StorageSeriesOfAll(r.docker.value, allDocker, docker, cutoff, w);
      }
    }

    /** The part of record before the prune. */
    method Append(now: int, sys: Option<SystemPoint>, usages: seq<MountUsage>, usage: Option<DockerUsage>)
      modifies `system, `mounts, `docker
      ensures system == old(system) + OneOf(sys)
      ensures mounts == WithMounts(old(mounts), usages, now)
      ensures docker == old(docker) + DockerPoints(usage, now)
    {
      if sys.Some? {
        system := system + [sys.value];
      }
      for k := 0 to |usages|
        modifies `mounts
        invariant mounts == WithMounts(old(mounts), usages[..k], now)
      {
        var m := usages[k].mountPoint;
        var p := StoragePoint(now, Some(usages[k].usedBytes), Some(usages[k].totalBytes));
        assert usages[..k + 1][..k] == usages[..k];
        mounts := mounts[m := SeriesOf(mounts, m) + [p]];
      }
      assert usages[..|usages|] == usages;
      if usage.Some? {
        docker := docker + [DockerPoint(now, usage.value)];
      }
    }

    method PruneLocked(now: int)
      modifies `system, `mounts, `docker
      ensures system == Aged(old(system), now - HISTORY_RETENTION, SystemTime)
      ensures docker == Aged(old(docker), now - HISTORY_RETENTION, StorageTime)
      ensures MountsAged(old(mounts), mounts, now - HISTORY_RETENTION)
    {
      var cutoff := now - HISTORY_RETENTION;
      system := DropBefore(system, cutoff, SystemTime);
      var keys := mounts.Keys;
      ghost var before := mounts;
      assert PartlyAged(before, mounts, keys, cutoff);
      hide PartlyAged, Aged;
      while keys != {}
        modifies `mounts
        invariant PartlyAged(before, mounts, keys, cutoff)
        decreases keys
      {
        var m :| m in keys;
        PruneStep(before, mounts, keys, m, cutoff);
        keys := keys - {m};
        var pruned := DropBefore(mounts[m], cutoff, StorageTime);
        if |pruned| == 0 {
          mounts := mounts - {m};
        } else {
          mounts := mounts[m := pruned];
        }
      }
      AllAged(before, mounts, cutoff);
      docker := DropBefore(docker, cutoff, StorageTime);
    }
  }

  function OneOf<T>(x: Option<T>): seq<T> {
    if x.Some? then [x.value] else []
  }

  function DockerPoints(usage: Option<DockerUsage>, now: int): seq<StoragePoint> {
    if usage.Some? then [DockerPoint(now, usage.value)] else []
  }

  /** The mount series after one tick's samples are appended. */
  function WithMounts(mounts: MountSeries, usages: seq<MountUsage>, now: int): MountSeries {
    if usages == [] then mounts
    else
      var u, prev := usages[|usages| - 1], WithMounts(mounts, usages[..|usages| - 1], now);
      prev[u.mountPoint := SeriesOf(prev, u.mountPoint) + [StoragePoint(now, Some(u.usedBytes), Some(u.totalBytes))]]
  }

  lemma {:induction false} WithMountsAppends(mounts: MountSeries, usages: seq<MountUsage>, now: int, m: string)
    ensures SeriesOf(WithMounts(mounts, usages, now), m) == SeriesOf(mounts, m) + MountPoints(usages, now, m)
  {
    if usages != [] {
      WithMountsAppends(mounts, usages[..|usages| - 1], now, m);
    }
  }

  /** Every series has lost its old samples, and a mount without samples is gone. */
  ghost predicate MountsAged(before: MountSeries, after: MountSeries, cutoff: int) {
    && (forall m | m in after :: after[m] != [])
    && forall m: string :: SeriesOf(after, m) == Aged(SeriesOf(before, m), cutoff, StorageTime)
  }

  /** The loop over the mounts has still to come to m, or has aged it. */
  predicate KeyAged(before: MountSeries, after: MountSeries, keys: set<string>, cutoff: int, m: string) {
    && (m in keys ==> m in before && m in after && after[m] == before[m])
    && (m !in keys ==> SeriesOf(after, m) == Aged(SeriesOf(before, m), cutoff, StorageTime) && (m in after ==> after[m] != []))
  }

  ghost predicate PartlyAged(before: MountSeries, after: MountSeries, keys: set<string>, cutoff: int) {
    forall m: string :: KeyAged(before, after, keys, cutoff, m)
  }

  lemma PruneKey(before: MountSeries, after: MountSeries, keys: set<string>, m: string, cutoff: int, x: string)
    requires m in keys && KeyAged(before, after, keys, cutoff, m) && KeyAged(before, after, keys, cutoff, x)
    ensures var pruned := Aged(after[m], cutoff, StorageTime);
            KeyAged(before, if pruned == [] then after - {m} else after[m := pruned], keys - {m}, cutoff, x)
  {
    hide Aged;
  }

  lemma PruneStep(before: MountSeries, after: MountSeries, keys: set<string>, m: string, cutoff: int)
    requires PartlyAged(before, after, keys, cutoff) && m in keys
    ensures m in after
    ensures var pruned := Aged(after[m], cutoff, StorageTime);
            PartlyAged(before, if pruned == [] then after - {m} else after[m := pruned], keys - {m}, cutoff)
  {
    assert KeyAged(before, after, keys, cutoff, m);
    assert m in after;
    var pruned := Aged(after[m], cutoff, StorageTime);
    var next := if pruned == [] then after - {m} else after[m := pruned];
    forall x: string
      ensures KeyAged(before, next, keys - {m}, cutoff, x)
    {
      assert KeyAged(before, after, keys, cutoff, x);
      PruneKey(before, after, keys, m, cutoff, x);
    }
    hide KeyAged, Aged;
  }

  lemma AllAged(before: MountSeries, after: MountSeries, cutoff: int)
    requires PartlyAged(before, after, {}, cutoff)
    ensures MountsAged(before, after, cutoff)
  {
    forall m: string
      ensures SeriesOf(after, m) == Aged(SeriesOf(before, m), cutoff, StorageTime) && (m in after ==> after[m] != [])
    {
      assert KeyAged(before, after, {}, cutoff, m);
    }
    hide KeyAged, Aged;
  }

  /** What Valid needs after a tick. */
  lemma RecordPrunes(now: int, latest: int, sys: Option<SystemPoint>, usages: seq<MountUsage>, usage: Option<DockerUsage>,
                     allSystem: seq<SystemPoint>, system: seq<SystemPoint>,
                     allMounts: MountSeries, mounts: MountSeries, mounts': MountSeries,
                     allDocker: seq<StoragePoint>, docker: seq<StoragePoint>)
    requires PrunedTo(allSystem, system, latest - HISTORY_RETENTION, SystemTime)
    requires PrunedTo(allDocker, docker, latest - HISTORY_RETENTION, StorageTime)
    requires MountsPruned(allMounts, mounts, latest - HISTORY_RETENTION)
    requires MountsAged(WithMounts(mounts, usages, now), mounts', now - HISTORY_RETENTION)
    ensures var cutoff, bound := now - HISTORY_RETENTION, (if now > latest then now else latest) - HISTORY_RETENTION;
            && PrunedTo(allSystem + OneOf(sys), Aged(system + OneOf(sys), cutoff, SystemTime), bound, SystemTime)
            && PrunedTo(allDocker + DockerPoints(usage, now), Aged(docker + DockerPoints(usage, now), cutoff, StorageTime),
                        bound, StorageTime)
            && MountsPruned(WithMounts(allMounts, usages, now), mounts', bound)
  {
    hide PrunedTo, Aged, WithMounts, MountPoints;
    var was, cutoff := latest - HISTORY_RETENTION, now - HISTORY_RETENTION;
    var bound := (if now > latest then now else latest) - HISTORY_RETENTION;
    PruneMore(allSystem, system, OneOf(sys), was, cutoff, bound, SystemTime);
    PruneMore(allDocker, docker, DockerPoints(usage, now), was, cutoff, bound, StorageTime);
    forall m: string
      ensures PrunedTo(SeriesOf(WithMounts(allMounts, usages, now), m), SeriesOf(mounts', m), bound, StorageTime)
    {
      WithMountsAppends(allMounts, usages, now, m);
      WithMountsAppends(mounts, usages, now, m);
      PruneMore(SeriesOf(allMounts, m), SeriesOf(mounts, m), MountPoints(usages, now, m), was, cutoff, bound, StorageTime);
    }
  }

  lemma AgedStartsFresh<T>(points: seq<T>, cutoff: int, timeOf: T -> int)
    ensures var r := Aged(points, cutoff, timeOf); r != [] ==> timeOf(r[0]) >= cutoff
  {
  }

  lemma MountsStartFresh(before: MountSeries, after: MountSeries, cutoff: int)
    requires MountsAged(before, after, cutoff)
    ensures forall m | m in after :: after[m] != [] && after[m][0].time >= cutoff
  {
    forall m | m in after
      ensures after[m] != [] && after[m][0].time >= cutoff
    {
      AgedStartsFresh(SeriesOf(before, m), cutoff, StorageTime);
      assert SeriesOf(after, m) == after[m];
      hide Aged;
    }
  }

  lemma TickSamples(sys: Option<SystemPoint>, usage: Option<DockerUsage>, now: int)
    ensures OneOf(sys) == if sys.Some? then [sys.value] else []
    ensures usage.Some? ==>
              DockerPoints(usage, now) == [StoragePoint(now, Some(usage.value.totalBytes), Some(usage.value.declaredSize))]
    ensures usage.None? ==> DockerPoints(usage, now) == []
  {
  }

  /** The samples of one tick, mount by mount and in order. */
  lemma MountPointsMean(usages: seq<MountUsage>, u: MountUsage, now: int, m: string)
    ensures MountPoints([], now, m) == []
    ensures MountPoints(usages + [u], now, m) ==
            MountPoints(usages, now, m)
            + (if u.mountPoint == m then [StoragePoint(now, Some(u.usedBytes), Some(u.totalBytes))] else [])
  {
    assert (usages + [u])[..|usages + [u]| - 1] == usages;
  }

  function DockerPoint(now: int, usage: DockerUsage): StoragePoint {
    StoragePoint(now, Some(usage.totalBytes), Some(usage.declaredSize))
  }

  ghost predicate MountsPruned(all: MountSeries, mounts: MountSeries, cutoff: int) {
    forall m: string :: PrunedTo(SeriesOf(all, m), SeriesOf(mounts, m), cutoff, StorageTime)
  }
}
