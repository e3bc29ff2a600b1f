/** The log-linear latency histogram: bucketing, percentiles and observation windows. */
module Histogram {
  import opened Entries

  const SUB_BUCKETS: nat := 8
  const BUCKET_COUNT: nat := 512
  const U64: nat := 0x1_0000_0000_0000_0000

  function Pow2(n: nat): (p: nat)
    ensures p > 0
  {
    if n == 0 then 1 else 2 * Pow2(n - 1)
  }

  /** The position of the leading one bit. */
  function Msb(us: nat): (m: nat)
    requires us > 0
    ensures Pow2(m) <= us < 2 * Pow2(m)
  {
    if us == 1 then 0 else 1 + Msb(us / 2)
  }

  function Min(a: nat, b: nat): nat { if a < b then a else b }

  /** Samples below 8 have a bucket each; above, every octave is split into 8. */
  function BucketIndex(us: nat): nat {
    if us < SUB_BUCKETS then us
    else
      var shift := Shift(us);
      Min((shift + 1) * SUB_BUCKETS + us / Pow2(shift) % SUB_BUCKETS, BUCKET_COUNT - 1)
  }

  function Shift(us: nat): nat
    requires us >= SUB_BUCKETS
  {
    MsbAtLeast(us, 3);
    Msb(us) - 3
  }

  lemma {:induction false} PowMonotone(a: nat, b: nat)
    requires a <= b
    ensures Pow2(a) <= Pow2(b)
  {
    if a < b { PowMonotone(a, b - 1); }
  }

  lemma MsbAtLeast(us: nat, n: nat)
    requires us >= Pow2(n)
    ensures us > 0 && Msb(us) >= n
  {
    if Msb(us) < n { PowMonotone(Msb(us) + 1, n); }
  }

  lemma MsbAtMost(us: nat, n: nat)
    requires 0 < us < 2 * Pow2(n)
    ensures Msb(us) <= n
  {
    if Msb(us) > n { PowMonotone(n + 1, Msb(us)); }
  }

  /** The largest sample of a bucket, in 64-bit arithmetic. */
  function BucketUpper(index: nat): nat {
    if index < SUB_BUCKETS then index
    else UpperFrom(index % SUB_BUCKETS, Pow2(index / SUB_BUCKETS - 1))
  }

  function UpperFrom(sub: nat, width: nat): nat
    requires width > 0
  {
    Min((SUB_BUCKETS + sub) * width % U64 + (width - 1), U64 - 1)
  }

  lemma NoWrap(q: nat, width: nat)
    requires q >= 8 && width > 0 && q * width + width <= U64
    ensures UpperFrom(q - 8, width) == q * width + width - 1
  {
    var base := q * width;
    assert base % U64 == base;
  }

  // ---- bucketing ----

  /** A sample of 8 or more is `q * 2^e + r` with `8 <= q < 16` and `r < 2^e`. */
  lemma Split(us: nat) returns (e: nat, q: nat, r: nat)
    requires us >= SUB_BUCKETS
    ensures e == Shift(us) && 8 <= q < 16 && r < Pow2(e) && us == q * Pow2(e) + r
    ensures q == us / Pow2(e)
  {
    e := Shift(us);
    var p := Pow2(e);
    assert Pow2(e + 3) == 8 * p by { assert Pow2(e + 1) == 2 * p && Pow2(e + 2) == 4 * p; }
    q, r := us / p, us % p;
    assert us == q * p + r;
    Within(q, p, r, us);
  }

  lemma Within(q: nat, p: nat, r: nat, us: nat)
    requires us == q * p + r && r < p && 8 * p <= us < 16 * p
    ensures 8 <= q < 16
  {
    if q < 8 { Scales(q, 7, p); }
    if q >= 16 { Scales(16, q, p); }
  }

  lemma Scales(a: nat, b: nat, p: nat)
    requires a <= b
    ensures a * p <= b * p
  {
  }

  lemma ShiftBound(us: nat)
    requires SUB_BUCKETS <= us < U64
    ensures Shift(us) <= 60
  {
    TopBit();
    MsbAtMost(us, 63);
  }

  lemma SmallPowers()
    ensures Pow2(3) == 8 && Pow2(4) == 16
  {
    assert Pow2(2) == 4;
  }

  lemma TopBit()
    ensures 2 * Pow2(63) == U64
    ensures 16 * Pow2(60) == U64
  {
    hide Pow2;
    SmallPowers();
    PowAdd(4, 4);
    PowAdd(8, 8);
    PowAdd(16, 16);
    PowAdd(32, 32);
    PowAdd(60, 4);
    PowNext(63);
  }

  lemma PowNext(n: nat)
    ensures Pow2(n + 1) == 2 * Pow2(n)
  {
  }

  lemma {:induction false} PowAdd(a: nat, b: nat)
    ensures Pow2(a + b) == Pow2(a) * Pow2(b)
  {
    if b > 0 { PowAdd(a, b - 1); }
  }

  /** No 64-bit sample is clamped: its bucket is `8e + q`, at most 495. */
  lemma NeverClamped(us: nat) returns (e: nat, q: nat, r: nat)
    requires SUB_BUCKETS <= us < U64
    ensures e == Shift(us) && 8 <= q < 16 && r < Pow2(e) && us == q * Pow2(e) + r && e <= 60
    ensures BucketIndex(us) == 8 * e + q < BUCKET_COUNT - 1
  {
    e, q, r := Split(us);
    ShiftBound(us);
    assert q % 8 == q - 8;
  }

  /** Larger samples never land in lower buckets. */
  lemma IndexMonotone(x: nat, y: nat)
    requires x <= y < U64
    ensures BucketIndex(x) <= BucketIndex(y) < BUCKET_COUNT
  {
    hide BucketIndex, Shift, Pow2;
    if y < SUB_BUCKETS {
      SmallIndex(x);
      SmallIndex(y);
    } else {
      var f, s, t := NeverClamped(y);
      if x < SUB_BUCKETS {
        SmallIndex(x);
      } else {
        var e, q, r := NeverClamped(x);
        ShiftMonotone(x, y);
        if e == f { QuotientMonotone(q, s, Pow2(e), r, t); }
      }
    }
  }

  lemma SmallIndex(us: nat)
    requires us < SUB_BUCKETS
    ensures BucketIndex(us) == us && BucketUpper(us) == us
  {
  }

  lemma ShiftMonotone(x: nat, y: nat)
    requires SUB_BUCKETS <= x <= y
    ensures Shift(x) <= Shift(y)
  {
    MsbAtLeast(y, Msb(x));
  }

  lemma QuotientMonotone(q: nat, s: nat, p: nat, r: nat, t: nat)
    requires q * p + r <= s * p + t && t < p
    ensures q <= s
  {
    if q > s { Scales(s + 1, q, p); }
  }

  /** The reported bound of a sample's bucket is at least the sample, and exceeds it by at most
      an eighth. */
  lemma UpperBound(us: nat)
    requires us < U64
    ensures us <= BucketUpper(BucketIndex(us)) <= us + us / 8
  {
    hide BucketIndex, Shift, BucketUpper, Pow2;
    if us < SUB_BUCKETS {
      SmallIndex(us);
    } else {
      var e, q, r := NeverClamped(us);
      UpperOf(e, q);
      Eighth(q, Pow2(e), r, us);
    }
  }

  lemma UpperOf(e: nat, q: nat)
    requires 8 <= q < 16 && e <= 60
    ensures BucketUpper(8 * e + q) == q * Pow2(e) + Pow2(e) - 1
  {
    hide BucketUpper, UpperFrom, Pow2;
    IndexParts(e, q);
    Room(e, q);
    NoWrap(q, Pow2(e));
  }

  lemma IndexParts(e: nat, q: nat)
    requires 8 <= q < 16
    ensures BucketUpper(8 * e + q) == UpperFrom(q - 8, Pow2(e))
  {
    hide Pow2, UpperFrom;
    var index := 8 * e + q;
    assert index / 8 == e + 1 && index % 8 == q - 8;
  }

  lemma Room(e: nat, q: nat)
    requires q < 16 && e <= 60
    ensures q * Pow2(e) + Pow2(e) <= U64
  {
    hide Pow2;
    PowMonotone(e, 60);
    TopBit();
    Product(q, Pow2(e), Pow2(60));
  }

  lemma Product(q: nat, p: nat, top: nat)
    requires q < 16 && 0 < p <= top
    ensures q * p + p <= 16 * top
  {
    assert (q + 1) * p <= 16 * p;
  }

  lemma Eighth(q: nat, p: nat, r: nat, us: nat)
    requires us == q * p + r && r < p && q >= 8
    ensures us <= q * p + p - 1 <= us + us / 8
  {
    assert us >= 8 * p by { assert q * p >= 8 * p; }
    assert us / 8 >= p;
  }

  // ---- percentiles ----

  function Total(delta: seq<nat>): nat {
    if delta == [] then 0 else Total(delta[..|delta| - 1]) + delta[|delta| - 1]
  }

  /** How many samples fall in a bucket. */
  function CountIn(samples: seq<nat>, index: nat): nat {
    if samples == [] then 0 else
      CountIn(samples[..|samples| - 1], index) + if BucketIndex(samples[|samples| - 1]) == index then 1 else 0
  }

  /** How many samples fall in buckets below an index. */
  function CountBelow(samples: seq<nat>, index: nat): nat {
    if samples == [] then 0 else
      CountBelow(samples[..|samples| - 1], index) + if BucketIndex(samples[|samples| - 1]) < index then 1 else 0
  }

  ghost predicate Tallies(delta: seq<nat>, samples: seq<nat>) {
    && |delta| == BUCKET_COUNT
    && (forall i :: 0 <= i < |samples| ==> samples[i] < U64)
    && forall i :: 0 <= i < BUCKET_COUNT ==> delta[i] == CountIn(samples, i)
  }

  predicate Rising(s: seq<nat>) { forall i, j :: 0 <= i <= j < |s| ==> s[i] <= s[j] }

  lemma {:induction false} BelowStep(samples: seq<nat>, index: nat)
    ensures CountBelow(samples, index + 1) == CountBelow(samples, index) + CountIn(samples, index)
  {
    if samples != [] { BelowStep(samples[..|samples| - 1], index); }
  }

  lemma {:induction false} BelowNone(samples: seq<nat>)
    ensures CountBelow(samples, 0) == 0
  {
    if samples != [] { BelowNone(samples[..|samples| - 1]); }
  }

  /** The counts up to a bucket are the samples below it. */
  lemma {:induction false} TotalBelow(delta: seq<nat>, samples: seq<nat>, n: nat)
    requires Tallies(delta, samples) && n <= BUCKET_COUNT
    ensures Total(delta[..n]) == CountBelow(samples, n)
  {
    hide BucketIndex;
    if n == 0 {
      BelowNone(samples);
    } else {
      TotalBelow(delta, samples, n - 1);
      BelowStep(samples, n - 1);
      assert delta[..n][..n - 1] == delta[..n - 1];
    }
  }

  /** In sorted order, the samples in the buckets below an index come first. */
  lemma {:induction false} BelowIsPrefix(s: seq<nat>, k: nat, index: nat)
    requires Rising(s) && k < |s| && forall i :: 0 <= i < |s| ==> s[i] < U64
    ensures CountBelow(s, index) <= |s|
    ensures BucketIndex(s[k]) < index ==> CountBelow(s, index) > k
    ensures BucketIndex(s[k]) >= index ==> CountBelow(s, index) <= k
  {
    hide BucketIndex;
    var front := s[..|s| - 1];
    IndexMonotone(s[k], s[|s| - 1]);
    if k < |s| - 1 {
      BelowIsPrefix(front, k, index);
    } else {
      BelowAtMost(front, index);
      if BucketIndex(s[k]) < index { AllBelow(front, index, s[k]); }
    }
  }

  lemma {:induction false} BelowAtMost(s: seq<nat>, index: nat)
    ensures CountBelow(s, index) <= |s|
  {
    if s != [] { BelowAtMost(s[..|s| - 1], index); }
  }

  lemma {:induction false} AllBelow(s: seq<nat>, index: nat, top: nat)
    requires (forall i :: 0 <= i < |s| ==> s[i] <= top) && top < U64 && BucketIndex(top) < index
    ensures CountBelow(s, index) == |s|
  {
    hide BucketIndex;
    if s != [] {
      IndexMonotone(s[|s| - 1], top);
      AllBelow(s[..|s| - 1], index, top);
    }
  }

  /** Walk the buckets until the counts reach a rank. */
  method Quantile(delta: seq<nat>, rank: nat) returns (r: Option<nat>)
    requires rank > 0
    ensures r.None? <==> Total(delta) < rank
    ensures r.Some? ==> exists i :: 0 <= i < |delta| && Total(delta[..i]) < rank <= Total(delta[..i + 1])
                                    && r.value == BucketUpper(i)
  {
    var seen := 0;
    for index := 0 to |delta|
      invariant seen == Total(delta[..index]) < rank
    {
      assert delta[..index + 1][..index] == delta[..index];
      seen := seen + delta[index];
      if seen >= rank {
        TotalGrows(delta, index + 1);
        return Some(BucketUpper(index));
      }
    }
    assert delta[..|delta|] == delta;
    return None;
  }

  lemma {:induction false} TotalGrows(delta: seq<nat>, n: nat)
    requires n <= |delta|
    ensures Total(delta[..n]) <= Total(delta)
    decreases |delta|
  {
    if n == |delta| {
      assert delta[..n] == delta;
    } else {
      TotalGrows(delta[..|delta| - 1], n);
      assert delta[..|delta| - 1][..n] == delta[..n];
    }
  }

  /** Whatever bucket the walk stops at is the bucket of the true order statistic. */
  lemma RankBucket(delta: seq<nat>, s: seq<nat>, rank: nat, i: nat)
    requires Rising(s) && Tallies(delta, s) && 0 < rank <= |s| && i < BUCKET_COUNT
    requires Total(delta[..i]) < rank <= Total(delta[..i + 1])
    ensures i == BucketIndex(s[rank - 1])
  {
    hide BucketIndex, Tallies;
    TallyFacts(delta, s);
    TotalBelow(delta, s, i);
    TotalBelow(delta, s, i + 1);
    BelowIsPrefix(s, rank - 1, i);
    BelowIsPrefix(s, rank - 1, i + 1);
  }

  lemma TallyFacts(delta: seq<nat>, s: seq<nat>)
    requires Tallies(delta, s)
    ensures |delta| == BUCKET_COUNT && forall i :: 0 <= i < |s| ==> s[i] < U64
  {
  }

  /** The value reported for any rank bounds the true order statistic from above, within an
      eighth of it. */
  method Percentile(delta: seq<nat>, rank: nat, ghost s: seq<nat>) returns (r: Option<nat>)
    requires Rising(s) && Tallies(delta, s) && 0 < rank
    ensures r.Some? <==> rank <= |s|
    ensures r.Some? ==> s[rank - 1] <= r.value <= s[rank - 1] + s[rank - 1] / 8
  {
    hide BucketIndex, BucketUpper;
    r := Quantile(delta, rank);
    TotalIs(delta, s);
    if r.Some? {
      ghost var i :| 0 <= i < |delta| && Total(delta[..i]) < rank <= Total(delta[..i + 1]) && r.value == BucketUpper(i);
      RankBucket(delta, s, rank, i);
      UpperBound(s[rank - 1]);
    }
  }

  lemma TotalIs(delta: seq<nat>, s: seq<nat>)
    requires Tallies(delta, s)
    ensures Total(delta) == |s|
  {
    hide BucketIndex;
    TotalBelow(delta, s, BUCKET_COUNT);
    assert delta[..BUCKET_COUNT] == delta;
    AllCounted(s);
  }

  lemma {:induction false} AllCounted(s: seq<nat>)
    requires forall i :: 0 <= i < |s| ==> s[i] < U64
    ensures CountBelow(s, BUCKET_COUNT) == |s|
  {
    hide BucketIndex;
    if s != [] {
      IndexMonotone(s[|s| - 1], s[|s| - 1]);
      AllCounted(s[..|s| - 1]);
    }
  }

  datatype LatencyStats = LatencyStats(count: nat, p50: Option<nat>, p99: Option<nat>, max: Option<nat>)

  function Ceil(x: real): int { -((-x).Floor) }

  /** The 1-based rank of a quantile: the least number of samples that makes at least `q` of `count`. */
  function Rank(count: nat, q: real): (r: nat)
    requires 0.0 < q <= 1.0 && count > 0
    ensures 0 < r <= count
    ensures (r - 1) as real < count as real * q <= r as real
  {
    var r := Ceil(count as real * q);
    Scaled(count as real, q);
    if r < 1 then 1 else r
  }

  lemma Scaled(x: real, q: real)
    requires x >= 0.0 && 0.0 < q <= 1.0
    ensures x * q <= x && (x > 0.0 ==> x * q > 0.0)
  {
  }

  /** A reported value that bounds a sample from above, within an eighth. */
  predicate Bounds(r: Option<nat>, us: nat) { r.Some? && us <= r.value <= us + us / 8 }

  /** The statistics of a window, from its per-bucket counts. */
  method FromDelta(delta: seq<nat>, ghost s: seq<nat>) returns (stats: LatencyStats)
    requires Rising(s) && Tallies(delta, s)
    ensures stats.count == |s|
    ensures |s| == 0 ==> stats.p50.None? && stats.p99.None? && stats.max.None?
    ensures |s| > 0 ==> Bounds(stats.p50, s[Rank(|s|, 0.5) - 1]) && Bounds(stats.p99, s[Rank(|s|, 0.99) - 1])
    ensures |s| > 0 ==> Bounds(stats.max, s[|s| - 1])
  {
    hide BucketIndex, BucketUpper, Rank;
    var count := Sum(delta);
    TotalIs(delta, s);
    if count == 0 { return LatencyStats(0, None, None, None); }
    var p50 := Percentile(delta, Rank(count, 0.5), s);
    var p99 := Percentile(delta, Rank(count, 0.99), s);
    var last := Highest(delta, s);
    UpperBound(s[|s| - 1]);
    return LatencyStats(count, p50, p99, Some(BucketUpper(last)));
  }

  method Sum(delta: seq<nat>) returns (total: nat)
    ensures total == Total(delta)
  {
    total := 0;
    for i := 0 to |delta|
      invariant total == Total(delta[..i])
    {
      assert delta[..i + 1][..i] == delta[..i];
      total := total + delta[i];
    }
    assert delta[..|delta|] == delta;
  }

  /** The highest occupied bucket is the largest sample's. */
  method Highest(delta: seq<nat>, ghost s: seq<nat>) returns (last: nat)
    requires Rising(s) && Tallies(delta, s) && |s| > 0
    ensures last == BucketIndex(s[|s| - 1])
  {
    hide BucketIndex;
    ghost var top := BucketIndex(s[|s| - 1]);
    IndexMonotone(s[|s| - 1], s[|s| - 1]);
    CountedIn(s, |s| - 1);
    last := BUCKET_COUNT - 1;
    while delta[last] == 0
      invariant top <= last < BUCKET_COUNT
      decreases last
    {
      last := last - 1;
    }
    if last > top { NoneAbove(s, s[|s| - 1], last); }
  }

  lemma {:induction false} CountedIn(s: seq<nat>, k: nat)
    requires k < |s|
    ensures CountIn(s, BucketIndex(s[k])) > 0
  {
    hide BucketIndex;
    if k < |s| - 1 { CountedIn(s[..|s| - 1], k); }
  }

  lemma {:induction false} NoneAbove(s: seq<nat>, top: nat, index: nat)
    requires (forall i :: 0 <= i < |s| ==> s[i] <= top) && top < U64 && index > BucketIndex(top)
    ensures CountIn(s, index) == 0
  {
    hide BucketIndex;
    if s != [] {
      IndexMonotone(s[|s| - 1], top);
      NoneAbove(s[..|s| - 1], top, index);
    }
  }

  // ---- sorting and parting samples ----

  lemma {:induction false} CountConcat(a: seq<nat>, b: seq<nat>, index: nat)
    ensures CountIn(a + b, index) == CountIn(a, index) + CountIn(b, index)
  {
    hide BucketIndex;
    if b == [] {
      assert a + b == a;
    } else {
      assert (a + b)[..|a + b| - 1] == a + b[..|b| - 1];
      CountConcat(a, b[..|b| - 1], index);
    }
  }

  lemma CountOne(us: nat, index: nat)
    ensures CountIn([us], index) == if BucketIndex(us) == index then 1 else 0
  {
    hide BucketIndex;
    assert [us][..0] == [];
  }

  ghost function Inserted(s: seq<nat>, us: nat): seq<nat> {
    if s == [] || s[|s| - 1] <= us then s + [us] else Inserted(s[..|s| - 1], us) + [s[|s| - 1]]
  }

  ghost function InOrder(s: seq<nat>): seq<nat> {
    if s == [] then [] else Inserted(InOrder(s[..|s| - 1]), s[|s| - 1])
  }

  lemma {:induction false} InsertedIs(s: seq<nat>, us: nat)
    requires Rising(s)
    ensures Rising(Inserted(s, us)) && multiset(Inserted(s, us)) == multiset(s) + multiset{us}
    ensures forall k: nat :: CountIn(Inserted(s, us), k) == CountIn(s + [us], k)
  {
    hide BucketIndex, CountIn, Rising;
    if s == [] || s[|s| - 1] <= us {
      RisesTo(s, us);
    } else {
      var front, last := s[..|s| - 1], s[|s| - 1];
      assert s == front + [last];
      RisingFront(s);
      InsertedIs(front, us);
      var t := Inserted(front, us);
      AtMost(t, front, us, last);
      RisesTo(t, last);
      forall k: nat ensures CountIn(t + [last], k) == CountIn(s + [us], k) {
        CountConcat(t, [last], k);
        CountConcat(front, [us], k);
        CountConcat(front, [last], k);
        CountConcat(s, [us], k);
      }
    }
  }

  lemma RisingFront(s: seq<nat>)
    requires Rising(s) && s != []
    ensures var front := s[..|s| - 1];
            Rising(front) && forall i :: 0 <= i < |front| ==> front[i] <= s[|s| - 1]
  {
  }

  lemma RisesTo(s: seq<nat>, us: nat)
    requires Rising(s) && (s == [] || s[|s| - 1] <= us)
    ensures Rising(s + [us])
  {
  }

  lemma AtMost(t: seq<nat>, front: seq<nat>, us: nat, last: nat)
    requires multiset(t) == multiset(front) + multiset{us} && us <= last
    requires forall i :: 0 <= i < |front| ==> front[i] <= last
    ensures forall i :: 0 <= i < |t| ==> t[i] <= last
  {
    forall i | 0 <= i < |t| ensures t[i] <= last {
      assert t[i] in multiset(t);
      assert t[i] in multiset(front) || t[i] == us;
    }
  }

  lemma {:induction false} InOrderIs(s: seq<nat>)
    ensures Rising(InOrder(s)) && multiset(InOrder(s)) == multiset(s)
    ensures forall k: nat :: CountIn(InOrder(s), k) == CountIn(s, k)
  {
    hide BucketIndex, CountIn, Inserted, Rising;
    if s == [] {
      assert Rising([]) by { RisingNone(); }
    } else {
      var front, last := s[..|s| - 1], s[|s| - 1];
      assert s == front + [last];
      InOrderIs(front);
      InsertedIs(InOrder(front), last);
      forall k: nat ensures CountIn(InOrder(s), k) == CountIn(s, k) {
        CountConcat(InOrder(front), [last], k);
        CountConcat(front, [last], k);
      }
    }
  }

  lemma RisingNone()
    ensures Rising([])
  {
  }

  /** The samples of one bucket, and the others. */
  ghost function OfBucket(s: seq<nat>, index: nat): seq<nat> {
    if s == [] then [] else
      OfBucket(s[..|s| - 1], index) + if BucketIndex(s[|s| - 1]) == index then [s[|s| - 1]] else []
  }

  ghost function OffBucket(s: seq<nat>, index: nat): seq<nat> {
    if s == [] then [] else
      OffBucket(s[..|s| - 1], index) + if BucketIndex(s[|s| - 1]) == index then [] else [s[|s| - 1]]
  }

  lemma {:induction false} Parted(s: seq<nat>, index: nat)
    ensures multiset(s) == multiset(OfBucket(s, index)) + multiset(OffBucket(s, index))
    ensures forall v :: v in OffBucket(s, index) ==> BucketIndex(v) != index
    ensures forall v :: v in OfBucket(s, index) ==> BucketIndex(v) == index
  {
    hide BucketIndex;
    if s != [] {
      assert s == s[..|s| - 1] + [s[|s| - 1]];
      Parted(s[..|s| - 1], index);
    }
  }

  lemma {:induction false} PartedCounts(s: seq<nat>, index: nat, k: nat)
    ensures CountIn(OfBucket(s, index), k) == if k == index then CountIn(s, k) else 0
    ensures CountIn(OffBucket(s, index), k) == if k == index then 0 else CountIn(s, k)
  {
    hide BucketIndex, CountIn;
    CountNone(k);
    if s != [] {
      var front, last := s[..|s| - 1], s[|s| - 1];
      assert s == front + [last];
      PartedCounts(front, index, k);
      var one := if BucketIndex(last) == index then [last] else [];
      var none := if BucketIndex(last) == index then [] else [last];
      CountConcat(front, [last], k);
      CountConcat(OfBucket(front, index), one, k);
      CountConcat(OffBucket(front, index), none, k);
      CountOne(last, k);
    }
  }

  lemma CountNone(index: nat)
    ensures CountIn([], index) == 0
  {
  }

  // ---- windows ----

  /** The running counters, and the part of them that closed windows have reported. */
  class LatencyWindow {
    const buckets: array<nat>
    const atOpen: array<nat>
    ghost var samples: seq<nat>      // every sample ever recorded
    ghost var closed: multiset<nat>  // those that closed windows have reported
    ghost var pending: seq<nat>      // and the others

    ghost predicate Valid()
      reads this, buckets, atOpen
    {
      && buckets != atOpen && atOpen.Length == BUCKET_COUNT
      && Tallies(buckets[..], samples)
      && (forall i :: 0 <= i < BUCKET_COUNT ==> atOpen[i] + CountIn(pending, i) == buckets[i])
      && multiset(samples) == closed + multiset(pending)
    }

    constructor ()
      ensures Valid() && samples == [] && closed == multiset{}
      ensures fresh(buckets) && fresh(atOpen)
    {
      buckets := new nat[BUCKET_COUNT](_ => 0);
      atOpen := new nat[BUCKET_COUNT](_ => 0);
      samples := [];
      closed := multiset{};
      pending := [];
    }

    /** One sample: one increment. */
    method Record(us: nat)
      requires Valid() && us < U64
      modifies buckets, this`samples, this`pending
      ensures Valid() && samples == old(samples) + [us] && closed == old(closed)
    {
      hide BucketIndex, CountIn, Tallies;
      IndexMonotone(us, us);
      TallyAt(buckets[..], samples);
      ghost var was := buckets[..];
      var index := BucketIndex(us);
      buckets[index] := buckets[index] + 1;
      Tallied(was, samples, us, buckets[..]);
      forall k: nat ensures CountIn(pending + [us], k) == CountIn(pending, k) + if index == k then 1 else 0 {
        CountConcat(pending, [us], k);
        CountOne(us, k);
      }
      samples := samples + [us];
      pending := pending + [us];
    }

    /** Close the window: load every counter, report what it gained, and open the next window
        there. `arrivals[i]` are the samples other threads record just before counter `i` is
        loaded. The counts reported are those of a list of samples, each reported by no other
        window, and every sample recorded before the call has been reported after it. */
    method Close(arrivals: seq<seq<nat>>) returns (delta: seq<nat>, ghost window: seq<nat>)
      requires Valid() && |arrivals| == BUCKET_COUNT
      requires forall i, j :: 0 <= i < |arrivals| && 0 <= j < |arrivals[i]| ==> arrivals[i][j] < U64
      modifies this`samples, this`closed, this`pending, buckets, atOpen
      ensures Valid() && old(samples) <= samples
      ensures Rising(window) && Tallies(delta, window)
      ensures closed == old(closed) + multiset(window)
      ensures multiset(old(samples)) <= closed <= multiset(samples)
    {
      hide BucketIndex, Tallies, CountIn, OfBucket, OffBucket, Rising, InOrder, Partial, Drained;
      delta := [];
      window := [];
      ghost var first := samples;
      NothingYet(first, closed);
      for i := 0 to BUCKET_COUNT
        invariant Valid() && |delta| == i && first <= samples && closed == old(closed) + multiset(window)
        invariant Partial(delta, window, i)
        invariant Drained(first, closed, i)
      {
        RecordAll(arrivals[i]);
        TallyAt(buckets[..], samples);
        var now := buckets[i];
        delta := delta + [now - atOpen[i]];
        atOpen[i] := now;
        ghost var taken := OfBucket(pending, i);
        Taken(pending, i);
        Gains(delta[..i], delta[i], window, pending, i);
        Drains(first, samples, closed, pending, i);
        window := window + taken;
        closed := closed + multiset(taken);
        pending := OffBucket(pending, i);
      }
      TallyAt(buckets[..], samples);
      Finished(delta, window, samples, closed, pending);
      Everything(first, closed, samples);
      InOrderIs(window);
      SameTally(delta, window, InOrder(window));
      window := InOrder(window);
    }

    method RecordAll(us: seq<nat>)
      requires Valid() && forall i :: 0 <= i < |us| ==> us[i] < U64
      modifies buckets, this`samples, this`pending
      ensures Valid() && samples == old(samples) + us && closed == old(closed)
    {
      hide BucketIndex, Tallies, CountIn;
      assert samples + us[..0] == samples;
      for i := 0 to |us|
        invariant Valid() && samples == old(samples) + us[..i] && closed == old(closed)
        invariant atOpen[..] == old(atOpen[..])
      {
        Record(us[i]);
        assert us[..i + 1] == us[..i] + [us[i]];
      }
      assert us[..|us|] == us;
    }

    /** Close a window and summarise it: the statistics are those of the samples no earlier window
        has reported. */
    method Report(arrivals: seq<seq<nat>>) returns (stats: LatencyStats, ghost s: seq<nat>)
      requires Valid() && |arrivals| == BUCKET_COUNT
      requires forall i, j :: 0 <= i < |arrivals| && 0 <= j < |arrivals[i]| ==> arrivals[i][j] < U64
      modifies this`samples, this`closed, this`pending, buckets, atOpen
      ensures Valid() && Rising(s) && closed == old(closed) + multiset(s)
      ensures multiset(old(samples)) <= closed <= multiset(samples)
      ensures stats.count == |s|
      ensures |s| == 0 ==> stats.p50.None? && stats.p99.None? && stats.max.None?
      ensures |s| > 0 ==> Bounds(stats.p50, s[Rank(|s|, 0.5) - 1]) && Bounds(stats.p99, s[Rank(|s|, 0.99) - 1])
      ensures |s| > 0 ==> Bounds(stats.max, s[|s| - 1])
    {
      hide BucketIndex, Tallies, CountIn, Rising, Rank, Bounds;
      var delta, window := Close(arrivals);
      s := window;
      stats := FromDelta(delta, s);
    }
  }

  /** The counters loaded so far count the samples taken so far. */
  ghost predicate Partial(delta: seq<nat>, window: seq<nat>, i: nat) {
    && |delta| == i
    && (forall k :: 0 <= k < i ==> delta[k] == CountIn(window, k))
    && forall k: nat :: k >= i ==> CountIn(window, k) == 0
  }

  /** Every sample of the buckets loaded so far has been reported. */
  ghost predicate Drained(first: seq<nat>, closed: multiset<nat>, i: nat) {
    forall v :: v in first && BucketIndex(v) < i ==> multiset(first)[v] <= closed[v]
  }

  lemma NothingYet(first: seq<nat>, closed: multiset<nat>)
    ensures Partial([], [], 0) && Drained(first, closed, 0)
  {
  }

  lemma Taken(pending: seq<nat>, i: nat)
    ensures multiset(pending) == multiset(OfBucket(pending, i)) + multiset(OffBucket(pending, i))
    ensures forall k: nat :: CountIn(OffBucket(pending, i), k) == if k == i then 0 else CountIn(pending, k)
  {
    hide CountIn, OfBucket, OffBucket, BucketIndex;
    Parted(pending, i);
    forall k: nat ensures CountIn(OffBucket(pending, i), k) == if k == i then 0 else CountIn(pending, k) {
      PartedCounts(pending, i, k);
    }
  }

  lemma Gains(delta: seq<nat>, gained: nat, window: seq<nat>, pending: seq<nat>, i: nat)
    requires Partial(delta, window, i) && gained == CountIn(pending, i)
    ensures Partial(delta + [gained], window + OfBucket(pending, i), i + 1)
  {
    hide CountIn, OfBucket;
    var taken := OfBucket(pending, i);
    forall k: nat ensures CountIn(window + taken, k) == CountIn(window, k) + if k == i then gained else 0 {
      PartedCounts(pending, i, k);
      CountConcat(window, taken, k);
    }
  }

  lemma Drains(first: seq<nat>, samples: seq<nat>, closed: multiset<nat>, pending: seq<nat>, i: nat)
    requires Drained(first, closed, i) && first <= samples && multiset(samples) == closed + multiset(pending)
    ensures Drained(first, closed + multiset(OfBucket(pending, i)), i + 1)
  {
    hide BucketIndex, OfBucket, OffBucket;
    var taken, rest := OfBucket(pending, i), OffBucket(pending, i);
    Parted(pending, i);
    var more := samples[|first|..];
    assert samples == first + more;
    assert multiset(samples) == multiset(first) + multiset(more);
    forall v | v in first && BucketIndex(v) < i + 1 ensures multiset(first)[v] <= (closed + multiset(taken))[v] {
      assert multiset(first)[v] <= multiset(samples)[v] == closed[v] + multiset(taken)[v] + multiset(rest)[v];
      if BucketIndex(v) == i {
        assert v !in rest && multiset(rest)[v] == 0;
      } else {
        assert multiset(first)[v] <= closed[v];
      }
    }
  }

  lemma Finished(delta: seq<nat>, window: seq<nat>, samples: seq<nat>, closed: multiset<nat>, pending: seq<nat>)
    requires Partial(delta, window, BUCKET_COUNT) && multiset(samples) == closed + multiset(pending)
    requires multiset(window) <= closed && forall i :: 0 <= i < |samples| ==> samples[i] < U64
    ensures Tallies(delta, window) && closed <= multiset(samples)
  {
    forall i | 0 <= i < |window| ensures window[i] < U64 {
      assert window[i] in multiset(window);
      assert window[i] in multiset(samples);
    }
  }

  lemma Everything(first: seq<nat>, closed: multiset<nat>, samples: seq<nat>)
    requires Drained(first, closed, BUCKET_COUNT) && first <= samples
    requires forall i :: 0 <= i < |samples| ==> samples[i] < U64
    ensures multiset(first) <= closed
  {
    hide BucketIndex;
    forall v | v in multiset(first) ensures multiset(first)[v] <= closed[v] {
      assert v in samples;
      IndexMonotone(v, v);
    }
  }

  lemma SameTally(delta: seq<nat>, a: seq<nat>, b: seq<nat>)
    requires Tallies(delta, a) && multiset(a) == multiset(b) && forall k: nat :: CountIn(a, k) == CountIn(b, k)
    ensures Tallies(delta, b)
  {
    hide CountIn;
    forall i | 0 <= i < |b| ensures b[i] < U64 {
      assert b[i] in multiset(a);
    }
  }

  lemma Tallied(was: seq<nat>, samples: seq<nat>, us: nat, now: seq<nat>)
    requires Tallies(was, samples) && us < U64 && BucketIndex(us) < BUCKET_COUNT
    requires now == was[BucketIndex(us) := was[BucketIndex(us)] + 1]
    ensures Tallies(now, samples + [us])
  {
    hide BucketIndex;
    assert (samples + [us])[..|samples|] == samples;
  }

  lemma TallyAt(delta: seq<nat>, samples: seq<nat>)
    requires Tallies(delta, samples)
    ensures |delta| == BUCKET_COUNT && forall i :: 0 <= i < |samples| ==> samples[i] < U64
    ensures forall i :: 0 <= i < BUCKET_COUNT ==> delta[i] == CountIn(samples, i)
  {
  }
}
