/** Reading quantiles and snapshots from one histogram and from shards: what is returned, in
    terms of the samples of the window. */
module LatencyReads {
  import opened Arith
  import opened Latency
  import opened LatencyShards
  import opened LatencyQuantile

  function Clamp(q: real): real { if q < 0.0 then 0.0 else if q > 1.0 then 1.0 else q }

  /** r is the q-quantile that the rule gives for a summary. */
  ghost predicate IsQuantile(bs: seq<int>, s: Summary, q: real, r: int)
    requires |s.counts| == |bs|
  {
    if s.total == 0 then r == 0
    else exists i: nat :: i < |bs| && ValueAt(bs, s.counts, i, Target(s.total, Clamp(q)), r)
  }

  /** t is the least rank with a share of at least q of n samples at or below it: the first for
      q <= 0, the last for q >= 1. */
  ghost predicate IsRank(n: nat, q: real, t: int)
  {
    if q <= 0.0 then t == 1
    else if q >= 1.0 then t == n
    else (t - 1) as real < q * n as real <= t as real
  }

  /** r lies within the bounds of the bucket that holds the sample of rank q in the order of the
      samples; without samples it is 0. */
  ghost predicate NearRank(bs: seq<int>, vs: seq<nat>, q: real, r: int)
    requires bs != []
  {
    if vs == [] then r == 0
    else forall sorted: seq<nat>, t: int ::
      Sorted(sorted) && multiset(sorted) == multiset(vs) && IsRank(|vs|, q, t) ==> AtRank(bs, sorted, t, r)
  }

  /** The rank that the rule asks for is the one of q. */
  lemma TargetIs(n: nat, q: real, t: int)
    requires n > 0
    ensures IsRank(n, q, Target(n, Clamp(q)))
    ensures IsRank(n, q, t) ==> t == Target(n, Clamp(q))
  {
    if q <= 0.0 {
      TargetLow(n, q);
    } else if q >= 1.0 {
      TargetHigh(n, q);
    } else {
      ShareOf(q, n as real);
    }
  }

  lemma ShareOf(q: real, n: real)
    requires 0.0 < q < 1.0 && n > 0.0
    ensures 0.0 < q * n < n
  {
  }

  ghost predicate AtRank(bs: seq<int>, sorted: seq<nat>, t: int, r: int)
    requires bs != []
  {
    1 <= t <= |sorted| && var k := BucketIndex(bs, sorted[t - 1]); LowerBound(bs, k) <= r <= bs[k]
  }

  // ----- From the rule to the samples -----

  lemma {:induction false} CountsTotal(bs: seq<int>, vs: seq<nat>, counts: seq<nat>)
    requires bs != [] && |counts| == |bs| && forall j :: 0 <= j < |bs| ==> counts[j] == InBucket(bs, vs, j)
    ensures Below(counts, |bs|) == |vs|
  {
    if vs == [] {
      BelowZero(counts, |bs|);
    } else {
      var b := BucketIndex(bs, vs[|vs| - 1]);
      InitCounts(bs, vs, counts, b);
      CountsTotal(bs, vs[..|vs| - 1], Without(counts, b));
      BelowWithout(counts, b, |bs|);
    }
  }

  /** Only one value is the quantile of a summary. */
  lemma QuantileUnique(bs: seq<int>, s: Summary, q: real, r: int, r': int)
    requires |s.counts| == |bs| && IsQuantile(bs, s, q, r) && IsQuantile(bs, s, q, r')
    ensures r == r'
  {
    if s.total > 0 {
      var t := Target(s.total, Clamp(q));
      var i: nat :| i < |bs| && ValueAt(bs, s.counts, i, t, r);
      var j: nat :| j < |bs| && ValueAt(bs, s.counts, j, t, r');
      HoldsUnique(s.counts, i, j, t);
    }
  }

  lemma QuantileNearRank(bs: seq<int>, s: Summary, vs: seq<nat>, q: real, r: int)
    requires ValidBounds(bs) && Describes(bs, s, vs) && IsQuantile(bs, s, q, r)
    ensures NearRank(bs, vs, q, r)
  {
    if vs != [] {
      var t := Target(s.total, Clamp(q));
      var i: nat :| i < |bs| && ValueAt(bs, s.counts, i, t, r);
      forall sorted: seq<nat>, u: int | Sorted(sorted) && multiset(sorted) == multiset(vs) && IsRank(|vs|, q, u)
        ensures AtRank(bs, sorted, u, r)
      {
        TargetIs(|vs|, q, u);
        QuantileInBucket(bs, s, vs, sorted, Clamp(q), i, r);
      }
    }
  }

  /** The figures of two disjoint sets of samples merge into the figures of both. */
  lemma MergeDescribes(bs: seq<int>, a: Summary, va: seq<nat>, b: Summary, vb: seq<nat>)
    requires bs != [] && Describes(bs, a, va) && Describes(bs, b, vb)
    ensures Describes(bs, Merge(a, b), va + vb)
  {
    SumConcat(va, vb);
    forall j | 0 <= j < |bs|
      ensures Merge(a, b).counts[j] == InBucket(bs, va + vb, j)
    {
      InBucketConcat(bs, va, vb, j);
    }
    assert forall v :: v in va + vb <==> v in va || v in vb;
  }

  lemma {:induction false} SumConcat(a: seq<nat>, b: seq<nat>)
    ensures Sum(a + b) == Sum(a) + Sum(b)
  {
    if b == [] {
      assert a + b == a;
    } else {
      SumConcat(a, b[..|b| - 1]);
      assert a + b == (a + b[..|b| - 1]) + [b[|b| - 1]];
      SumSnoc(a + b[..|b| - 1], b[|b| - 1]);
    }
  }

  lemma {:induction false} InBucketConcat(bs: seq<int>, a: seq<nat>, b: seq<nat>, j: nat)
    requires bs != []
    ensures InBucket(bs, a + b, j) == InBucket(bs, a, j) + InBucket(bs, b, j)
  {
    if b == [] {
      assert a + b == a;
    } else {
      var init, v := b[..|b| - 1], b[|b| - 1];
      assert b == init + [v] && a + b == (a + init) + [v];
      InBucketConcat(bs, a, init, j);
      InBucketSnoc(bs, a + init, v, j);
      InBucketSnoc(bs, init, v, j);
    }
  }

  /** The samples that histograms in these states have in their windows at now. */
  ghost function AllValues(n: nat, views: seq<Abs>, now: nat): seq<nat>
    requires n > 0
  {
    if views == [] then []
    else
      var v := views[|views| - 1];
      AllValues(n, views[..|views| - 1], now) + Values(v.log, Window(Max(v.base, now), n))
  }

  lemma {:induction false} ShardsDescribe(bs: seq<int>, n: nat, views: seq<Abs>, now: nat)
    requires bs != [] && n > 0
    ensures Describes(bs, MergeCells(|bs|, ShownAll(bs, n, views, now)), AllValues(n, views, now))
  {
    var parts := ShownAll(bs, n, views, now);
    if views != [] {
      var k := |views| - 1;
      ShardsDescribe(bs, n, views[..k], now);
      assert parts[..k] == ShownAll(bs, n, views[..k], now);
      SummaryDescribes(bs, views[k].log, Window(Max(views[k].base, now), n));
      MergeNext(|bs|, parts, k);
      assert parts[..k + 1] == parts;
      MergeDescribes(bs, MergeCells(|bs|, parts[..k]), AllValues(n, views[..k], now), parts[k],
                     Values(views[k].log, Window(Max(views[k].base, now), n)));
    }
  }

  // ----- The reads -----

  method FromMerged(bs: seq<int>, s: Summary, q: real, ghost vs: seq<nat>) returns (r: int)
    requires ValidBounds(bs) && Describes(bs, s, vs)
    ensures IsQuantile(bs, s, q, r) && NearRank(bs, vs, q, r)
  {
    CountsTotal(bs, vs, s.counts);
    r := QuantileFromMerged(bs, s.counts, s.total, Clamp(q));
    QuantileNearRank(bs, s, vs, q, r);
  }

  /** The fold that every read starts with, into a buffer of zeros. */
  method Fold(h: Histogram, sec: nat) returns (s: Summary)
    requires h.Valid()
    modifies h, h.buckets
    ensures h.Valid() && h.base == Max(old(h.base), sec) && h.log == old(h.log)
    ensures s == Summarize(h.boundaries, h.log, Window(h.base, h.windowSec))
  {
    var merged := new nat[|h.boundaries|](_ => 0);
    var total, sum, min, max, hasMin := h.FoldLocked(sec, merged);
    assert merged[..] == h.InWindow().counts;
    s := Summary(merged[..], total, sum, min, max);
  }

  /** Histogram.Quantile: of the samples in the window that ends at the reading. */
  method Quantile(h: Histogram, q: real, sec: nat) returns (r: int)
    requires h.Valid()
    modifies h, h.buckets
    ensures h.Valid() && h.base == Max(old(h.base), sec) && h.log == old(h.log)
    ensures IsQuantile(h.boundaries, Summarize(h.boundaries, h.log, Window(h.base, h.windowSec)), q, r)
    ensures NearRank(h.boundaries, Values(h.log, Window(h.base, h.windowSec)), q, r)
  {
    var s := Fold(h, sec);
    SummaryDescribes(h.boundaries, h.log, Window(h.base, h.windowSec));
    r := FromMerged(h.boundaries, s, q, Values(h.log, Window(h.base, h.windowSec)));
  }

  /** What all shards show at sec, merged. */
  ghost function ShardSummary(bs: seq<int>, n: nat, views: seq<Abs>, sec: nat): (s: Summary)
    requires bs != [] && n > 0
    ensures |s.counts| == |bs|
  {
    MergeCells(|bs|, ShownAll(bs, n, views, sec))
  }

  lemma FiguresFromZero(bs: seq<int>, n: nat, views: seq<Abs>, sec: nat, start: seq<nat>, out: seq<nat>,
                        total: nat, sum: nat, min: nat, max: nat, hasMin: bool)
    requires bs != [] && n > 0 && |start| == |bs| && forall j :: 0 <= j < |bs| ==> start[j] == 0
    requires Figures(|bs|, ShownAll(bs, n, views, sec), start, out, total, sum, min, max, hasMin)
    ensures ShardSummary(bs, n, views, sec) == Summary(out, total, sum, min, max) && hasMin == (total > 0)
  {
    assert out == ShardSummary(bs, n, views, sec).counts;
  }

  method FoldShards(h: ShardHistogram, sec: nat) returns (s: Summary)
    requires h.Valid()
    modifies h.shards, set x | x in h.shards :: x.buckets
    ensures h.Valid() && h.Rolled(|h.shards|, sec, old(h.Views())) && ValidBounds(h.boundaries)
    ensures s == ShardSummary(h.boundaries, h.windowSec, old(h.Views()), sec)
  {
    ghost var views := h.Views();
    assert ValidBounds(h.boundaries) by {
      assert h.shards[0].Valid();
    }
    var merged := new nat[|h.boundaries|](_ => 0);
    ghost var zeros := merged[..];
    assert h.Valid() && h.Views() == views;
    var total, sum, min, max, hasMin := h.FoldAll(sec, merged);
    FiguresFromZero(h.boundaries, h.windowSec, views, sec, zeros, merged[..], total, sum, min, max, hasMin);
    s := Summary(merged[..], total, sum, min, max);
  }

  /** ShardHistogram.Quantile: of the samples in the windows of all shards. */
  method ShardQuantile(h: ShardHistogram, q: real, sec: nat) returns (r: int)
    requires h.Valid()
    modifies h.shards, set x | x in h.shards :: x.buckets
    ensures h.Valid() && h.Rolled(|h.shards|, sec, old(h.Views()))
    ensures IsQuantile(h.boundaries, ShardSummary(h.boundaries, h.windowSec, old(h.Views()), sec), q, r)
    ensures NearRank(h.boundaries, AllValues(h.windowSec, old(h.Views()), sec), q, r)
  {
    ghost var views := h.Views();
    var s := FoldShards(h, sec);
    ShardsDescribe(h.boundaries, h.windowSec, views, sec);
    r := FromMerged(h.boundaries, s, q, AllValues(h.windowSec, views, sec));
  }

  // ----- Snapshots -----

  datatype Stats = Stats(count: nat, min: nat, max: nat, mean: nat, p50: int, p90: int, p99: int, p999: int)

  /** st reports the samples vs, which the summary s describes; without samples it is all zero. */
  ghost predicate Reports(bs: seq<int>, s: Summary, vs: seq<nat>, st: Stats)
    requires |s.counts| == |bs| > 0
  {
    && st.count == |vs| && Spans(vs, st.min, st.max)
    && st.mean == (if vs == [] then 0 else Sum(vs) / |vs|)
    && Percentile(bs, s, vs, 0.5, st.p50) && Percentile(bs, s, vs, 0.9, st.p90)
    && Percentile(bs, s, vs, 0.99, st.p99) && Percentile(bs, s, vs, 0.999, st.p999)
  }

  ghost predicate Spans(vs: seq<nat>, min: nat, max: nat)
  {
    if vs == [] then min == 0 == max
    else min in vs && max in vs && forall v :: v in vs ==> min <= v <= max
  }

  ghost predicate Percentile(bs: seq<int>, s: Summary, vs: seq<nat>, q: real, r: int)
    requires |s.counts| == |bs| > 0
  {
    IsQuantile(bs, s, q, r) && NearRank(bs, vs, q, r)
  }

  method Report(bs: seq<int>, s: Summary, ghost vs: seq<nat>) returns (st: Stats)
    requires ValidBounds(bs) && Describes(bs, s, vs)
    ensures Reports(bs, s, vs, st)
  {
    var mean := Mean(s.sum, s.total, vs);
    var p50 := FromMerged(bs, s, 0.5, vs);
    var p90 := FromMerged(bs, s, 0.9, vs);
    var p99 := FromMerged(bs, s, 0.99, vs);
    var p999 := FromMerged(bs, s, 0.999, vs);
    st := Stats(s.total, s.min, s.max, mean, p50, p90, p99, p999);
  }

  method Mean(sum: nat, total: nat, ghost vs: seq<nat>) returns (mean: nat)
    requires sum == Sum(vs) && total == |vs|
    ensures mean == if total == 0 then 0 else sum / total
  {
    mean := 0;
    if sum > 0 {
      HasSamples(vs);
      mean := sum / total;
    } else if total > 0 {
      DivModUnique(0, 0, 0, total);
    }
  }

  lemma HasSamples(vs: seq<nat>)
    requires Sum(vs) > 0
    ensures vs != []
  {
  }

  method Snapshot(h: Histogram, sec: nat) returns (st: Stats)
    requires h.Valid()
    modifies h, h.buckets
    ensures h.Valid() && h.base == Max(old(h.base), sec) && h.log == old(h.log)
    ensures var r := Window(h.base, h.windowSec);
      Reports(h.boundaries, Summarize(h.boundaries, h.log, r), Values(h.log, r), st)
  {
    var s := Fold(h, sec);
    SummaryDescribes(h.boundaries, h.log, Window(h.base, h.windowSec));
    st := Report(h.boundaries, s, Values(h.log, Window(h.base, h.windowSec)));
  }

  method ShardSnapshot(h: ShardHistogram, sec: nat) returns (st: Stats)
    requires h.Valid()
    modifies h.shards, set x | x in h.shards :: x.buckets
    ensures h.Valid() && h.Rolled(|h.shards|, sec, old(h.Views()))
    ensures Reports(h.boundaries, ShardSummary(h.boundaries, h.windowSec, old(h.Views()), sec),
                    AllValues(h.windowSec, old(h.Views()), sec), st)
  {
    ghost var views := h.Views();
    var s := FoldShards(h, sec);
    ShardsDescribe(h.boundaries, h.windowSec, views, sec);
    st := Report(h.boundaries, s, AllValues(h.windowSec, views, sec));
  }

  /** With a clock that does not go back the shards give the quantile that a single histogram
      fed all samples gives, for every q, however the samples were spread. */
  lemma QuantilesAgree(bs: seq<int>, n: nat, starts: seq<nat>, start: nat, ops: seq<Op>,
      now: nat, q: real, sharded: int, single: int)
    requires ValidBounds(bs) && n > 0
    requires Forward(start, ops, now) && forall i :: 0 <= i < |starts| ==> Forward(starts[i], ops, now)
    requires forall k :: 0 <= k < |ops| && ops[k].Take? ==> ops[k].shard < |starts|
    requires IsQuantile(bs, ShardSummary(bs, n, ShardStates(starts, ops), now), q, sharded)
    requires IsQuantile(bs, Shown(bs, n, Whole(start, ops), now), q, single)
    ensures sharded == single && NearRank(bs, Values(Samples(ops), Window(now, n)), q, single)
  {
    ShardsAgree(bs, n, starts, start, ops, now);
    QuantileUnique(bs, Shown(bs, n, Whole(start, ops), now), q, sharded, single);
    SummaryDescribes(bs, Samples(ops), Window(now, n));
    QuantileNearRank(bs, Summarize(bs, Samples(ops), Window(now, n)), Values(Samples(ops), Window(now, n)), q, single);
  }

  /** A higher q never gives a lower quantile, clamped or not, with samples or without. */
  lemma QuantilesMonotone(bs: seq<int>, s: Summary, p: real, q: real, r: int, r': int)
    requires ValidBounds(bs) && |s.counts| == |bs| && p <= q && IsQuantile(bs, s, p, r) && IsQuantile(bs, s, q, r')
    ensures r <= r'
  {
    if s.total > 0 {
      var i: nat :| i < |bs| && ValueAt(bs, s.counts, i, Target(s.total, Clamp(p)), r);
      var j: nat :| j < |bs| && ValueAt(bs, s.counts, j, Target(s.total, Clamp(q)), r');
      QuantileMonotone(bs, s.counts, s.total, Clamp(p), Clamp(q), i, j, r, r');
    }
  }

  /** The exact value: of the c samples in the bucket k that holds the sample of rank t, it is the
      middle of the step that this sample has when the bucket is cut into c equal steps. */
  lemma QuantileValue(bs: seq<int>, s: Summary, q: real, t: int, k: nat, r: int)
    requires ValidBounds(bs) && |s.counts| == |bs| && s.total > 0 && IsQuantile(bs, s, q, r)
    requires IsRank(s.total, q, t) && Holds(s.counts, k, t)
    ensures Below(s.counts, k) < t <= Below(s.counts, k) + s.counts[k]
    ensures r == Middle(LowerBound(bs, k), bs[k], t - Below(s.counts, k), s.counts[k])
  {
    QuantileAt(bs, s, q, t, k, r);
    ValueIsMiddle(bs, s.counts, k, t, r);
  }

  lemma QuantileAt(bs: seq<int>, s: Summary, q: real, t: int, k: nat, r: int)
    requires |s.counts| == |bs| && s.total > 0 && IsQuantile(bs, s, q, r)
    requires IsRank(s.total, q, t) && Holds(s.counts, k, t)
    ensures ValueAt(bs, s.counts, k, t, r)
  {
    TargetIs(s.total, q, t);
    var i: nat :| i < |bs| && ValueAt(bs, s.counts, i, t, r);
    HoldsUnique(s.counts, i, k, t);
  }

  lemma ValueIsMiddle(bs: seq<int>, counts: seq<nat>, k: nat, t: int, r: int)
    requires ValidBounds(bs) && |counts| == |bs| && ValueAt(bs, counts, k, t, r)
    ensures Below(counts, k) < t <= Below(counts, k) + counts[k]
    ensures r == Middle(LowerBound(bs, k), bs[k], t - Below(counts, k), counts[k])
  {
    InterpolateIs(LowerBound(bs, k), bs[k], t - Below(counts, k), counts[k]);
  }

  // ----- The ends of the range -----

  /** The first and the last bucket that holds a sample. */
  ghost predicate FirstUsed(counts: seq<nat>, i: nat)
  {
    i < |counts| && counts[i] > 0 && forall j :: 0 <= j < i ==> counts[j] == 0
  }

  ghost predicate LastUsed(counts: seq<nat>, i: nat)
  {
    i < |counts| && counts[i] > 0 && forall j :: i < j < |counts| ==> counts[j] == 0
  }

  lemma {:induction false} BelowNone(counts: seq<nat>, i: nat)
    requires i <= |counts| && forall j :: 0 <= j < i ==> counts[j] == 0
    ensures Below(counts, i) == 0
  {
    if i > 0 {
      BelowNone(counts, i - 1);
    }
  }

  lemma {:induction false} BelowAll(counts: seq<nat>, i: nat, k: nat)
    requires i <= k <= |counts| && forall j :: i <= j < |counts| ==> counts[j] == 0
    ensures Below(counts, k) == Below(counts, i)
    decreases k
  {
    if i < k {
      BelowAll(counts, i, k - 1);
    }
  }

  lemma FloorDiv(d: nat, m: nat)
    requires m > 0
    ensures (d as real / m as real).Floor == d / m
  {
    var k, r := d / m, d % m;
    assert d == k * m + r;
    assert d as real == k as real * m as real + r as real;
    var x := r as real / m as real;
    assert x * m as real == r as real;
    assert 0.0 <= x < 1.0;
    assert d as real / m as real == k as real + x;
  }

  /** The middle of the pos-th of c equal steps from lo to hi, in whole numbers. */
  function Middle(lo: int, hi: int, pos: int, c: nat): int
    requires c > 0
  {
    lo + (hi - lo) * (2 * pos - 1) / (2 * c)
  }

  lemma InterpolateIs(lo: int, hi: int, pos: int, c: nat)
    requires lo <= hi && 1 <= pos <= c
    ensures Interpolate(lo, hi, pos, c) == Middle(lo, hi, pos, c)
  {
    var d, k := hi - lo, 2 * pos - 1;
    MiddleStep(d as real, pos as real, c as real, k as real);
    RealTimes(d, k);
    FloorDiv(d * k, 2 * c);
  }

  lemma RealTimes(d: nat, k: nat)
    ensures d * k >= 0 && (d * k) as real == d as real * k as real
  {
  }

  lemma MiddleStep(d: real, pos: real, c: real, k: real)
    requires c > 0.0 && k == 2.0 * pos - 1.0
    ensures d * ((pos - 0.5) / c) == d * k / (2.0 * c)
  {
    var x := (pos - 0.5) / c;
    assert x * c == pos - 0.5;
    SameQuotient(d, x, c, k);
  }

  lemma SameQuotient(d: real, x: real, c: real, k: real)
    requires c > 0.0 && 2.0 * (x * c) == k
    ensures d * x == d * k / (2.0 * c)
  {
    assert d * x * (2.0 * c) == d * (2.0 * (x * c));
  }

  /** For q <= 0 the value is one half-step into the first used bucket, so it is the minimum if
      and only if the minimum lies just there. */
  lemma MinimumIff(bs: seq<int>, s: Summary, vs: seq<nat>, q: real, r: int, i: nat)
    requires ValidBounds(bs) && Describes(bs, s, vs) && vs != [] && q <= 0.0 && IsQuantile(bs, s, q, r)
    requires FirstUsed(s.counts, i)
    ensures r == s.min <==> s.min - LowerBound(bs, i) == (bs[i] - LowerBound(bs, i)) / (2 * s.counts[i])
  {
    var lo, hi, c := LowerBound(bs, i), bs[i], s.counts[i];
    TargetLow(s.total, q);
    BelowNone(s.counts, i);
    InterpolateIs(lo, hi, 1, c);
    assert ValueAt(bs, s.counts, i, 1, Interpolate(lo, hi, 1, c));
    QuantileUnique(bs, s, q, r, Interpolate(lo, hi, 1, c));
  }

  lemma TargetLow(total: nat, q: real)
    requires total > 0 && q <= 0.0
    ensures Target(total, Clamp(q)) == 1
  {
    assert Clamp(q) * total as real == 0.0;
  }

  /** For q >= 1 the value is one half-step before the end of the last used bucket, so it is the
      maximum if and only if the maximum lies just there. */
  lemma MaximumIff(bs: seq<int>, s: Summary, vs: seq<nat>, q: real, r: int, i: nat)
    requires ValidBounds(bs) && Describes(bs, s, vs) && vs != [] && q >= 1.0 && IsQuantile(bs, s, q, r)
    requires LastUsed(s.counts, i)
    ensures r == s.max <==>
      s.max - LowerBound(bs, i) == (bs[i] - LowerBound(bs, i)) * (2 * s.counts[i] - 1) / (2 * s.counts[i])
  {
    var lo, hi, c := LowerBound(bs, i), bs[i], s.counts[i];
    TargetHigh(s.total, q);
    CountsTotal(bs, vs, s.counts);
    BelowAll(s.counts, i + 1, |bs|);
    InterpolateIs(lo, hi, c, c);
    assert ValueAt(bs, s.counts, i, s.total, Interpolate(lo, hi, c, c));
    QuantileUnique(bs, s, q, r, Interpolate(lo, hi, c, c));
  }

  lemma TargetHigh(total: nat, q: real)
    requires total > 0 && q >= 1.0
    ensures Target(total, Clamp(q)) == total
  {
    assert Clamp(q) * total as real == total as real;
  }

  /** One sample of 100 in the bucket up to 1000: both ends of the range give 500. */
  lemma EndsAreNotExtremes(bs: seq<int>, log: seq<Sample>, q: real, r: int)
    requires bs == [1000] && log == [Sample(0, 0, 100)] && (q <= 0.0 || q >= 1.0)
    requires IsQuantile(bs, Summarize(bs, log, Window(0, 1)), q, r)
    ensures var s := Summarize(bs, log, Window(0, 1)); s.total == 1 && s.min == s.max == 100 && r == 500
  {
    var s := Summarize(bs, log, Window(0, 1));
    OneSample(bs, log);
    if q <= 0.0 {
      TargetLow(1, q);
    } else {
      TargetHigh(1, q);
    }
    InterpolateIs(0, 1000, 1, 1);
    assert Below(s.counts, 0) == 0 && Below(s.counts, 1) == 1;
    assert ValueAt(bs, s.counts, 0, 1, 500);
    QuantileUnique(bs, s, q, r, 500);
  }

  lemma OneSample(bs: seq<int>, log: seq<Sample>)
    requires bs == [1000] && log == [Sample(0, 0, 100)]
    ensures Summarize(bs, log, Window(0, 1)) == Summary([1], 1, 100, 100, 100)
  {
    var e, r, one := Sample(0, 0, 100), Window(0, 1), Single(bs, 100);
    SummarizeSnoc(bs, [], e, r);
    assert [] + [e] == log;
    NowIn(e, r);
    FirstBucket(bs);
    MergeLaws(one, Zero(1), Zero(1), 1);
  }

  lemma NowIn(e: Sample, r: Region)
    requires e == Sample(0, 0, 100) && r == Window(0, 1)
    ensures In(e, r)
  {
  }

  lemma FirstBucket(bs: seq<int>)
    requires bs == [1000]
    ensures Single(bs, 100) == Summary([1], 1, 100, 100, 100)
  {
    assert BucketIndex(bs, 100) == 0;
    assert seq(|bs|, _ => 0)[0 := 1] == [1];
  }
}
