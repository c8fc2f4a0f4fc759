/** The quantile rule of the histogram against the order statistics of the samples. */
module LatencyQuantile {
  import opened Latency

  // ----- What the figures of a summary say about the samples -----

  function Values(log: seq<Sample>, r: Region): seq<nat>
    requires r.n > 0
  {
    if log == [] then []
    else Values(log[..|log| - 1], r) + if In(log[|log| - 1], r) then [log[|log| - 1].ns] else []
  }

  /** How many of vs fall in bucket j. */
  function InBucket(bs: seq<int>, vs: seq<nat>, j: nat): nat
    requires bs != []
  {
    if vs == [] then 0
    else InBucket(bs, vs[..|vs| - 1], j) + if BucketIndex(bs, vs[|vs| - 1]) == j then 1 else 0
  }

  function Sum(vs: seq<nat>): nat
  {
    if vs == [] then 0 else Sum(vs[..|vs| - 1]) + vs[|vs| - 1]
  }

  ghost predicate Describes(bs: seq<int>, s: Summary, vs: seq<nat>)
    requires bs != []
  {
    && |s.counts| == |bs| && s.total == |vs| && s.sum == Sum(vs)
    && (forall j :: 0 <= j < |bs| ==> s.counts[j] == InBucket(bs, vs, j))
    && (forall k :: 0 <= k < |vs| ==> s.min <= vs[k] <= s.max)
    && (vs != [] ==> s.min in vs && s.max in vs)
    && (vs == [] ==> s.min == 0 == s.max)
  }

  /** Count, sum, min, max and bucket counts of a summary are those of its samples. */
  lemma {:induction false} SummaryDescribes(bs: seq<int>, log: seq<Sample>, r: Region)
    requires bs != [] && r.n > 0
    ensures Describes(bs, Summarize(bs, log, r), Values(log, r))
  {
    if log != [] {
      var init, e := log[..|log| - 1], log[|log| - 1];
      SummaryDescribes(bs, init, r);
      MergeLaws(Summarize(bs, init, r), Zero(|bs|), Zero(|bs|), |bs|);
      if In(e, r) {
        OneMore(bs, Summarize(bs, init, r), Values(init, r), e.ns);
      } else {
        assert Values(log, r) == Values(init, r);
      }
    }
  }

  lemma InBucketSnoc(bs: seq<int>, vs: seq<nat>, v: nat, j: nat)
    requires bs != []
    ensures InBucket(bs, vs + [v], j) == InBucket(bs, vs, j) + if BucketIndex(bs, v) == j then 1 else 0
  {
    assert (vs + [v])[..|vs|] == vs;
  }

  lemma SumSnoc(vs: seq<nat>, v: nat)
    ensures Sum(vs + [v]) == Sum(vs) + v
  {
    assert (vs + [v])[..|vs|] == vs;
  }

  lemma OneMore(bs: seq<int>, s: Summary, vs: seq<nat>, v: nat)
    requires bs != [] && Describes(bs, s, vs)
    ensures Describes(bs, Merge(s, Single(bs, v)), vs + [v])
  {
    var s' := Merge(s, Single(bs, v));
    SumSnoc(vs, v);
    forall j | 0 <= j < |bs| ensures s'.counts[j] == InBucket(bs, vs + [v], j) {
      InBucketSnoc(bs, vs, v, j);
    }
    Extremes(s.min, s.max, s'.min, s'.max, vs, v);
  }

  lemma Extremes(min: nat, max: nat, min': nat, max': nat, vs: seq<nat>, v: nat)
    requires forall k :: 0 <= k < |vs| ==> min <= vs[k] <= max
    requires vs != [] ==> min in vs && max in vs
    requires vs == [] ==> min' == v == max'
    requires vs != [] ==> min' == (if min < v then min else v) && max' == if max < v then v else max
    ensures forall k :: 0 <= k < |vs + [v]| ==> min' <= (vs + [v])[k] <= max'
    ensures min' in vs + [v] && max' in vs + [v]
  {
  }

  // ----- Ranks -----

  function Below(counts: seq<nat>, i: nat): nat
    requires i <= |counts|
  {
    if i == 0 then 0 else Below(counts, i - 1) + counts[i - 1]
  }

  lemma {:induction false} BelowGrows(counts: seq<nat>, i: nat, j: nat)
    requires i <= j <= |counts|
    ensures Below(counts, i) <= Below(counts, j)
    decreases j
  {
    if i < j {
      BelowGrows(counts, i, j - 1);
    }
  }

  /** The bucket that holds the sample of rank t. */
  ghost predicate Holds(counts: seq<nat>, i: nat, t: int)
  {
    i < |counts| && Below(counts, i) < t <= Below(counts, i + 1)
  }

  lemma HoldsUnique(counts: seq<nat>, i: nat, j: nat, t: int)
    requires Holds(counts, i, t) && Holds(counts, j, t)
    ensures i == j
  {
    if i < j {
      BelowGrows(counts, i + 1, j);
    } else if j < i {
      BelowGrows(counts, j + 1, i);
    }
  }

  ghost predicate Sorted(vs: seq<nat>)
  {
    forall i, j :: 0 <= i < j < |vs| ==> vs[i] <= vs[j]
  }

  lemma BucketMonotone(bs: seq<int>, v: nat, w: nat)
    requires ValidBounds(bs) && v <= w
    ensures BucketIndex(bs, v) <= BucketIndex(bs, w)
  {
  }

  /** The counts of the buckets below i are the samples in buckets below i, and in a sorted
      sequence those come first. */
  lemma {:induction false} RankSplit(bs: seq<int>, vs: seq<nat>, i: nat, counts: seq<nat>)
    requires ValidBounds(bs) && Sorted(vs) && i <= |bs| == |counts|
    requires forall j :: 0 <= j < |bs| ==> counts[j] == InBucket(bs, vs, j)
    ensures Below(counts, i) <= |vs|
    ensures forall k :: 0 <= k < |vs| ==> (k < Below(counts, i) <==> BucketIndex(bs, vs[k]) < i)
  {
    if vs == [] {
      BelowZero(counts, i);
    } else {
      var init, v := vs[..|vs| - 1], vs[|vs| - 1];
      var b := BucketIndex(bs, v);
      InitCounts(bs, vs, counts, b);
      var less := Without(counts, b);
      RankSplit(bs, init, i, less);
      BelowWithout(counts, b, i);
      assert vs == init + [v];
      RankSnoc(bs, init, v, i, Below(less, i), Below(counts, i));
    }
  }

  /** The counts without the last sample. */
  lemma InitCounts(bs: seq<int>, vs: seq<nat>, counts: seq<nat>, b: nat)
    requires bs != [] && |counts| == |bs| && vs != [] && b == BucketIndex(bs, vs[|vs| - 1])
    requires forall j :: 0 <= j < |bs| ==> counts[j] == InBucket(bs, vs, j)
    ensures counts[b] > 0 && forall j :: 0 <= j < |bs| ==> Without(counts, b)[j] == InBucket(bs, vs[..|vs| - 1], j)
  {
  }

  /** One sample more, at the end: it is below i only if all the others are. */
  lemma RankSnoc(bs: seq<int>, init: seq<nat>, v: nat, i: nat, less: nat, more: nat)
    requires ValidBounds(bs) && Sorted(init + [v]) && less <= |init|
    requires forall k :: 0 <= k < |init| ==> (k < less <==> BucketIndex(bs, init[k]) < i)
    requires more == less + if BucketIndex(bs, v) < i then 1 else 0
    ensures forall k :: 0 <= k < |init + [v]| ==> (k < more <==> BucketIndex(bs, (init + [v])[k]) < i)
  {
    forall k | 0 <= k < |init| ensures BucketIndex(bs, init[k]) <= BucketIndex(bs, v) {
      assert (init + [v])[k] == init[k] && (init + [v])[|init|] == v;
      BucketMonotone(bs, init[k], v);
    }
    assert less < |init| ==> BucketIndex(bs, init[less]) >= i;
  }

  lemma {:induction false} BelowZero(counts: seq<nat>, i: nat)
    requires i <= |counts| && forall j :: 0 <= j < |counts| ==> counts[j] == 0
    ensures Below(counts, i) == 0
  {
    if i > 0 {
      BelowZero(counts, i - 1);
    }
  }

  function Without(counts: seq<nat>, b: nat): seq<nat>
    requires b < |counts| && counts[b] > 0
  {
    counts[b := counts[b] - 1]
  }

  lemma {:induction false} BelowWithout(counts: seq<nat>, b: nat, i: nat)
    requires b < |counts| && counts[b] > 0 && i <= |counts|
    ensures Below(counts, i) == Below(Without(counts, b), i) + if b < i then 1 else 0
  {
    if i > 0 {
      BelowWithout(counts, b, i - 1);
    }
  }

  lemma {:induction false} InBucketSplit(bs: seq<int>, a: seq<nat>, v: nat, b: seq<nat>, j: nat)
    requires bs != []
    ensures InBucket(bs, a + [v] + b, j) == InBucket(bs, a + b, j) + if BucketIndex(bs, v) == j then 1 else 0
  {
    if b == [] {
      assert a + [v] + b == a + [v] && a + b == a;
      InBucketSnoc(bs, a, v, j);
    } else {
      var init, w := b[..|b| - 1], b[|b| - 1];
      assert a + [v] + b == (a + [v] + init) + [w] && a + b == (a + init) + [w];
      InBucketSplit(bs, a, v, init, j);
      InBucketSnoc(bs, a + [v] + init, w, j);
      InBucketSnoc(bs, a + init, w, j);
    }
  }

  lemma PickOut(ws: seq<nat>, v: nat) returns (a: seq<nat>, b: seq<nat>)
    requires v in ws
    ensures ws == a + [v] + b
  {
    var k :| 0 <= k < |ws| && ws[k] == v;
    a, b := ws[..k], ws[k + 1..];
  }

  lemma TakeOut(init: seq<nat>, v: nat, a: seq<nat>, b: seq<nat>)
    requires multiset(init + [v]) == multiset(a + [v] + b)
    ensures multiset(init) == multiset(a + b)
  {
    PutIn(init, v, []);
    PutIn(a, v, b);
    assert init + [v] + [] == init + [v] && init + [] == init;
    assert multiset(init) == multiset(init) + multiset{v} - multiset{v};
    assert multiset(a + b) == multiset(a + b) + multiset{v} - multiset{v};
  }

  lemma PutIn(a: seq<nat>, v: nat, b: seq<nat>)
    ensures multiset(a + [v] + b) == multiset(a + b) + multiset{v}
  {
  }

  lemma SameMultiset(vs: seq<nat>, ws: seq<nat>)
    requires multiset(vs) == multiset(ws)
    ensures |vs| == |ws| && (vs != [] ==> vs[|vs| - 1] in ws)
  {
    assert |multiset(vs)| == |vs| && |multiset(ws)| == |ws|;
    if vs != [] {
      var v := vs[|vs| - 1];
      assert v in multiset(vs);
      assert v in multiset(ws);
    }
  }

  /** Bucket counts do not depend on the order of the samples. */
  lemma {:induction false} InBucketPermutes(bs: seq<int>, vs: seq<nat>, ws: seq<nat>, j: nat)
    requires bs != [] && multiset(vs) == multiset(ws)
    ensures InBucket(bs, vs, j) == InBucket(bs, ws, j) && |vs| == |ws|
    decreases |vs|
  {
    SameMultiset(vs, ws);
    if vs != [] {
      var init, v := vs[..|vs| - 1], vs[|vs| - 1];
      assert vs == init + [v];
      var a, b := PickOut(ws, v);
      TakeOut(init, v, a, b);
      InBucketPermutes(bs, init, a + b, j);
      InBucketSnoc(bs, init, v, j);
      InBucketSplit(bs, a, v, b, j);
    }
  }

  // ----- The quantile -----

  function Ceil(x: real): int { -(-x).Floor }

  /** The rank asked for: ceil(q * total), between 1 and total. */
  function Target(total: nat, q: real): (t: int)
    requires total > 0
    ensures 1 <= t <= total
  {
    var t := Ceil(q * total as real);
    if t < 1 then 1 else if t > total then total else t
  }

  /** The midpoint of the in-bucket position, interpolated between the bucket's bounds. */
  function Interpolate(lo: int, hi: int, pos: int, c: nat): int
    requires c > 0
  {
    lo + ((hi - lo) as real * ((pos as real - 0.5) / c as real)).Floor
  }

  lemma InterpolateBounds(lo: int, hi: int, pos: int, c: nat)
    requires 1 <= pos <= c && lo <= hi
    ensures lo <= Interpolate(lo, hi, pos, c) <= hi
  {
    var d, frac := (hi - lo) as real, (pos as real - 0.5) / c as real;
    assert 0.0 <= frac <= 1.0;
    ScaleBounds(d, frac);
  }

  lemma ScaleBounds(d: real, frac: real)
    requires d >= 0.0 && 0.0 <= frac <= 1.0
    ensures 0.0 <= d * frac <= d
  {
  }

  lemma InterpolateMonotone(lo: int, hi: int, p: int, q: int, c: nat)
    requires 1 <= p <= q <= c && lo <= hi
    ensures Interpolate(lo, hi, p, c) <= Interpolate(lo, hi, q, c)
  {
    var d, f, g := (hi - lo) as real, (p as real - 0.5) / c as real, (q as real - 0.5) / c as real;
    assert f <= g;
    ScaleMonotone(d, f, g);
  }

  lemma ScaleMonotone(d: real, f: real, g: real)
    requires d >= 0.0 && f <= g
    ensures d * f <= d * g
  {
  }

  /** r is the value the rule gives for rank t in bucket i. */
  ghost predicate ValueAt(bs: seq<int>, counts: seq<nat>, i: nat, t: int, r: int)
    requires |counts| == |bs|
  {
    && Holds(counts, i, t)
    && counts[i] > 0
    && r == Interpolate(LowerBound(bs, i), bs[i], t - Below(counts, i), counts[i])
  }

  /** quantileFromMerged. When the counts do not reach the rank, the last bound is returned. */
  method QuantileFromMerged(bs: seq<int>, merged: seq<nat>, total: nat, q: real) returns (r: int)
    requires |merged| == |bs| > 0
    ensures total == 0 ==> r == 0
    ensures total > 0 && Below(merged, |merged|) >= Target(total, q) ==>
      exists i: nat :: i < |merged| && ValueAt(bs, merged, i, Target(total, q), r)
    ensures total > 0 && Below(merged, |merged|) < Target(total, q) ==> r == bs[|bs| - 1]
  {
    if total == 0 {
      return 0;
    }
    var target := Target(total, q);
    var running := 0;
    var i := 0;
    while i < |merged|
      invariant 0 <= i <= |merged| && running == Below(merged, i) < target
    {
      var c := merged[i];
      running := running + c;
      if c > 0 && running >= target {
        var lo, hi := LowerBound(bs, i), bs[i];
        var inBucket := target - (running - c);
        r := Interpolate(lo, hi, inBucket, c);
        assert ValueAt(bs, merged, i, target, r);
        BelowGrows(merged, i + 1, |merged|);
        return;
      }
      i := i + 1;
    }
    r := bs[|bs| - 1];
  }

  /** vs are samples, sorted is their order, s their summary. */
  ghost predicate Sampled(bs: seq<int>, s: Summary, vs: seq<nat>, sorted: seq<nat>)
  {
    ValidBounds(bs) && Describes(bs, s, vs) && Sorted(sorted) && multiset(sorted) == multiset(vs)
  }

  /** The rank-t sample in sorted order is in the bucket that the prefix sums point at. */
  lemma RankBucket(bs: seq<int>, s: Summary, vs: seq<nat>, sorted: seq<nat>, t: int)
    requires Sampled(bs, s, vs, sorted) && 1 <= t <= s.total
    ensures |sorted| == s.total
    ensures Holds(s.counts, BucketIndex(bs, sorted[t - 1]), t)
  {
    SortedCounts(bs, s, vs, sorted);
    SortedRank(bs, sorted, s.counts, t - 1, BucketIndex(bs, sorted[t - 1]));
  }

  lemma SortedRank(bs: seq<int>, sorted: seq<nat>, counts: seq<nat>, k: nat, i: nat)
    requires ValidBounds(bs) && Sorted(sorted) && |bs| == |counts| && k < |sorted| && i == BucketIndex(bs, sorted[k])
    requires forall j :: 0 <= j < |bs| ==> counts[j] == InBucket(bs, sorted, j)
    ensures Holds(counts, i, k + 1)
  {
    RankSplit(bs, sorted, i, counts);
    RankSplit(bs, sorted, i + 1, counts);
    assert k < Below(counts, i + 1) && k >= Below(counts, i);
  }

  lemma SortedCounts(bs: seq<int>, s: Summary, vs: seq<nat>, sorted: seq<nat>)
    requires Sampled(bs, s, vs, sorted)
    ensures |sorted| == s.total
    ensures forall j :: 0 <= j < |bs| ==> s.counts[j] == InBucket(bs, sorted, j)
  {
    InBucketPermutes(bs, sorted, vs, 0);
    forall j | 0 <= j < |bs| ensures s.counts[j] == InBucket(bs, sorted, j) {
      InBucketPermutes(bs, sorted, vs, j);
    }
  }

  /** The counts reach every rank, so the last-bound fallback is not taken. */
  lemma CountsReach(bs: seq<int>, s: Summary, vs: seq<nat>, sorted: seq<nat>)
    requires Sampled(bs, s, vs, sorted)
    ensures Below(s.counts, |bs|) == s.total
  {
    SortedCounts(bs, s, vs, sorted);
    RankSplit(bs, sorted, |bs|, s.counts);
    if |sorted| > 0 {
      assert BucketIndex(bs, sorted[|sorted| - 1]) < |bs|;
    }
  }

  /** The quantile lies within the bounds of the bucket that holds the exact order statistic
      of rank ceil(q * total). */
  lemma QuantileInBucket(bs: seq<int>, s: Summary, vs: seq<nat>, sorted: seq<nat>, q: real, i: nat, r: int)
    requires Sampled(bs, s, vs, sorted) && s.total > 0 && i < |bs| && ValueAt(bs, s.counts, i, Target(s.total, q), r)
    ensures |sorted| == s.total
    ensures var k := BucketIndex(bs, sorted[Target(s.total, q) - 1]);
      i == k && LowerBound(bs, k) <= r <= bs[k]
  {
    var t := Target(s.total, q);
    RankBucket(bs, s, vs, sorted, t);
    HoldsUnique(s.counts, i, BucketIndex(bs, sorted[t - 1]), t);
    InterpolateBounds(LowerBound(bs, i), bs[i], t - Below(s.counts, i), s.counts[i]);
  }

  lemma TargetMonotone(total: nat, p: real, q: real)
    requires total > 0 && p <= q
    ensures Target(total, p) <= Target(total, q)
  {
    ScaleMonotone(total as real, p, q);
    CeilMonotone(p * total as real, q * total as real);
  }

  lemma CeilMonotone(x: real, y: real)
    requires x <= y
    ensures Ceil(x) <= Ceil(y)
  {
    var a, b := -x, -y;
    assert b <= a;
    assert b.Floor <= a.Floor;
  }

  /** A higher quantile is never smaller. */
  lemma QuantileMonotone(bs: seq<int>, counts: seq<nat>, total: nat, p: real, q: real, i: nat, j: nat, r: int, r': int)
    requires ValidBounds(bs) && |counts| == |bs| && total > 0 && p <= q && i < |bs| && j < |bs|
    requires ValueAt(bs, counts, i, Target(total, p), r) && ValueAt(bs, counts, j, Target(total, q), r')
    ensures r <= r'
  {
    var t, t' := Target(total, p), Target(total, q);
    TargetMonotone(total, p, q);
    InterpolateBounds(LowerBound(bs, i), bs[i], t - Below(counts, i), counts[i]);
    InterpolateBounds(LowerBound(bs, j), bs[j], t' - Below(counts, j), counts[j]);
    if i == j {
      InterpolateMonotone(LowerBound(bs, i), bs[i], t - Below(counts, i), t' - Below(counts, j), counts[i]);
    } else if j < i {
      BelowGrows(counts, j + 1, i);
      assert false;
    }
  }
}
