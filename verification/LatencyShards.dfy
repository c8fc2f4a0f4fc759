/** The sharded histogram and its agreement with a single histogram. */
module LatencyShards {
  import opened Arith
  import opened Latency

  class ShardHistogram {
    const shards: seq<Histogram>
    const boundaries: seq<int>
    const windowSec: nat
    var rr: nat                      // round-robin cursor, a uint64 that wraps

    ghost predicate Valid()
      reads this, shards, set h | h in shards :: h.buckets
    {
      && shards != [] && boundaries != [] && windowSec > 0
      && (forall i, j :: 0 <= i < j < |shards| ==> shards[i] != shards[j] && shards[i].buckets != shards[j].buckets)
      && (forall i :: 0 <= i < |shards| ==>
            && shards[i].Valid() && shards[i].shard == i
            && shards[i].boundaries == boundaries && shards[i].windowSec == windowSec)
    }

    /** NewShardHistogram: n shards over the same bounds and window. */
    constructor (n: nat, boundaries: seq<int>, windowSec: nat, nows: seq<nat>)
      requires n > 0 && |nows| == n && ValidBounds(boundaries) && windowSec > 0
      ensures Valid() && |shards| == n && this.boundaries == boundaries && this.windowSec == windowSec && rr == 0
      ensures forall i :: 0 <= i < n ==>
        fresh(shards[i]) && fresh(shards[i].buckets) && shards[i].Abstract() == Abs(nows[i], [])
    {
      var hs: seq<Histogram> := [];
      while |hs| < n
        invariant |hs| <= n
        invariant forall i, j :: 0 <= i < j < |hs| ==> hs[i] != hs[j] && hs[i].buckets != hs[j].buckets
        invariant forall i :: 0 <= i < |hs| ==>
          && fresh(hs[i]) && fresh(hs[i].buckets) && hs[i].Valid() && hs[i].shard == i
          && hs[i].boundaries == boundaries && hs[i].windowSec == windowSec && hs[i].Abstract() == Abs(nows[i], [])
      {
        var h := new Histogram(boundaries, windowSec, |hs|, nows[|hs|]);
        hs := hs + [h];
      }
      this.boundaries, this.windowSec, rr := boundaries, windowSec, 0;
      shards := hs;
    }

    /** One shard takes the sample; the others do not change. */
    method Observe(d: int, sec: nat) returns (idx: nat)
      requires Valid()
      modifies this`rr, shards, set h | h in shards :: h.buckets
      ensures Valid() && idx == rr % |shards|
      ensures rr == (old(rr) + 1) % 0x1_0000_0000_0000_0000
      ensures shards[idx].Abstract() == Observed(old(shards[idx].Abstract()), idx, d, sec)
      ensures forall i :: 0 <= i < |shards| && i != idx ==> shards[i].Abstract() == old(shards[i].Abstract())
    {
      rr := (rr + 1) % 0x1_0000_0000_0000_0000;
      idx := rr % |shards|;
      shards[idx].Observe(d, sec);
    }

    /** The shards have these logs, and the first i of them have rolled on to sec. */
    ghost predicate Rolled(i: nat, sec: nat, views: seq<Abs>)
      reads this, shards
    {
      |views| == |shards| && forall k :: 0 <= k < |shards| ==>
        shards[k].log == views[k].log && shards[k].base == if k < i then Max(views[k].base, sec) else views[k].base
    }

    ghost function Views(): (v: seq<Abs>)
      reads this, shards
      ensures Rolled(0, 0, v)
    {
      seq(|shards|, k requires 0 <= k < |shards| reads this, shards => shards[k].Abstract())
    }

    method FoldShard(i: nat, sec: nat, merged: array<nat>, ghost views: seq<Abs>, ghost part: Summary)
      returns (total: nat, sum: nat, min: nat, max: nat, hasMin: bool)
      requires Valid() && i < |shards| && merged.Length == |boundaries| && Rolled(i, sec, views)
      requires part == Shown(boundaries, windowSec, views[i], sec)
      modifies {shards[i]}, shards[i].buckets, merged
      ensures Valid() && Rolled(i + 1, sec, views)
      ensures merged[..] == Add(old(merged[..]), part.counts)
      ensures Summary(part.counts, total, sum, min, max) == part && hasMin == (total > 0)
    {
      var h := shards[i];
      assert h.log == views[i].log && h.base == views[i].base;
      assert forall k :: 0 <= k < |shards| && k != i ==> shards[k] != h && shards[k].buckets != h.buckets;
      total, sum, min, max, hasMin := h.FoldLocked(sec, merged);
    }

    /** The figures with shard i added. */
    method FoldNext(i: nat, sec: nat, merged: array<nat>, total: nat, sum: nat, min: nat, max: nat, hasMin: bool,
                    ghost views: seq<Abs>, ghost parts: seq<Summary>, ghost before: seq<nat>)
      returns (total': nat, sum': nat, min': nat, max': nat, hasMin': bool)
      requires Valid() && i < |shards| && merged.Length == |boundaries| && Rolled(i, sec, views)
      requires i < |parts| && parts[i] == Shown(boundaries, windowSec, views[i], sec) && Fits(parts[i], |boundaries|)
      requires Figures(|boundaries|, parts[..i], before, merged[..], total, sum, min, max, hasMin)
      modifies {shards[i]}, shards[i].buckets, merged
      ensures Valid() && Rolled(i + 1, sec, views)
      ensures Figures(|boundaries|, parts[..i + 1], before, merged[..], total', sum', min', max', hasMin')
    {
      ghost var mid := merged[..];
      var t, su, mn, mx, hm := FoldShard(i, sec, merged, views, parts[i]);
      NextFigures(|boundaries|, parts, i, before, mid, merged[..], total, sum, min, max, hasMin);
      total', sum' := total + t, sum + su;
      min', max', hasMin' := Wider(min, max, hasMin, mn, mx, hm);
    }

    /** Folds every shard at sec: the figures are those of the shards' windows, merged. */
    method FoldAll(sec: nat, merged: array<nat>) returns (total: nat, sum: nat, min: nat, max: nat, hasMin: bool)
      requires Valid() && merged.Length == |boundaries|
      modifies shards, set h | h in shards :: h.buckets, merged
      ensures Valid() && Rolled(|shards|, sec, old(Views()))
      ensures Figures(|boundaries|, ShownAll(boundaries, windowSec, old(Views()), sec), old(merged[..]), merged[..],
                      total, sum, min, max, hasMin)
    {
      ghost var views, before := Views(), merged[..];
      ghost var parts := ShownAll(boundaries, windowSec, views, sec);
      total, sum, min, max, hasMin := 0, 0, 0, 0, false;
      var i := 0;
      NoFigures(|boundaries|, merged[..]);
      while i < |shards|
        invariant 0 <= i <= |shards| && Valid() && Rolled(i, sec, views)
        invariant Figures(|boundaries|, parts[..i], before, merged[..], total, sum, min, max, hasMin)
      {
        total, sum, min, max, hasMin := FoldNext(i, sec, merged, total, sum, min, max, hasMin, views, parts, before);
        i := i + 1;
      }
      assert parts[..i] == parts;
    }
  }

  /** The extremes after one shard more. */
  method Wider(min: nat, max: nat, hasMin: bool, mn: nat, mx: nat, hm: bool)
    returns (min': nat, max': nat, hasMin': bool)
    ensures min' == if hm && (!hasMin || mn < min) then mn else min
    ensures max' == (if mx > max then mx else max) && hasMin' == (hasMin || hm)
  {
    min', max', hasMin' := min, max, hasMin;
    if hm && (!hasMin || mn < min) {
      min' := mn;
      hasMin' := true;
    }
    if mx > max {
      max' := mx;
    }
  }

  /** What histograms in these states show at now. */
  ghost function ShownAll(bs: seq<int>, n: nat, views: seq<Abs>, now: nat): (r: seq<Summary>)
    requires bs != [] && n > 0
    ensures |r| == |views| && forall i :: 0 <= i < |r| ==> r[i] == Shown(bs, n, views[i], now) && Fits(r[i], |bs|)
  {
    seq(|views|, i requires 0 <= i < |views| => Shown(bs, n, views[i], now))
  }

  lemma NoFigures(m: nat, start: seq<nat>)
    requires |start| == m
    ensures Figures(m, [], start, start, 0, 0, 0, 0, false)
  {
    assert start == Add(start, Zero(m).counts);
  }

  /** out is start plus the merged counts of the parts; the figures are those of the merge. */
  ghost predicate Figures(m: nat, parts: seq<Summary>, start: seq<nat>, out: seq<nat>,
                          total: nat, sum: nat, min: nat, max: nat, hasMin: bool)
  {
    && |start| == m && (forall k :: 0 <= k < |parts| ==> Fits(parts[k], m))
    && var s := MergeCells(m, parts);
       out == Add(start, s.counts) && s == Summary(s.counts, total, sum, min, max) && hasMin == (total > 0)
  }

  lemma MoreFigures(m: nat, parts: seq<Summary>, part: Summary, start: seq<nat>, mid: seq<nat>, out: seq<nat>,
                    total: nat, sum: nat, min: nat, max: nat, hasMin: bool)
    requires Figures(m, parts, start, mid, total, sum, min, max, hasMin) && Fits(part, m)
    requires out == Add(mid, part.counts)
    ensures Figures(m, parts + [part], start, out, total + part.total, sum + part.sum,
                    if part.total > 0 && (!hasMin || part.min < min) then part.min else min,
                    if part.max > max then part.max else max, hasMin || part.total > 0)
  {
    var s := MergeCells(m, parts);
    MergeSnoc(m, parts, part);
    AddTwice(start, s.counts, part.counts);
  }

  lemma NextFigures(m: nat, parts: seq<Summary>, i: nat, start: seq<nat>, mid: seq<nat>, out: seq<nat>,
                    total: nat, sum: nat, min: nat, max: nat, hasMin: bool)
    requires i < |parts| && Figures(m, parts[..i], start, mid, total, sum, min, max, hasMin) && Fits(parts[i], m)
    requires out == Add(mid, parts[i].counts)
    ensures Figures(m, parts[..i + 1], start, out, total + parts[i].total, sum + parts[i].sum,
                    if parts[i].total > 0 && (!hasMin || parts[i].min < min) then parts[i].min else min,
                    if parts[i].max > max then parts[i].max else max, hasMin || parts[i].total > 0)
  {
    MoreFigures(m, parts[..i], parts[i], start, mid, out, total, sum, min, max, hasMin);
    assert parts[..i] + [parts[i]] == parts[..i + 1];
  }

  lemma AddTwice(a: seq<nat>, b: seq<nat>, c: seq<nat>)
    requires |a| == |b| == |c|
    ensures Add(Add(a, b), c) == Add(a, Add(b, c))
  {
  }

  // ----- Shards and a single histogram see the same window -----

  /** A sample of d taken at sec by a shard, or a read that advances every ring to sec. */
  datatype Op = Take(shard: nat, d: int, sec: nat) | Read(sec: nat)

  function One(a: Abs, op: Op): Abs
  {
    match op
    case Take(shard, d, sec) => Observed(a, shard, d, sec)
    case Read(sec) => a.(base := Max(a.base, sec))
  }

  /** A single histogram fed everything, and shard i fed its own samples. */
  function Whole(start: nat, ops: seq<Op>): Abs
  {
    if ops == [] then Abs(start, []) else One(Whole(start, ops[..|ops| - 1]), ops[|ops| - 1])
  }

  function Shard(i: nat, start: nat, ops: seq<Op>): Abs
  {
    if ops == [] then Abs(start, [])
    else
      var a, op := Shard(i, start, ops[..|ops| - 1]), ops[|ops| - 1];
      if op.Take? && op.shard != i then a else One(a, op)
  }

  /** The samples under their own clock readings: negative durations count as 0. */
  function Samples(ops: seq<Op>): seq<Sample>
  {
    if ops == [] then []
    else
      var op := ops[|ops| - 1];
      Samples(ops[..|ops| - 1]) + if op.Take? then [Sample(op.shard, op.sec, if op.d < 0 then 0 else op.d)] else []
  }

  function Only(log: seq<Sample>, i: nat): seq<Sample>
  {
    if log == [] then []
    else Only(log[..|log| - 1], i) + if log[|log| - 1].shard == i then [log[|log| - 1]] else []
  }

  /** The clock starts no earlier than start, does not go back, and now reads now. */
  ghost predicate Forward(start: nat, ops: seq<Op>, now: nat)
  {
    if ops == [] then start <= now
    else ops[|ops| - 1].sec <= now && Forward(start, ops[..|ops| - 1], ops[|ops| - 1].sec)
  }

  lemma OnlySnoc(log: seq<Sample>, e: Sample, i: nat)
    ensures Only(log + [e], i) == Only(log, i) + if e.shard == i then [e] else []
  {
    assert (log + [e])[..|log|] == log;
  }

  lemma {:induction false} WholeLog(start: nat, ops: seq<Op>, now: nat)
    requires Forward(start, ops, now)
    ensures Whole(start, ops).log == Samples(ops) && Whole(start, ops).base <= now
  {
    if ops != [] {
      WholeLog(start, ops[..|ops| - 1], ops[|ops| - 1].sec);
    }
  }

  lemma {:induction false} ShardLog(i: nat, start: nat, ops: seq<Op>, now: nat)
    requires Forward(start, ops, now)
    ensures Shard(i, start, ops).log == Only(Samples(ops), i) && Shard(i, start, ops).base <= now
  {
    if ops != [] {
      var op := ops[|ops| - 1];
      ShardLog(i, start, ops[..|ops| - 1], op.sec);
      if op.Take? {
        OnlySnoc(Samples(ops[..|ops| - 1]), Sample(op.shard, op.sec, if op.d < 0 then 0 else op.d), i);
      } else {
        assert Samples(ops) == Samples(ops[..|ops| - 1]);
      }
    }
  }

  function On(base: int, n: nat, p: nat, q: nat): Region { Region(base - n, base, n, 0, n, p, q) }

  /** Filtering the log by shard is restricting the region to that shard. */
  lemma {:induction false} OnlyIsRegion(bs: seq<int>, log: seq<Sample>, i: nat, base: int, n: nat)
    requires bs != [] && n > 0
    ensures Summarize(bs, Only(log, i), Window(base, n)) == Summarize(bs, log, On(base, n, i, i + 1))
  {
    if log != [] {
      var init, e := log[..|log| - 1], log[|log| - 1];
      OnlyIsRegion(bs, init, i, base, n);
      assert log == init + [e];
      SummarizeSnoc(bs, init, e, On(base, n, i, i + 1));
      OnlySnoc(init, e, i);
      OnMeans(e, base, n, i);
      if e.shard == i {
        SummarizeSnoc(bs, Only(init, i), e, Window(base, n));
      } else {
        assert Only(log, i) == Only(init, i);
      }
    }
  }

  lemma OnMeans(e: Sample, base: int, n: nat, i: nat)
    requires n > 0
    ensures In(e, On(base, n, i, i + 1)) <==> e.shard == i && In(e, Window(base, n))
  {
  }

  /** What a histogram in state a shows at now. */
  function Shown(bs: seq<int>, n: nat, a: Abs, now: nat): (s: Summary)
    requires bs != [] && n > 0
    ensures Fits(s, |bs|)
  {
    Summarize(bs, a.log, Window(Max(a.base, now), n))
  }

  lemma ShardShows(bs: seq<int>, n: nat, i: nat, start: nat, ops: seq<Op>, now: nat)
    requires bs != [] && n > 0 && Forward(start, ops, now)
    ensures Shown(bs, n, Shard(i, start, ops), now) == Summarize(bs, Samples(ops), On(now, n, i, i + 1))
  {
    ShardLog(i, start, ops, now);
    OnlyIsRegion(bs, Samples(ops), i, now, n);
  }

  /** The state of every shard. */
  function ShardStates(starts: seq<nat>, ops: seq<Op>): (r: seq<Abs>)
    ensures |r| == |starts| && forall i :: 0 <= i < |r| ==> r[i] == Shard(i, starts[i], ops)
  {
    seq(|starts|, i requires 0 <= i < |starts| => Shard(i, starts[i], ops))
  }

  lemma MergeSnoc(m: nat, cells: seq<Summary>, c: Summary)
    requires Fits(c, m) && forall i :: 0 <= i < |cells| ==> Fits(cells[i], m)
    ensures MergeCells(m, cells + [c]) == Merge(MergeCells(m, cells), c)
  {
    assert (cells + [c])[..|cells|] == cells;
  }

  /** Summaries of the samples of shard after shard merge into that of the first k shards. */
  lemma {:induction false} PartsMerge(bs: seq<int>, n: nat, parts: seq<Summary>, log: seq<Sample>, now: nat, k: nat)
    requires bs != [] && n > 0 && k <= |parts|
    requires forall i :: 0 <= i < |parts| ==>
      parts[i] == Summarize(bs, log, On(now, n, i, i + 1)) && Fits(parts[i], |bs|)
    ensures MergeCells(|bs|, parts[..k]) == Summarize(bs, log, On(now, n, 0, k))
  {
    if k == 0 {
      assert parts[..k] == [];
      NoSamples(bs, log, On(now, n, 0, 0));
    } else {
      PartsMerge(bs, n, parts, log, now, k - 1);
      NextShard(bs, log, now, n, k - 1);
      MergeNext(|bs|, parts, k - 1);
    }
  }

  lemma MergeNext(m: nat, parts: seq<Summary>, k: nat)
    requires k < |parts| && forall i :: 0 <= i < |parts| ==> Fits(parts[i], m)
    ensures MergeCells(m, parts[..k + 1]) == Merge(MergeCells(m, parts[..k]), parts[k])
  {
    assert parts[..k + 1] == parts[..k] + [parts[k]];
    MergeSnoc(m, parts[..k], parts[k]);
  }

  lemma NextShard(bs: seq<int>, log: seq<Sample>, base: int, n: nat, i: nat)
    requires bs != [] && n > 0
    ensures Summarize(bs, log, On(base, n, 0, i + 1))
         == Merge(Summarize(bs, log, On(base, n, 0, i)), Summarize(bs, log, On(base, n, i, i + 1)))
  {
    SplitSamples(bs, log, On(base, n, 0, i + 1), On(base, n, 0, i), On(base, n, i, i + 1));
  }

  /** With a clock that does not go back, folding any number of shards, however the samples
      were assigned to them, gives the summary of a single histogram fed all samples, and
      both are recomputed from the samples of the last n seconds. */
  lemma ShardsAgree(bs: seq<int>, n: nat, starts: seq<nat>, start: nat, ops: seq<Op>, now: nat)
    requires bs != [] && n > 0
    requires Forward(start, ops, now) && forall i :: 0 <= i < |starts| ==> Forward(starts[i], ops, now)
    requires forall k :: 0 <= k < |ops| && ops[k].Take? ==> ops[k].shard < |starts|
    ensures MergeCells(|bs|, ShownAll(bs, n, ShardStates(starts, ops), now)) == Shown(bs, n, Whole(start, ops), now)
    ensures Shown(bs, n, Whole(start, ops), now) == Summarize(bs, Samples(ops), Window(now, n))
  {
    WholeShows(bs, n, start, ops, now);
    ShardParts(bs, n, starts, ops, now);
    SampleShards(ops, |starts|);
    AllShards(bs, Samples(ops), now, n, |starts|);
  }

  /** The shards' windows, merged, are the samples of all of them. */
  lemma ShardParts(bs: seq<int>, n: nat, starts: seq<nat>, ops: seq<Op>, now: nat)
    requires bs != [] && n > 0 && forall i :: 0 <= i < |starts| ==> Forward(starts[i], ops, now)
    ensures MergeCells(|bs|, ShownAll(bs, n, ShardStates(starts, ops), now))
      == Summarize(bs, Samples(ops), On(now, n, 0, |starts|))
  {
    var parts := ShownAll(bs, n, ShardStates(starts, ops), now);
    PartsAre(bs, n, starts, ops, now, parts);
    PartsMerge(bs, n, parts, Samples(ops), now, |parts|);
    assert parts[..|parts|] == parts;
  }

  lemma PartsAre(bs: seq<int>, n: nat, starts: seq<nat>, ops: seq<Op>, now: nat, parts: seq<Summary>)
    requires bs != [] && n > 0 && forall i :: 0 <= i < |starts| ==> Forward(starts[i], ops, now)
    requires parts == ShownAll(bs, n, ShardStates(starts, ops), now)
    ensures forall i :: 0 <= i < |parts| ==> parts[i] == Summarize(bs, Samples(ops), On(now, n, i, i + 1))
  {
    forall i | 0 <= i < |parts|
      ensures parts[i] == Summarize(bs, Samples(ops), On(now, n, i, i + 1))
    {
      ShardShows(bs, n, i, starts[i], ops, now);
    }
  }

  lemma WholeShows(bs: seq<int>, n: nat, start: nat, ops: seq<Op>, now: nat)
    requires bs != [] && n > 0 && Forward(start, ops, now)
    ensures Shown(bs, n, Whole(start, ops), now) == Summarize(bs, Samples(ops), Window(now, n))
  {
    WholeLog(start, ops, now);
  }

  lemma AllShards(bs: seq<int>, log: seq<Sample>, base: int, n: nat, k: nat)
    requires bs != [] && n > 0 && forall i :: 0 <= i < |log| ==> log[i].shard < k
    ensures Summarize(bs, log, On(base, n, 0, k)) == Summarize(bs, log, Window(base, n))
  {
    SameSamples(bs, log, On(base, n, 0, k), Window(base, n));
  }

  lemma {:induction false} SampleShards(ops: seq<Op>, k: nat)
    requires forall i :: 0 <= i < |ops| && ops[i].Take? ==> ops[i].shard < k
    ensures forall i :: 0 <= i < |Samples(ops)| ==> Samples(ops)[i].shard < k
  {
    if ops != [] {
      SampleShards(ops[..|ops| - 1], k);
    }
  }
}
