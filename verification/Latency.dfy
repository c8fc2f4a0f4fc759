/** The sliding-window latency histogram: a ring of per-second buckets, specified by
    summarising the plain log of samples. */
module Latency {
  import opened Arith

  // ----- Buckets -----

  ghost predicate ValidBounds(bs: seq<int>)
  {
    bs != [] && bs[0] > 0 && forall i, j :: 0 <= i < j < |bs| ==> bs[i] < bs[j]
  }

  method ValidBoundaries(bs: seq<int>) returns (ok: bool)
    ensures ok <==> ValidBounds(bs)
  {
    if |bs| == 0 {
      return false;
    }
    var i := 0;
    while i < |bs|
      invariant 0 <= i <= |bs|
      invariant i > 0 ==> ValidBounds(bs[..i])
    {
      if bs[i] <= 0 {
        assert i > 0 ==> bs[..i][0] > 0 && bs[..i][0] == bs[0];
        return false;
      }
      if i > 0 && bs[i] <= bs[i - 1] {
        return false;
      }
      assert i > 0 ==> bs[..i][i - 1] == bs[i - 1];
      assert bs[..i + 1] == bs[..i] + [bs[i]];
      assert forall j :: 0 <= j < i ==> bs[..i][j] <= bs[i - 1];
      i := i + 1;
    }
    assert bs[..|bs|] == bs;
    ok := true;
  }

  /** sort.Search: the least index whose bound is at least v, or the length. */
  function Search(bs: seq<int>, v: int): (i: nat)
    ensures i <= |bs|
    ensures forall j :: 0 <= j < i ==> bs[j] < v
    ensures i < |bs| ==> bs[i] >= v
  {
    if bs == [] || bs[0] >= v then 0 else 1 + Search(bs[1..], v)
  }

  /** Values above the last bound go to the last bucket. */
  function BucketIndex(bs: seq<int>, v: int): (i: nat)
    requires bs != []
    ensures i < |bs|
    ensures bs[i] >= v || i == |bs| - 1
    ensures forall j :: 0 <= j < i ==> bs[j] < v
  {
    var i := Search(bs, v);
    if i >= |bs| then |bs| - 1 else i
  }

  function LowerBound(bs: seq<int>, i: nat): int
    requires i < |bs|
  {
    if i == 0 then 0 else bs[i - 1]
  }

  // ----- Summaries -----

  /** The content of a bucket, or of a fold over buckets. */
  datatype Summary = Summary(counts: seq<nat>, total: nat, sum: nat, min: nat, max: nat)

  function Zero(m: nat): Summary { Summary(seq(m, _ => 0), 0, 0, 0, 0) }

  function Single(bs: seq<int>, v: nat): Summary
    requires bs != []
  {
    Summary(seq(|bs|, _ => 0)[BucketIndex(bs, v) := 1], 1, v, v, v)
  }

  predicate Fits(s: Summary, m: nat)
  {
    |s.counts| == m && (s.total == 0 ==> s.min == 0 && s.max == 0)
  }

  function Add(a: seq<nat>, b: seq<nat>): (r: seq<nat>)
    requires |a| == |b|
    ensures |r| == |a| && forall j :: 0 <= j < |a| ==> r[j] == a[j] + b[j]
  {
    seq(|a|, j requires 0 <= j < |a| => a[j] + b[j])
  }

  function MergedMin(a: Summary, b: Summary): nat
  {
    if a.total == 0 then b.min else if b.total == 0 || a.min < b.min then a.min else b.min
  }

  function Merge(a: Summary, b: Summary): Summary
    requires |a.counts| == |b.counts|
  {
    Summary(Add(a.counts, b.counts), a.total + b.total, a.sum + b.sum, MergedMin(a, b), Max(a.max, b.max))
  }

  lemma MergeLaws(a: Summary, b: Summary, c: Summary, m: nat)
    requires Fits(a, m) && Fits(b, m) && Fits(c, m)
    ensures Merge(a, b) == Merge(b, a) && Fits(Merge(a, b), m)
    ensures Merge(Merge(a, b), c) == Merge(a, Merge(b, c))
    ensures Merge(a, Zero(m)) == a == Merge(Zero(m), a)
  {
    assert Add(a.counts, b.counts) == Add(b.counts, a.counts);
    assert Add(Add(a.counts, b.counts), c.counts) == Add(a.counts, Add(b.counts, c.counts));
    assert Add(a.counts, Zero(m).counts) == a.counts == Add(Zero(m).counts, a.counts);
  }

  // ----- The log -----

  /** A sample, the second it is charged to and the shard that took it. */
  datatype Sample = Sample(shard: nat, sec: nat, ns: nat)

  /** Seconds in (lo, hi] whose ring slot is in [a, b), on the shards in [p, q), where a
      negative q stands for no bound. */
  datatype Region = Region(lo: int, hi: int, n: nat, a: int, b: int, p: nat, q: int)

  predicate In(e: Sample, r: Region)
    requires r.n > 0
  {
    r.lo < e.sec <= r.hi && r.a <= e.sec % r.n < r.b && r.p <= e.shard && (r.q < 0 || e.shard < r.q)
  }

  /** Plain recomputation: the summary of the samples of the region. */
  function Summarize(bs: seq<int>, log: seq<Sample>, r: Region): (s: Summary)
    requires bs != [] && r.n > 0
    ensures Fits(s, |bs|)
  {
    if log == [] then Zero(|bs|)
    else
      var e := log[|log| - 1];
      Merge(Summarize(bs, log[..|log| - 1], r), if In(e, r) then Single(bs, e.ns) else Zero(|bs|))
  }

  lemma SummarizeSnoc(bs: seq<int>, log: seq<Sample>, e: Sample, r: Region)
    requires bs != [] && r.n > 0
    ensures Summarize(bs, log + [e], r)
         == if In(e, r) then Merge(Summarize(bs, log, r), Single(bs, e.ns)) else Summarize(bs, log, r)
  {
    assert (log + [e])[..|log|] == log;
    var z := Zero(|bs|);
    MergeLaws(Summarize(bs, log, r), z, z, |bs|);
  }

  /** Regions that hold the same samples of the log have the same summary. */
  lemma {:induction false} SameSamples(bs: seq<int>, log: seq<Sample>, r: Region, r': Region)
    requires bs != [] && r.n > 0 && r'.n > 0
    requires forall k :: 0 <= k < |log| ==> (In(log[k], r) <==> In(log[k], r'))
    ensures Summarize(bs, log, r) == Summarize(bs, log, r')
  {
    if log != [] {
      SameSamples(bs, log[..|log| - 1], r, r');
    }
  }

  lemma {:induction false} NoSamples(bs: seq<int>, log: seq<Sample>, r: Region)
    requires bs != [] && r.n > 0
    requires forall k :: 0 <= k < |log| ==> !In(log[k], r)
    ensures Summarize(bs, log, r) == Zero(|bs|)
  {
    if log != [] {
      NoSamples(bs, log[..|log| - 1], r);
      var z := Zero(|bs|);
      MergeLaws(z, z, z, |bs|);
    }
  }

  /** A region split in two: the summaries of the parts merge to the summary of the whole. */
  lemma {:induction false} SplitSamples(bs: seq<int>, log: seq<Sample>, r: Region, r1: Region, r2: Region)
    requires bs != [] && r.n > 0 && r1.n > 0 && r2.n > 0
    requires forall k :: 0 <= k < |log| ==>
      (In(log[k], r) <==> In(log[k], r1) || In(log[k], r2)) && !(In(log[k], r1) && In(log[k], r2))
    ensures Summarize(bs, log, r) == Merge(Summarize(bs, log, r1), Summarize(bs, log, r2))
  {
    var m := |bs|;
    if log == [] {
      MergeLaws(Zero(m), Zero(m), Zero(m), m);
    } else {
      var init, e := log[..|log| - 1], log[|log| - 1];
      SplitSamples(bs, init, r, r1, r2);
      var x, y, o := Summarize(bs, init, r1), Summarize(bs, init, r2), Single(bs, e.ns);
      MergeLaws(x, y, o, m);
      MergeLaws(x, o, y, m);
      MergeLaws(y, o, x, m);
      MergeLaws(Merge(x, y), o, o, m);
    }
  }

  // ----- The window -----

  /** The n seconds ending at base: in the ring slots [a, b), in one slot, in all. */
  function Slots(base: int, n: nat, a: int, b: int): Region { Region(base - n, base, n, a, b, 0, -1) }
  function Slot(base: int, n: nat, i: int): Region { Slots(base, n, i, i + 1) }
  function Window(base: int, n: nat): Region { Slots(base, n, 0, n) }

  ghost predicate NotAfter(log: seq<Sample>, base: int)
  {
    forall k :: 0 <= k < |log| ==> log[k].sec <= base
  }

  /** Rolling on by one second empties the slot of the new second and keeps the others. */
  lemma RollSlot(bs: seq<int>, log: seq<Sample>, base: nat, n: nat, j: int)
    requires bs != [] && n > 0 && NotAfter(log, base) && 0 <= j < n
    ensures Summarize(bs, log, Slot(base + 1, n, j))
         == if j == (base + 1) % n then Zero(|bs|) else Summarize(bs, log, Slot(base, n, j))
  {
    forall k | 0 <= k < |log|
      ensures if j == (base + 1) % n then !In(log[k], Slot(base + 1, n, j))
              else In(log[k], Slot(base + 1, n, j)) <==> In(log[k], Slot(base, n, j))
    {
      var sec := log[k].sec;
      if base - n < sec <= base {
        if sec > base + 1 - n {
          ModApart(sec, base + 1, n);
        } else {
          ModWraps(sec, n);
        }
      }
    }
    if j == (base + 1) % n {
      NoSamples(bs, log, Slot(base + 1, n, j));
    } else {
      SameSamples(bs, log, Slot(base + 1, n, j), Slot(base, n, j));
    }
  }

  /** The cells of a ring hold, slot by slot, the summaries of the window ending at base. */
  ghost predicate Ring(bs: seq<int>, log: seq<Sample>, base: int, n: nat, cells: seq<Summary>)
  {
    && bs != [] && n > 0 && |cells| == n
    && NotAfter(log, base)
    && forall i :: 0 <= i < n ==> cells[i] == Summarize(bs, log, Slot(base, n, i))
  }

  lemma RollKeeps(bs: seq<int>, log: seq<Sample>, base: nat, n: nat, cells: seq<Summary>)
    requires Ring(bs, log, base, n, cells)
    ensures Ring(bs, log, base + 1, n, cells[(base + 1) % n := Zero(|bs|)])
  {
    var cells' := cells[(base + 1) % n := Zero(|bs|)];
    forall j | 0 <= j < n ensures cells'[j] == Summarize(bs, log, Slot(base + 1, n, j)) {
      RollSlot(bs, log, base, n, j);
    }
  }

  lemma ExpireKeeps(bs: seq<int>, log: seq<Sample>, base: int, n: nat, cells: seq<Summary>)
    requires bs != [] && n > 0 && NotAfter(log, base - n)
    requires |cells| == n && forall i :: 0 <= i < n ==> cells[i] == Zero(|bs|)
    ensures Ring(bs, log, base, n, cells)
  {
    forall j | 0 <= j < n ensures cells[j] == Summarize(bs, log, Slot(base, n, j)) {
      NoSamples(bs, log, Slot(base, n, j));
    }
  }

  lemma ChargeKeeps(bs: seq<int>, log: seq<Sample>, e: Sample, n: nat, cells: seq<Summary>)
    requires Ring(bs, log, e.sec, n, cells)
    ensures Fits(cells[e.sec % n], |bs|)
    ensures Ring(bs, log + [e], e.sec, n, cells[e.sec % n := Merge(cells[e.sec % n], Single(bs, e.ns))])
  {
    var cells' := cells[e.sec % n := Merge(cells[e.sec % n], Single(bs, e.ns))];
    forall j | 0 <= j < n ensures cells'[j] == Summarize(bs, log + [e], Slot(e.sec, n, j)) {
      SummarizeSnoc(bs, log, e, Slot(e.sec, n, j));
    }
  }

  lemma NextSlot(bs: seq<int>, log: seq<Sample>, base: int, n: nat, i: nat)
    requires bs != [] && n > 0 && i < n
    ensures Summarize(bs, log, Slots(base, n, 0, i + 1))
         == Merge(Summarize(bs, log, Slots(base, n, 0, i)), Summarize(bs, log, Slot(base, n, i)))
  {
    SplitSamples(bs, log, Slots(base, n, 0, i + 1), Slots(base, n, 0, i), Slot(base, n, i));
  }

  /** Merging the cells one after the other gives the summary of the whole window. */
  function MergeCells(m: nat, cells: seq<Summary>): (s: Summary)
    requires forall i :: 0 <= i < |cells| ==> Fits(cells[i], m)
    ensures Fits(s, m)
  {
    if cells == [] then Zero(m)
    else
      var init, last := cells[..|cells| - 1], cells[|cells| - 1];
      assert Fits(last, m) && forall i :: 0 <= i < |init| ==> init[i] == cells[i];
      Merge(MergeCells(m, init), last)
  }

  lemma {:induction false} MergeSlots(bs: seq<int>, log: seq<Sample>, base: int, n: nat, cells: seq<Summary>, i: nat)
    requires Ring(bs, log, base, n, cells) && i <= n
    ensures forall k :: 0 <= k < n ==> Fits(cells[k], |bs|)
    ensures MergeCells(|bs|, cells[..i]) == Summarize(bs, log, Slots(base, n, 0, i))
  {
    if i == 0 {
      NoSamples(bs, log, Slots(base, n, 0, 0));
    } else {
      MergeSlots(bs, log, base, n, cells, i - 1);
      NextSlot(bs, log, base, n, i - 1);
      assert cells[..i][..i - 1] == cells[..i - 1];
    }
  }

  lemma RingFolds(bs: seq<int>, log: seq<Sample>, base: int, n: nat, cells: seq<Summary>)
    requires Ring(bs, log, base, n, cells)
    ensures forall k :: 0 <= k < n ==> Fits(cells[k], |bs|)
    ensures MergeCells(|bs|, cells) == Summarize(bs, log, Window(base, n))
  {
    MergeSlots(bs, log, base, n, cells, n);
    assert cells[..n] == cells;
  }

  // ----- What the operations mean, over the log -----

  /** base is the newest second; log holds every sample taken. */
  datatype Abs = Abs(base: nat, log: seq<Sample>)

  function Observed(a: Abs, shard: nat, d: int, sec: nat): Abs
  {
    var base := Max(a.base, sec);
    Abs(base, a.log + [Sample(shard, base, if d < 0 then 0 else d)])
  }

  // ----- The histogram over its ring -----

  class Histogram {
    const boundaries: seq<int>
    const windowSec: nat
    const buckets: array<Summary>
    const shard: nat
    var base: nat
    ghost var log: seq<Sample>

    ghost predicate Valid()
      reads this, buckets
    {
      && ValidBounds(boundaries) && buckets.Length == windowSec
      && Ring(boundaries, log, base, windowSec, buckets[..])
    }

    ghost function Abstract(): Abs
      reads this
    {
      Abs(base, log)
    }

    constructor (boundaries: seq<int>, windowSec: nat, shard: nat, now: nat)
      requires ValidBounds(boundaries) && windowSec > 0
      ensures Valid() && Abstract() == Abs(now, []) && fresh(buckets)
      ensures this.boundaries == boundaries && this.windowSec == windowSec && this.shard == shard
    {
      this.boundaries := boundaries;
      this.windowSec := windowSec;
      this.shard := shard;
      base, log := now, [];
      var z := Zero(|boundaries|);
      buckets := new Summary[windowSec](_ => z);
      new;
      ExpireKeeps(boundaries, [], now, windowSec, buckets[..]);
    }

    /** Rolls the ring on to sec; no sample of the window is lost, and a clock that went
        back changes nothing. */
    method Advance(sec: nat)
      requires Valid()
      modifies this`base, buckets
      ensures Valid() && base == Max(old(base), sec)
    {
      if sec <= base {
        return;
      }
      if sec - base >= windowSec {
        Clear(sec);
        return;
      }
      while base < sec
        invariant Valid() && base <= sec
      {
        RollOne();
      }
    }

    method RollOne()
      requires Valid()
      modifies this`base, buckets
      ensures Valid() && base == old(base) + 1
    {
      RollKeeps(boundaries, log, base, windowSec, buckets[..]);
      base := base + 1;
      ZeroBucket(base % windowSec);
    }

    method ZeroBucket(i: nat)
      requires i < buckets.Length
      modifies buckets
      ensures buckets[..] == old(buckets[..])[i := Zero(|boundaries|)]
    {
      buckets[i] := Zero(|boundaries|);
    }

    /** A full window has elapsed: every bucket is cleared. */
    method Clear(sec: nat)
      requires Valid() && sec - base >= windowSec
      modifies this`base, buckets
      ensures Valid() && base == sec
    {
      var i := 0;
      while i < buckets.Length
        invariant 0 <= i <= buckets.Length
        invariant forall j :: 0 <= j < i ==> buckets[j] == Zero(|boundaries|)
      {
        ZeroBucket(i);
        i := i + 1;
      }
      ExpireKeeps(boundaries, log, sec, windowSec, buckets[..]);
      base := sec;
    }

    /** Takes a sample: it is logged under the newest second. */
    method Observe(d: int, sec: nat)
      requires Valid()
      modifies this`base, this`log, buckets
      ensures Valid() && Abstract() == Observed(old(Abstract()), shard, d, sec)
    {
      var ns: nat := if d < 0 then 0 else d;
      var idx := BucketIndex(boundaries, ns);
      Advance(sec);
      var charged := if sec < base then base else sec;
      Charge(charged % windowSec, idx, ns);
    }

    method Charge(slot: nat, idx: nat, ns: nat)
      requires Valid() && slot == base % windowSec && idx == BucketIndex(boundaries, ns)
      modifies this`log, buckets
      ensures Valid() && log == old(log) + [Sample(shard, base, ns)]
    {
      ghost var was := buckets[..];
      ChargeKeeps(boundaries, log, Sample(shard, base, ns), windowSec, was);
      buckets[slot] := Bumped(buckets[slot], boundaries, idx, ns);
      assert buckets[..] == was[slot := Merge(was[slot], Single(boundaries, ns))];
      log := log + [Sample(shard, base, ns)];
    }

    /** The summary of the samples in the window ending at the newest second. */
    ghost function InWindow(): Summary
      reads this, buckets
      requires Valid()
    {
      Summarize(boundaries, log, Window(base, windowSec))
    }

    /** Adds the bucket counts of the window to out and returns its other figures. */
    method FoldLocked(sec: nat, out: array<nat>) returns (total: nat, sum: nat, min: nat, max: nat, hasMin: bool)
      requires Valid() && out.Length == |boundaries|
      modifies this`base, buckets, out
      ensures Valid() && base == Max(old(base), sec)
      ensures out[..] == Add(old(out[..]), InWindow().counts)
      ensures Summary(InWindow().counts, total, sum, min, max) == InWindow() && hasMin == (total > 0)
    {
      Advance(sec);
      RingFolds(boundaries, log, base, windowSec, buckets[..]);
      total, sum, min, max, hasMin := FoldCells(|boundaries|, buckets[..], out);
    }
  }

  /** The accumulation loop of a fold. */
  method FoldCells(m: nat, cells: seq<Summary>, out: array<nat>)
    returns (total: nat, sum: nat, min: nat, max: nat, hasMin: bool)
    requires out.Length == m && forall i :: 0 <= i < |cells| ==> Fits(cells[i], m)
    modifies out
    ensures var s := MergeCells(m, cells);
      out[..] == Add(old(out[..]), s.counts) && s == Summary(s.counts, total, sum, min, max) && hasMin == (total > 0)
  {
    total, sum, min, max, hasMin := 0, 0, 0, 0, false;
    var i := 0;
    assert out[..] == Add(out[..], Zero(m).counts);
    ghost var acc := Zero(m);
    while i < |cells|
      invariant 0 <= i <= |cells|
      invariant acc == MergeCells(m, cells[..i]) && acc == Summary(acc.counts, total, sum, min, max)
      invariant out[..] == Add(old(out[..]), acc.counts) && hasMin == (total > 0)
    {
      var b := cells[i];
      if b.total > 0 {
        if !hasMin || b.min < min {
          min := b.min;
          hasMin := true;
        }
        if b.max > max {
          max := b.max;
        }
      }
      total := total + b.total;
      sum := sum + b.sum;
      AddInto(out, b.counts);
      assert cells[..i + 1][..i] == cells[..i];
      assert Add(Add(old(out[..]), acc.counts), b.counts) == Add(old(out[..]), Merge(acc, b).counts);
      acc := Merge(acc, b);
      i := i + 1;
    }
    assert cells[..|cells|] == cells;
  }

  /** out[j] += counts[j] for every j. */
  method AddInto(out: array<nat>, counts: seq<nat>)
    requires out.Length == |counts|
    modifies out
    ensures out[..] == Add(old(out[..]), counts)
  {
    var j := 0;
    while j < out.Length
      invariant 0 <= j <= out.Length
      invariant forall k :: 0 <= k < j ==> out[k] == old(out[k]) + counts[k]
      invariant forall k :: j <= k < out.Length ==> out[k] == old(out[k])
    {
      out[j] := out[j] + counts[j];
      j := j + 1;
    }
  }

  /** One more sample in a bucket: the first one sets min and max. */
  function Bumped(b: Summary, bs: seq<int>, idx: nat, ns: nat): (r: Summary)
    requires bs != [] && Fits(b, |bs|) && idx == BucketIndex(bs, ns)
    ensures r == Merge(b, Single(bs, ns))
  {
    var counts := b.counts[idx := b.counts[idx] + 1];
    assert Add(b.counts, Single(bs, ns).counts) == counts;
    if b.total == 0 then Summary(counts, b.total + 1, b.sum + ns, ns, ns)
    else
      Summary(counts, b.total + 1, b.sum + ns, if ns < b.min then ns else b.min, if ns > b.max then ns else b.max)
  }
}
