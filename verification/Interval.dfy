/** Half-open intervals of integers, and merging. */
module Interval {
  import opened Sets
  import opened Arith

  datatype Interval = Interval(start: int, end: int)
  {
    // what New accepts
    predicate Valid() { start < end }
    predicate Contains(x: int) { x >= start && x < end }
    predicate Overlaps(o: Interval) { start < o.end && o.start < end }
    predicate Touches(o: Interval) { end == o.start || o.end == start }
  }

  /** The interval of the points of both, unless there is a gap between them. */
  function Union(i: Interval, o: Interval): (r: Option<Interval>)
    requires i.Valid() && o.Valid()
    ensures r.Some? ==> r.value.Valid() && forall x :: r.value.Contains(x) <==> i.Contains(x) || o.Contains(x)
    ensures r.None? ==> exists x :: Min(i.end, o.end) <= x < Max(i.start, o.start) && !i.Contains(x) && !o.Contains(x)
  {
    if !i.Overlaps(o) && !i.Touches(o)
    then
      assert !i.Contains(Min(i.end, o.end)) && !o.Contains(Min(i.end, o.end));
      None
    else Some(Interval(Min(i.start, o.start), Max(i.end, o.end)))
  }

  /** The interval of the common points, if there are any. */
  function Intersect(i: Interval, o: Interval): (r: Option<Interval>)
    requires i.Valid() && o.Valid()
    ensures r.Some? <==> exists x :: i.Contains(x) && o.Contains(x)
    ensures r.Some? ==> r.value.Valid() && forall x :: r.value.Contains(x) <==> i.Contains(x) && o.Contains(x)
    ensures r.Some? <==> i.Overlaps(o)
  {
    var (s, e) := (Max(i.start, o.start), Min(i.end, o.end));
    if s >= e then None
    else
      assert i.Contains(s) && o.Contains(s);
      Some(Interval(s, e))
  }

  // ----- What a list of intervals stands for -----

  ghost predicate AllValid(s: seq<Interval>) { forall i :: 0 <= i < |s| ==> s[i].Valid() }

  ghost predicate Covers(s: seq<Interval>, x: int)
  {
    exists i :: 0 <= i < |s| && s[i].Contains(x)
  }

  ghost predicate SamePoints(a: seq<Interval>, b: seq<Interval>)
  {
    forall x :: Covers(a, x) <==> Covers(b, x)
  }

  ghost predicate SortedByStart(s: seq<Interval>)
  {
    forall i, j :: 0 <= i < j < |s| ==> s[i].start <= s[j].start
  }

  /** Sorted, with a gap between neighbours. */
  ghost predicate Separated(s: seq<Interval>)
  {
    AllValid(s) && forall i, j :: 0 <= i < j < |s| ==> s[i].end < s[j].start
  }

  // ----- Merge -----

  /** sorted is what the unstable sort by start leaves of intervals. */
  method Merge(intervals: seq<Interval>, sorted: seq<Interval>) returns (merged: seq<Interval>)
    requires AllValid(intervals) && multiset(sorted) == multiset(intervals) && SortedByStart(sorted)
    ensures Separated(merged) && SamePoints(merged, intervals)
  {
    SortedPoints(intervals, sorted);
    if |intervals| == 0 {
      return [];
    }
    merged := [sorted[0]];
    var i := 1;
    while i < |sorted|
      invariant 1 <= i <= |sorted| && merged != []
      invariant Separated(merged) && SamePoints(merged, sorted[..i])
      invariant i < |sorted| ==> merged[|merged| - 1].start <= sorted[i].start
    {
      var cur, n := sorted[i], |merged| - 1;
      PrefixPoints(sorted, i, merged);
      if cur.start <= merged[n].end {
        ExtendPoints(merged, cur);
        if cur.end > merged[n].end {
          merged := merged[n := Interval(merged[n].start, cur.end)];
        }
      } else {
        merged := merged + [cur];
      }
      i := i + 1;
    }
    assert sorted[..|sorted|] == sorted;
  }

  lemma SortedPoints(intervals: seq<Interval>, sorted: seq<Interval>)
    requires AllValid(intervals) && multiset(sorted) == multiset(intervals)
    ensures |sorted| == |intervals| && AllValid(sorted) && SamePoints(sorted, intervals)
  {
    assert |multiset(sorted)| == |multiset(intervals)|;
    assert forall v :: v in sorted <==> v in multiset(sorted) <==> v in multiset(intervals) <==> v in intervals;
    assert forall i :: 0 <= i < |sorted| ==> sorted[i] in intervals;
    assert forall i :: 0 <= i < |intervals| ==> intervals[i] in sorted;
  }

  /** One interval more, appended. */
  lemma PrefixPoints(sorted: seq<Interval>, i: nat, merged: seq<Interval>)
    requires i < |sorted| && SamePoints(merged, sorted[..i])
    ensures SamePoints(merged + [sorted[i]], sorted[..i + 1])
  {
    forall x
      ensures Covers(merged + [sorted[i]], x) <==> Covers(sorted[..i + 1], x)
    {
      AppendPoint(merged, sorted[i], x);
      AppendPoint(sorted[..i], sorted[i], x);
      assert sorted[..i] + [sorted[i]] == sorted[..i + 1];
      assert Covers(merged, x) <==> Covers(sorted[..i], x);
    }
  }

  lemma AppendPoint(s: seq<Interval>, v: Interval, x: int)
    ensures Covers(s + [v], x) <==> Covers(s, x) || v.Contains(x)
  {
    if Covers(s, x) {
      var i :| 0 <= i < |s| && s[i].Contains(x);
      assert (s + [v])[i].Contains(x);
    }
    if v.Contains(x) {
      assert (s + [v])[|s|].Contains(x);
    }
  }

  /** Extending the last interval covers what appending would. */
  lemma ExtendPoints(merged: seq<Interval>, cur: Interval)
    requires merged != [] && cur.Valid()
    requires merged[|merged| - 1].Valid() && merged[|merged| - 1].start <= cur.start <= merged[|merged| - 1].end
    ensures var n := |merged| - 1;
      SamePoints(merged[n := Interval(merged[n].start, Max(merged[n].end, cur.end))], merged + [cur])
    ensures merged[|merged| - 1].end >= cur.end ==> SamePoints(merged, merged + [cur])
  {
    var n := |merged| - 1;
    var front, last := merged[..n], merged[n];
    var wide := Interval(last.start, Max(last.end, cur.end));
    assert merged == front + [last] && merged[n := wide] == front + [wide];
    forall x
      ensures Covers(front + [wide], x) <==> Covers(merged + [cur], x)
    {
      AppendPoint(front, wide, x);
      AppendPoint(merged, cur, x);
      AppendPoint(front, last, x);
    }
    if last.end >= cur.end {
      assert merged[n := wide] == merged;
    }
  }

  // ----- The result is the only one and the shortest -----

  /** Separated lists that cover the same points are equal. */
  lemma {:induction false} Canonical(a: seq<Interval>, b: seq<Interval>)
    requires Separated(a) && Separated(b) && SamePoints(a, b)
    ensures a == b
    decreases |a|
  {
    if b == [] {
      SameEmpty(a, b);
    } else if a == [] {
      SameEmpty(b, a);
    } else {
      FirstWithin(a, b);
      FirstWithin(b, a);
      TailPoints(a, b);
      Canonical(a[1..], b[1..]);
      assert a == [a[0]] + a[1..] && b == [b[0]] + b[1..];
    }
  }

  lemma SameEmpty(a: seq<Interval>, b: seq<Interval>)
    requires Separated(a) && SamePoints(a, b) && b == []
    ensures a == []
  {
    if a != [] {
      assert a[0].Contains(a[0].start);
      assert Covers(a, a[0].start);
    }
  }

  /** The first interval of b reaches at least as far, both ways, as that of a. */
  lemma FirstWithin(a: seq<Interval>, b: seq<Interval>)
    requires Separated(a) && Separated(b) && SamePoints(a, b) && a != [] && b != []
    ensures b[0].start <= a[0].start
    ensures a[0].start == b[0].start ==> a[0].end <= b[0].end
  {
    assert a[0].Contains(a[0].start) && Covers(a, a[0].start);
    assert Covers(b, a[0].start);
    GapUncovered(b, 0);
    assert !a[0].Contains(b[0].end) by {
      assert !Covers(a, b[0].end);
    }
  }

  lemma TailPoints(a: seq<Interval>, b: seq<Interval>)
    requires Separated(a) && Separated(b) && SamePoints(a, b) && a != [] && b != [] && a[0] == b[0]
    ensures SamePoints(a[1..], b[1..])
  {
    forall x
      ensures Covers(a[1..], x) <==> Covers(b[1..], x)
    {
      TailPoint(a, x);
      TailPoint(b, x);
      assert Covers(a, x) <==> Covers(b, x);
    }
  }

  lemma TailPoint(a: seq<Interval>, x: int)
    requires Separated(a) && a != []
    ensures Covers(a[1..], x) <==> Covers(a, x) && !a[0].Contains(x)
  {
    if Covers(a[1..], x) {
      var i :| 0 <= i < |a[1..]| && a[1..][i].Contains(x);
      assert a[i + 1].Contains(x) && a[0].end < a[i + 1].start;
    }
    if Covers(a, x) && !a[0].Contains(x) {
      var i :| 0 <= i < |a| && a[i].Contains(x);
      assert a[1..][i - 1].Contains(x);
    }
  }

  /** Merge depends only on the points: whatever the order and overlaps of the inputs, and
      whatever the sort did with equal starts. */
  lemma MergeCanonical(a: seq<Interval>, b: seq<Interval>, ma: seq<Interval>, mb: seq<Interval>)
    requires SamePoints(a, b)
    requires Separated(ma) && SamePoints(ma, a) && Separated(mb) && SamePoints(mb, b)
    ensures ma == mb
  {
    assert SamePoints(ma, mb);
    Canonical(ma, mb);
  }

  /** Merging a merged list changes nothing. */
  lemma MergeIdempotent(a: seq<Interval>, ma: seq<Interval>, mma: seq<Interval>)
    requires Separated(ma) && SamePoints(ma, a) && Separated(mma) && SamePoints(mma, ma)
    ensures mma == ma
  {
    Canonical(mma, ma);
  }

  /** No list that covers the same points is shorter. */
  lemma MergeShortest(a: seq<Interval>, m: seq<Interval>)
    requires Separated(m) && SamePoints(m, a)
    ensures |m| <= |a|
  {
    var js := Hosts(a, m, |m|);
    NoRepeatsFit(js, |a|);
  }

  /** Each interval of m starts inside another interval of a. */
  lemma {:induction false} Hosts(a: seq<Interval>, m: seq<Interval>, n: nat) returns (js: seq<nat>)
    requires Separated(m) && SamePoints(m, a) && n <= |m|
    ensures |js| == n
    ensures forall i :: 0 <= i < n ==> js[i] < |a| && a[js[i]].Contains(m[i].start)
    ensures NoRepeats(js)
  {
    js := [];
    if n > 0 {
      js := Hosts(a, m, n - 1);
      var v := m[n - 1];
      assert v.Contains(v.start) && Covers(m, v.start);
      assert Covers(a, v.start);
      var j: nat :| j < |a| && a[j].Contains(v.start);
      forall i | 0 <= i < n - 1
        ensures js[i] != j
      {
        GapUncovered(m, i);
        assert !a[j].Contains(m[i].end) by {
          assert !Covers(a, m[i].end);
        }
        assert m[i].end < v.start;
      }
      js := js + [j];
    }
  }

  lemma GapUncovered(m: seq<Interval>, i: nat)
    requires Separated(m) && i < |m|
    ensures !Covers(m, m[i].end)
  {
  }
}
