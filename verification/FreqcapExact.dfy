/** Exactly when the counter counts right: the eviction scans that leave stale events behind,
    read off the calls and their answers. */
module FreqcapExact {
  import opened Sets
  import opened Freqcap
  import opened FreqcapRuns

  // ----- What the calls say -----

  /** For one key: the cutoff of the last call that trimmed or scanned its slice, and the newest
      event it had when a scan last found it with both an expired and a live event. */
  datatype Mark = Mark(from: int, stale: Option<int>)

  /** The call scans the map: an Allow of a key without an allowed event in its window. */
  ghost predicate Scans(l: Limits, s: State, c: Call)
  {
    c.AllowCall? && forall t :: t in Granted(s, c.key) ==> t < l.Cutoff(c.now)
  }

  /** Events that expired since the last touch, and live ones. */
  ghost predicate Mixed(granted: seq<int>, from: int, cutoff: int)
  {
    (exists t :: t in granted && from <= t < cutoff) && exists t :: t in granted && cutoff <= t
  }

  ghost function Marked(m: Mark, granted: seq<int>, cutoff: int): Mark
  {
    Mark(cutoff, if Mixed(granted, m.from, cutoff) && granted != [] then Some(granted[|granted| - 1]) else m.stale)
  }

  ghost function MarkOf(l: Limits, start: int, calls: seq<Call>, key: string): Mark
  {
    if calls == [] then Mark(l.Cutoff(start), None)
    else
      var (init, c) := (calls[..|calls| - 1], calls[|calls| - 1]);
      var (m, s) := (MarkOf(l, start, init, key), After(l, start, init));
      if c.key == key then Mark(l.Cutoff(c.now), m.stale)
      else if Scans(l, s, c) then Marked(m, Granted(s, key), l.Cutoff(c.now))
      else m
  }

  /** Events left over by a scan are still shown from the cutoff on. */
  predicate Leftover(m: Mark, cutoff: int) { m.stale.Some? && m.stale.value >= cutoff }

  // ----- What a slice shows from each cutoff on -----

  ghost predicate Sorted(ts: seq<int>) { forall i, j :: 0 <= i < j < |ts| ==> ts[i] <= ts[j] }

  /** trimmed, the slice from d on, starts with the oldest allowed event from d on, and holds
      as many events as were allowed from d on, or more if a scan left some over. */
  ghost predicate ShowsAs(trimmed: seq<int>, granted: seq<int>, stale: Option<int>, d: int)
  {
    && (forall e :: e in granted && e >= d ==> trimmed != [] && trimmed[0] <= e)
    && (if stale.Some? && stale.value >= d then |trimmed| > Live(granted, d) else |trimmed| == Live(granted, d))
  }

  ghost predicate Shows(slice: seq<int>, granted: seq<int>, stale: Option<int>, d: int)
  {
    ShowsAs(Trimmed(slice, d), granted, stale, d)
  }

  ghost predicate Exact(slice: seq<int>, granted: seq<int>, m: Mark)
  {
    && (slice != [] ==> slice[0] >= m.from)
    && (forall t :: t in slice ==> t in granted)
    && Sorted(granted) && (m.stale.Some? ==> m.stale.value in granted)
    && forall d :: d >= m.from ==> Shows(slice, granted, m.stale, d)
  }

  // ----- Trimming -----

  lemma TrimTrim(ts: seq<int>, c: int, d: int)
    requires c <= d
    ensures Trimmed(Trimmed(ts, c), d) == Trimmed(ts, d)
  {
    TrimFrom(ts, First(ts, c), c, d, First(ts[First(ts, c)..], d));
  }

  lemma TrimFrom(ts: seq<int>, i: nat, c: int, d: int, j: nat)
    requires c <= d && i == First(ts, c) && j == First(ts[i..], d)
    ensures ts[i..][j..] == Trimmed(ts, d)
  {
    FirstFrom(ts, ts[i..], i, j, d);
    SliceOfSlice(ts, i, j);
  }

  lemma SliceOfSlice(ts: seq<int>, i: nat, j: nat)
    requires i + j <= |ts|
    ensures ts[i..][j..] == ts[i + j..]
  {
  }

  lemma FirstFrom(ts: seq<int>, tail: seq<int>, i: nat, j: nat, d: int)
    requires i <= |ts| && tail == ts[i..] && (forall k :: 0 <= k < i ==> ts[k] < d)
    requires j <= |tail| && (forall k :: 0 <= k < j ==> tail[k] < d) && (j < |tail| ==> tail[j] >= d)
    ensures First(ts, d) == i + j
  {
    forall k | 0 <= k < i + j
      ensures ts[k] < d
    {
      if k >= i {
        assert ts[k] == tail[k - i];
      }
    }
    assert j < |tail| ==> tail[j] == ts[i + j];
    FirstIs(ts, d, i + j);
  }

  lemma TrimConcat(a: seq<int>, b: seq<int>, d: int)
    ensures Trimmed(a + b, d) == if Trimmed(a, d) == [] then Trimmed(b, d) else Trimmed(a, d) + b
  {
    if First(a, d) == |a| {
      TrimPast(a, b, d, First(b, d));
    } else {
      TrimWithin(a, b, d, First(a, d));
    }
  }

  lemma TrimPast(a: seq<int>, b: seq<int>, d: int, j: nat)
    requires First(a, d) == |a| && j == First(b, d)
    ensures Trimmed(a + b, d) == b[j..]
  {
    var s := a + b;
    assert s[|a|..] == b && s[..|a|] == a;
    FirstFrom(s, b, |a|, j, d);
    SliceOfSlice(s, |a|, j);
  }

  lemma TrimWithin(a: seq<int>, b: seq<int>, d: int, i: nat)
    requires i == First(a, d) < |a|
    ensures Trimmed(a + b, d) == a[i..] + b
  {
    var s := a + b;
    FirstWithin(a, b, d, i);
    SliceOfSum(a, b, i);
  }

  lemma FirstWithin(a: seq<int>, b: seq<int>, d: int, i: nat)
    requires i < |a| && (forall k :: 0 <= k < i ==> a[k] < d) && a[i] >= d
    ensures First(a + b, d) == i
  {
    FirstIs(a + b, d, i);
  }

  lemma SliceOfSum(a: seq<int>, b: seq<int>, i: nat)
    requires i <= |a|
    ensures (a + b)[i..] == a[i..] + b
  {
  }

  lemma TrimmedIn(ts: seq<int>, d: int)
    ensures forall t :: t in Trimmed(ts, d) ==> t in ts
    ensures Trimmed(ts, d) != [] ==> Trimmed(ts, d)[0] >= d
    ensures Trimmed(ts, d) == [] ==> forall t :: t in ts ==> t < d
  {
  }

  lemma {:induction false} LiveZero(ts: seq<int>, d: int, j: nat)
    requires Live(ts, d) == 0 && j < |ts|
    ensures ts[j] < d
  {
    if j < |ts| - 1 {
      LiveZero(ts[..|ts| - 1], d, j);
    }
  }

  lemma LiveIff(ts: seq<int>, d: int)
    ensures Live(ts, d) == 0 <==> forall t :: t in ts ==> t < d
  {
    if Live(ts, d) == 0 {
      forall t | t in ts
        ensures t < d
      {
        var j: nat :| j < |ts| && ts[j] == t;
        LiveZero(ts, d, j);
      }
    }
    if forall t :: t in ts ==> t < d {
      assert forall j :: 0 <= j < |ts| ==> ts[j] in ts;
      LiveNone(ts, d);
    }
  }

  // ----- Each thing that happens to a slice -----

  lemma ExactTrimmed(slice: seq<int>, granted: seq<int>, m: Mark, cutoff: int)
    requires Exact(slice, granted, m) && cutoff >= m.from
    ensures Exact(Trimmed(slice, cutoff), granted, Mark(cutoff, m.stale))
  {
    TrimmedIn(slice, cutoff);
    forall d | d >= cutoff
      ensures Shows(Trimmed(slice, cutoff), granted, m.stale, d)
    {
      TrimTrim(slice, cutoff, d);
      assert Shows(slice, granted, m.stale, d);
    }
  }

  lemma ExactGrant(slice: seq<int>, granted: seq<int>, m: Mark, now: int)
    requires Exact(slice, granted, m) && m.from <= now && forall t :: t in granted ==> t <= now
    ensures Exact(slice + [now], granted + [now], m)
  {
    assert forall i :: 0 <= i < |granted| ==> granted[i] in granted;
    assert forall t :: t in slice + [now] ==> t in slice || t == now;
    assert now in granted + [now];
    var longer, more := slice + [now], granted + [now];
    forall d | d >= m.from
      ensures Shows(longer, more, m.stale, d)
    {
      assert Shows(slice, granted, m.stale, d);
      GrantedFrom(slice, granted, m.stale, d, now);
    }
  }

  lemma GrantedFrom(slice: seq<int>, granted: seq<int>, stale: Option<int>, d: int, now: int)
    requires Shows(slice, granted, stale, d) && (forall t :: t in granted ==> t <= now)
    requires (stale.Some? ==> stale.value in granted) && forall t :: t in slice ==> t in granted
    ensures Shows(slice + [now], granted + [now], stale, d)
  {
    TrimSnoc(slice, now, d);
    TrimmedHead(slice, granted, d);
    GrantShows(Trimmed(slice, d), granted, stale, d, now);
  }

  lemma TrimSnoc(ts: seq<int>, t: int, d: int)
    ensures Trimmed(ts + [t], d) == if Trimmed(ts, d) != [] then Trimmed(ts, d) + [t] else if t >= d then [t] else []
  {
    TrimConcat(ts, [t], d);
    TrimOne(t, d);
  }

  lemma TrimmedHead(slice: seq<int>, granted: seq<int>, d: int)
    requires forall t :: t in slice ==> t in granted
    ensures var trimmed := Trimmed(slice, d); trimmed != [] ==> trimmed[0] >= d && trimmed[0] in granted
  {
    TrimmedIn(slice, d);
    var trimmed := Trimmed(slice, d);
    assert trimmed != [] ==> trimmed[0] in trimmed;
  }

  lemma GrantShows(trimmed: seq<int>, granted: seq<int>, stale: Option<int>, d: int, now: int)
    requires ShowsAs(trimmed, granted, stale, d) && (forall t :: t in granted ==> t <= now)
    requires (stale.Some? ==> stale.value in granted) && (trimmed != [] ==> d <= trimmed[0] <= now)
    ensures ShowsAs(if trimmed != [] then trimmed + [now] else if now >= d then [now] else [],
        granted + [now], stale, d)
  {
    assert (granted + [now])[..|granted|] == granted;
    assert forall e :: e in granted + [now] <==> e in granted || e == now;
  }

  lemma TrimOne(t: int, d: int)
    ensures Trimmed([t], d) == if t >= d then [t] else []
  {
    FirstIs([t], d, if t >= d then 0 else 1);
  }

  /** What a scan makes of a slice. */
  function Scanned(slice: seq<int>, cutoff: int): seq<int>
  {
    if Trimmed(slice, cutoff) == [] then [] else Shifted(slice, cutoff)
  }

  lemma ExactScanned(slice: seq<int>, granted: seq<int>, m: Mark, cutoff: int)
    requires Exact(slice, granted, m) && cutoff >= m.from
    ensures Exact(Scanned(slice, cutoff), granted, Marked(m, granted, cutoff))
  {
    MixedIs(slice, granted, m, cutoff);
    ExactTrimmed(slice, granted, m, cutoff);
    var i := First(slice, cutoff);
    if i == 0 {
      assert slice[0..] + slice[|slice|..] == slice;
    } else if i < |slice| {
      ExactShifted(slice, granted, m, cutoff);
    }
  }

  /** A scan moves something exactly when the calls say so. */
  lemma MixedIs(slice: seq<int>, granted: seq<int>, m: Mark, cutoff: int)
    requires Exact(slice, granted, m) && cutoff >= m.from
    ensures Mixed(granted, m.from, cutoff) <==> 0 < First(slice, cutoff) < |slice|
  {
    assert Shows(slice, granted, m.stale, m.from) && Shows(slice, granted, m.stale, cutoff);
    TrimmedIn(slice, cutoff);
    assert slice != [] ==> First(slice, m.from) == 0;
    assert First(slice, cutoff) > 0 ==> slice[0] in granted && slice[0] < cutoff;
    assert First(slice, cutoff) < |slice| ==> Trimmed(slice, cutoff)[0] in slice;
  }

  lemma ExactShifted(slice: seq<int>, granted: seq<int>, m: Mark, cutoff: int)
    requires Exact(slice, granted, m) && cutoff >= m.from && 0 < First(slice, cutoff) < |slice|
    ensures granted != [] && Exact(Shifted(slice, cutoff), granted, Mark(cutoff, Some(granted[|granted| - 1])))
  {
    var i := First(slice, cutoff);
    TrimmedIn(slice, cutoff);
    assert slice[0] in granted;
    var kept, tail, both := slice[i..], slice[|slice| - i..], Shifted(slice, cutoff);
    var newest := Some(granted[|granted| - 1]);
    assert forall t :: t in tail ==> t in slice;
    assert forall t :: t in kept ==> t in slice;
    assert both == kept + tail && both[0] == kept[0];
    assert forall t :: t in both ==> t in kept || t in tail;
    forall d | d >= cutoff
      ensures Shows(both, granted, newest, d)
    {
      assert Shows(slice, granted, m.stale, d);
      ShiftedFrom(slice, kept, tail, granted, m.stale, cutoff, d);
    }
  }

  lemma ShiftedFrom(slice: seq<int>, kept: seq<int>, tail: seq<int>, granted: seq<int>,
      stale: Option<int>, cutoff: int, d: int)
    requires d >= cutoff && kept == Trimmed(slice, cutoff) && tail != [] && Shows(slice, granted, stale, d)
    requires Sorted(granted) && granted != []
    requires (forall t :: t in tail ==> t in granted) && forall t :: t in kept ==> t in granted
    ensures Shows(kept + tail, granted, Some(granted[|granted| - 1]), d)
  {
    TrimTrim(slice, cutoff, d);
    TrimConcat(kept, tail, d);
    TrimmedIn(kept, d);
    TailGone(tail, granted, d);
    var trimmed := Trimmed(kept, d);
    assert trimmed != [] ==> trimmed[0] in trimmed;
    ShiftShows(trimmed, tail, granted, stale, d);
  }

  lemma TailGone(tail: seq<int>, granted: seq<int>, d: int)
    requires Sorted(granted) && granted != [] && forall t :: t in tail ==> t in granted
    ensures granted[|granted| - 1] < d ==> Trimmed(tail, d) == [] && forall t :: t in granted ==> t < d
  {
    if granted[|granted| - 1] < d {
      assert forall j :: 0 <= j < |tail| ==> tail[j] in tail;
      FirstIs(tail, d, |tail|);
    }
  }

  lemma ShiftShows(trimmed: seq<int>, tail: seq<int>, granted: seq<int>, stale: Option<int>, d: int)
    requires ShowsAs(trimmed, granted, stale, d) && tail != [] && granted != []
    requires trimmed != [] ==> exists t :: t in granted && t >= d
    requires granted[|granted| - 1] < d ==> Trimmed(tail, d) == [] && forall t :: t in granted ==> t < d
    ensures ShowsAs(if trimmed == [] then Trimmed(tail, d) else trimmed + tail,
        granted, Some(granted[|granted| - 1]), d)
  {
    LiveIff(granted, d);
    assert granted[|granted| - 1] in granted;
  }

  // ----- What each call does to the slice of each key -----

  lemma CountSlice(v: View, key: string, cutoff: int, k: string)
    ensures Shown(Counted(v, key, cutoff).1, k) == if k == key then Trimmed(Shown(v, k), cutoff) else Shown(v, k)
  {
  }

  lemma ScanSlice(v: View, cutoff: int, k: string)
    ensures Shown(Evicted(v, cutoff), k) == Scanned(Shown(v, k), cutoff)
  {
  }

  lemma StoreSlice(v: View, key: string, ts: seq<int>, k: string)
    ensures Shown(v[key := ts], k) == if k == key then ts else Shown(v, k)
  {
  }

  lemma AdmitSlice(l: Limits, w: View, key: string, now: int, k: string)
    ensures var r := Admitted(l, w, key, now); Shown(r.1, k) == if k == key && r.0 then [now] else Shown(w, k)
  {
  }

  // ----- Runs -----

  ghost predicate ExactAt(l: Limits, start: int, calls: seq<Call>, k: string)
  {
    var s, m := After(l, start, calls), MarkOf(l, start, calls, k);
    Exact(Shown(s.view, k), Granted(s, k), m) && m.from <= l.Cutoff(s.clock)
  }

  /** A slice is drained from the cutoff on exactly when no allowed event is left there. */
  lemma DrainedIff(slice: seq<int>, granted: seq<int>, m: Mark, cutoff: int)
    requires Exact(slice, granted, m) && cutoff >= m.from
    ensures Trimmed(slice, cutoff) == [] <==> forall t :: t in granted ==> t < cutoff
  {
    assert Shows(slice, granted, m.stale, cutoff);
    TrimmedHead(slice, granted, cutoff);
  }

  lemma CountExact(v: View, granted: seq<int>, m: Mark, key: string, cutoff: int, k: string)
    requires m.from <= cutoff && Exact(Shown(v, k), granted, m)
    ensures Exact(Shown(Counted(v, key, cutoff).1, k), granted, if key == k then Mark(cutoff, m.stale) else m)
  {
    CountSlice(v, key, cutoff, k);
    ExactTrimmed(Shown(v, k), granted, m, cutoff);
  }

  lemma AllowExactOwn(l: Limits, s: State, m: Mark, key: string, now: int)
    requires l.Valid() && Inv(l, s) && s.clock <= now && m.from <= l.Cutoff(now)
    requires Exact(Shown(s.view, key), Granted(s, key), m)
    ensures var t := Do(l, s, AllowCall(key, now));
      Exact(Shown(t.view, key), Granted(t, key), Mark(l.Cutoff(now), m.stale))
  {
    var cutoff := l.Cutoff(now);
    var trimmed, granted := Trimmed(Shown(s.view, key), cutoff), Granted(s, key);
    var r := Decided(l, s.view, trimmed, key, now, cutoff);
    if trimmed == [] {
      ScanSlice(s.view, cutoff, key);
      AdmitSlice(l, Evicted(s.view, cutoff), key, now, key);
      assert trimmed + [now] == [now];
    } else {
      StoreSlice(s.view, key, trimmed, key);
      StoreSlice(s.view, key, trimmed + [now], key);
    }
    assert Shown(r.1, key) == trimmed + (if r.0 then [now] else []);
    GrantedAnswered(s, key, now, r, key);
    ExactTrimmed(Shown(s.view, key), granted, m, cutoff);
    if r.0 {
      assert Keeps(l, Shown(s.view, key), granted, s.clock);
      ExactGrant(trimmed, granted, Mark(cutoff, m.stale), now);
    } else {
      assert trimmed + [] == trimmed;
    }
  }

  lemma AllowExactOther(l: Limits, s: State, m: Mark, own: Mark, key: string, now: int, k: string)
    requires l.Valid() && k != key && m.from <= l.Cutoff(now) && Exact(Shown(s.view, k), Granted(s, k), m)
    requires own.from <= l.Cutoff(now) && Exact(Shown(s.view, key), Granted(s, key), own)
    ensures var t := Do(l, s, AllowCall(key, now));
      Exact(Shown(t.view, k), Granted(t, k),
        if Scans(l, s, AllowCall(key, now)) then Marked(m, Granted(s, k), l.Cutoff(now)) else m)
  {
    var cutoff := l.Cutoff(now);
    var trimmed := Trimmed(Shown(s.view, key), cutoff);
    var r := Decided(l, s.view, trimmed, key, now, cutoff);
    if trimmed == [] {
      ScanSlice(s.view, cutoff, k);
      AdmitSlice(l, Evicted(s.view, cutoff), key, now, k);
    } else {
      StoreSlice(s.view, key, trimmed, k);
      StoreSlice(s.view, key, trimmed + [now], k);
    }
    GrantedAnswered(s, key, now, r, k);
    DrainedIff(Shown(s.view, key), Granted(s, key), own, cutoff);
    ExactScanned(Shown(s.view, k), Granted(s, k), m, cutoff);
  }

  lemma {:induction false} RunsExact(l: Limits, start: int, calls: seq<Call>, k: string)
    requires l.Valid() && Ordered(start, calls)
    ensures ExactAt(l, start, calls, k)
  {
    if calls == [] {
      EmptyExact(l.Cutoff(start));
    } else {
      var init, c := calls[..|calls| - 1], calls[|calls| - 1];
      RunsExact(l, start, init, k);
      RunsExact(l, start, init, c.key);
      RunsKeepInv(l, start, init);
      StepExact(l, start, calls, k);
    }
  }

  lemma EmptyExact(from: int)
    ensures Exact([], [], Mark(from, None))
  {
  }

  lemma StepExact(l: Limits, start: int, calls: seq<Call>, k: string)
    requires l.Valid() && calls != []
    requires var (init, c) := (calls[..|calls| - 1], calls[|calls| - 1]);
      && Clock(start, init) <= c.now && ExactAt(l, start, init, k) && ExactAt(l, start, init, c.key)
      && Inv(l, After(l, start, init)) && After(l, start, init).clock == Clock(start, init)
    ensures ExactAt(l, start, calls, k)
  {
    var init, c := calls[..|calls| - 1], calls[|calls| - 1];
    var s, m, own := After(l, start, init), MarkOf(l, start, init, k), MarkOf(l, start, init, c.key);
    match c
    case CountCall(key, now) => CountExact(s.view, Granted(s, k), m, key, l.Cutoff(now), k);
    case AllowCall(key, now) =>
      if k == key {
        AllowExactOwn(l, s, m, key, now);
      } else {
        AllowExactOther(l, s, m, own, key, now, k);
      }
  }

  // ----- Main results -----

  /** Count is the number of allowed events in the window if and only if nothing that a scan
      left over is shown: no scan that found the key with both an expired and a live event, or
      all the events it found have expired. Otherwise it is more. */
  lemma CountExactIff(l: Limits, start: int, calls: seq<Call>, key: string, now: int)
    requires l.Valid() && Ordered(start, calls) && Clock(start, calls) <= now
    ensures var s := After(l, start, calls);
      !Leftover(MarkOf(l, start, calls, key), l.Cutoff(now)) ==>
        Showing(s.view, key, l.Cutoff(now)) == Within(Granted(s, key), l.Cutoff(now), now)
    ensures var s := After(l, start, calls);
      Leftover(MarkOf(l, start, calls, key), l.Cutoff(now)) ==>
        Showing(s.view, key, l.Cutoff(now)) > Within(Granted(s, key), l.Cutoff(now), now)
  {
    RunsExact(l, start, calls, key);
    RunsKeepInv(l, start, calls);
    var s, m := After(l, start, calls), MarkOf(l, start, calls, key);
    assert Shows(Shown(s.view, key), Granted(s, key), m.stale, l.Cutoff(now));
    assert Keeps(l, Shown(s.view, key), Granted(s, key), s.clock);
    WithinIsLive(Granted(s, key), l.Cutoff(now), now);
  }

  lemma {:induction false} WithinIsLive(ts: seq<int>, from: int, end: int)
    requires forall t :: t in ts ==> t <= end
    ensures Within(ts, from, end) == Live(ts, from)
  {
    if ts != [] {
      var init := ts[..|ts| - 1];
      assert ts[|ts| - 1] in ts;
      forall t | t in init
        ensures t <= end
      {
        assert t in ts;
      }
      WithinIsLive(init, from, end);
    }
  }

  /** The keys that have an allowed event in the window that ends at now. */
  ghost function LiveKeys(l: Limits, s: State, now: int): set<string>
  {
    set k | k in s.granted && exists t :: t in s.granted[k] && t >= l.Cutoff(now)
  }

  /** Eviction leaves exactly the keys with an allowed event in the window. */
  lemma EvictionLeavesLive(l: Limits, start: int, calls: seq<Call>, now: int)
    requires l.Valid() && Ordered(start, calls) && Clock(start, calls) <= now
    ensures var s := After(l, start, calls); Evicted(s.view, l.Cutoff(now)).Keys == LiveKeys(l, s, now)
  {
    var s := After(l, start, calls);
    RunsKeepInv(l, start, calls);
    forall k
      ensures k in Evicted(s.view, l.Cutoff(now)) <==> k in LiveKeys(l, s, now)
    {
      RunsExact(l, start, calls, k);
      DrainedIff(Shown(s.view, k), Granted(s, k), MarkOf(l, start, calls, k), l.Cutoff(now));
      LeftIs(s.view, l.Cutoff(now), k);
    }
  }

  lemma LeftIs(v: View, cutoff: int, k: string)
    ensures k in Evicted(v, cutoff) <==> Trimmed(Shown(v, k), cutoff) != []
  {
  }

  /** An event is refused exactly when Count would say maxEvents or more, or would say 0 while
      maxKeys keys or more have an allowed event in the window. */
  lemma RefusedIff(l: Limits, start: int, calls: seq<Call>, key: string, now: int)
    requires l.Valid() && Ordered(start, calls) && Clock(start, calls) <= now
    ensures var s := After(l, start, calls);
      var n := Showing(s.view, key, l.Cutoff(now));
      !Allowed(l, s.view, key, now, l.Cutoff(now)).0 <==>
        n >= l.maxEvents || (n == 0 && 0 < l.maxKeys <= |LiveKeys(l, s, now)|)
  {
    var s := After(l, start, calls);
    EvictionLeavesLive(l, start, calls, now);
    DecidedIff(l, s.view, Trimmed(Shown(s.view, key), l.Cutoff(now)), key, now, l.Cutoff(now));
  }

  /** With nothing left over an event is refused exactly when the window holds maxEvents allowed
      events of the key, or none while maxKeys keys or more have one: as the description says. */
  lemma AllowExact(l: Limits, start: int, calls: seq<Call>, key: string, now: int)
    requires l.Valid() && Ordered(start, calls) && Clock(start, calls) <= now
    requires !Leftover(MarkOf(l, start, calls, key), l.Cutoff(now))
    ensures var s := After(l, start, calls);
      var n := Within(Granted(s, key), l.Cutoff(now), now);
      !Allowed(l, s.view, key, now, l.Cutoff(now)).0 <==>
        n >= l.maxEvents || (n == 0 && 0 < l.maxKeys <= |LiveKeys(l, s, now)|)
  {
    CountExactIff(l, start, calls, key, now);
    RefusedIff(l, start, calls, key, now);
  }

  /** A key under its cap that has an event in the window is refused if and only if Count says
      maxEvents, and then something left over is shown. */
  lemma UnderCapRefusedIff(l: Limits, start: int, calls: seq<Call>, key: string, now: int)
    requires l.Valid() && Ordered(start, calls) && Clock(start, calls) <= now
    requires 0 < Within(Granted(After(l, start, calls), key), l.Cutoff(now), now) < l.maxEvents
    ensures var s := After(l, start, calls);
      && (!Allowed(l, s.view, key, now, l.Cutoff(now)).0 <==> Showing(s.view, key, l.Cutoff(now)) >= l.maxEvents)
      && (!Allowed(l, s.view, key, now, l.Cutoff(now)).0 ==> Leftover(MarkOf(l, start, calls, key), l.Cutoff(now)))
  {
    CountBounds(l, start, calls, key, now);
    CountExactIff(l, start, calls, key, now);
    RefusedIff(l, start, calls, key, now);
  }

  /** Which keys are tracked after a call. Count drops its key exactly when no allowed event of it is
      left in the window, and touches no other. Allow of a key with nothing to show leaves exactly
      the keys with an allowed event in the window, and its own if it is allowed; of another key it
      leaves the tracked keys as they are. */
  lemma TrackedKeys(l: Limits, start: int, calls: seq<Call>, key: string, now: int)
    requires l.Valid() && Ordered(start, calls) && Clock(start, calls) <= now
    ensures var (s, cutoff) := (After(l, start, calls), l.Cutoff(now));
      && Counted(s.view, key, cutoff).1.Keys == s.view.Keys - (if key in LiveKeys(l, s, now) then {} else {key})
      && var (ok, v) := Allowed(l, s.view, key, now, cutoff);
         v.Keys == if Showing(s.view, key, cutoff) > 0 then s.view.Keys
                   else LiveKeys(l, s, now) + (if ok then {key} else {})
  {
    var s, cutoff := After(l, start, calls), l.Cutoff(now);
    EvictionLeavesLive(l, start, calls, now);
    LeftIs(s.view, cutoff, key);
    CountedKeys(s.view, key, cutoff);
    DecidedKeys(l, s.view, Trimmed(Shown(s.view, key), cutoff), key, now, cutoff);
  }

  lemma CountedKeys(v: View, key: string, cutoff: int)
    ensures Counted(v, key, cutoff).1.Keys == v.Keys - (if Trimmed(Shown(v, key), cutoff) != [] then {} else {key})
  {
    if key !in v {
      assert Trimmed([], cutoff) == [];
    } else {
      StoredKeys(v, key, Trimmed(v[key], cutoff));
    }
  }

  lemma StoredKeys(v: View, key: string, ts: seq<int>)
    requires key in v
    ensures v[key := ts].Keys == v.Keys && (v - {key}).Keys == v.Keys - {key}
  {
  }

  lemma DecidedKeys(l: Limits, v: View, trimmed: seq<int>, key: string, now: int, cutoff: int)
    requires l.Valid()
    ensures var (ok, w) := Decided(l, v, trimmed, key, now, cutoff);
      w.Keys == if trimmed != [] then v.Keys + {key} else Evicted(v, cutoff).Keys + (if ok then {key} else {})
  {
  }
}
