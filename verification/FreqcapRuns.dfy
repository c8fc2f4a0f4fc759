/** What the counter promises over whole runs with a clock that never goes back, although
    eviction leaves stale, unordered events in the slices. */
module FreqcapRuns {

  import opened Freqcap

  /** Number of events not before d. */
  function Live(ts: seq<int>, d: int): (n: nat)
    ensures n <= |ts|
  {
    if ts == [] then 0 else Live(ts[..|ts| - 1], d) + if ts[|ts| - 1] >= d then 1 else 0
  }

  /** Number of events in the closed window [from, to]. */
  function Within(ts: seq<int>, from: int, to: int): nat
  {
    if ts == [] then 0 else Within(ts[..|ts| - 1], from, to) + if from <= ts[|ts| - 1] <= to then 1 else 0
  }

  // ----- Runs -----

  datatype Call = AllowCall(key: string, now: int) | CountCall(key: string, now: int)

  /** The counter's contents and, beside them, the times at which each key was allowed. */
  datatype State = State(view: View, granted: map<string, seq<int>>, clock: int)

  function Granted(s: State, key: string): seq<int> { if key in s.granted then s.granted[key] else [] }

  function Answered(s: State, key: string, now: int, r: (bool, View)): State
  {
    State(r.1, if r.0 then s.granted[key := Granted(s, key) + [now]] else s.granted, now)
  }

  function Do(l: Limits, s: State, c: Call): State
  {
    match c
    case AllowCall(key, now) => Answered(s, key, now, Allowed(l, s.view, key, now, l.Cutoff(now)))
    case CountCall(key, now) =>
      State(Counted(s.view, key, l.Cutoff(now)).1, s.granted, now)
  }

  /** The state after the calls on a new counter. */
  function After(l: Limits, start: int, calls: seq<Call>): State
  {
    if calls == [] then State(map[], map[], start)
    else Do(l, After(l, start, calls[..|calls| - 1]), calls[|calls| - 1])
  }

  /** The clock never goes back. */
  predicate Ordered(start: int, calls: seq<Call>)
  {
    calls != [] ==> Ordered(start, calls[..|calls| - 1]) && Clock(start, calls[..|calls| - 1]) <= Clock(start, calls)
  }

  function Clock(start: int, calls: seq<Call>): int { if calls == [] then start else calls[|calls| - 1].now }

  // ----- The invariant of one key -----

  /** The slice shows at least the granted events that are still in the window, shows only
      granted events, and never more than the cap; the granted events respect the cap. */
  ghost predicate Keeps(l: Limits, slice: seq<int>, granted: seq<int>, clock: int)
  {
    && (forall d :: d >= clock - l.window ==> Live(granted, d) <= Live(slice, d))
    && (forall t :: t in slice ==> t in granted)
    && |slice| <= l.maxEvents
    && (forall t :: t in granted ==> t <= clock)
    && Capped(l, granted)
  }

  ghost predicate Capped(l: Limits, granted: seq<int>)
  {
    forall x, y :: y <= x + l.window ==> Within(granted, x, y) <= l.maxEvents
  }

  ghost predicate Inv(l: Limits, s: State)
  {
    && l.Valid()
    && forall k :: Keeps(l, Shown(s.view, k), Granted(s, k), s.clock)
  }

  // ----- Counting -----

  lemma {:induction false} LiveConcat(a: seq<int>, b: seq<int>, d: int)
    ensures Live(a + b, d) == Live(a, d) + Live(b, d)
  {
    if b == [] {
      assert a + b == a;
    } else {
      LiveConcat(a, b[..|b| - 1], d);
      assert (a + b)[..|a + b| - 1] == a + b[..|b| - 1];
    }
  }

  lemma {:induction false} LiveNone(ts: seq<int>, d: int)
    requires forall j :: 0 <= j < |ts| ==> ts[j] < d
    ensures Live(ts, d) == 0
  {
    if ts != [] {
      LiveNone(ts[..|ts| - 1], d);
    }
  }

  lemma {:induction false} LiveFewer(ts: seq<int>, d: int, e: int)
    requires d <= e
    ensures Live(ts, e) <= Live(ts, d)
  {
    if ts != [] {
      LiveFewer(ts[..|ts| - 1], d, e);
    }
  }

  lemma {:induction false} WithinLive(ts: seq<int>, from: int, to: int)
    ensures Within(ts, from, to) <= Live(ts, from)
  {
    if ts != [] {
      WithinLive(ts[..|ts| - 1], from, to);
    }
  }

  /** Trimming loses no event of the window. */
  lemma TrimmedLive(ts: seq<int>, cutoff: int, d: int)
    requires d >= cutoff
    ensures Live(Trimmed(ts, cutoff), d) == Live(ts, d)
  {
    var i := First(ts, cutoff);
    assert ts == ts[..i] + ts[i..];
    LiveConcat(ts[..i], ts[i..], d);
    LiveNone(ts[..i], d);
  }

  lemma ShiftedLive(ts: seq<int>, cutoff: int, d: int)
    requires d >= cutoff
    ensures Live(Shifted(ts, cutoff), d) >= Live(ts, d)
  {
    var i := First(ts, cutoff);
    TrimmedLive(ts, cutoff, d);
    LiveConcat(ts[i..], ts[|ts| - i..], d);
  }

  // ----- Every operation keeps the invariant of each key -----

  lemma KeepsLater(l: Limits, slice: seq<int>, granted: seq<int>, clock: int, now: int)
    requires Keeps(l, slice, granted, clock) && clock <= now
    ensures Keeps(l, slice, granted, now)
  {
  }

  lemma KeepsTrimmed(l: Limits, slice: seq<int>, granted: seq<int>, now: int)
    requires Keeps(l, slice, granted, now)
    ensures Keeps(l, Trimmed(slice, l.Cutoff(now)), granted, now)
  {
    forall d | d >= l.Cutoff(now)
      ensures Live(granted, d) <= Live(Trimmed(slice, l.Cutoff(now)), d)
    {
      TrimmedLive(slice, l.Cutoff(now), d);
    }
  }

  lemma KeepsShifted(l: Limits, slice: seq<int>, granted: seq<int>, now: int)
    requires Keeps(l, slice, granted, now)
    ensures Keeps(l, Shifted(slice, l.Cutoff(now)), granted, now)
  {
    forall d | d >= l.Cutoff(now)
      ensures Live(granted, d) <= Live(Shifted(slice, l.Cutoff(now)), d)
    {
      ShiftedLive(slice, l.Cutoff(now), d);
    }
  }

  /** Eviction keeps a key, or drops one whose events have all left the window. */
  lemma KeepsEvicted(l: Limits, v: View, k: string, granted: seq<int>, now: int)
    requires Keeps(l, Shown(v, k), granted, now)
    ensures Keeps(l, Shown(Evicted(v, l.Cutoff(now)), k), granted, now)
  {
    if k in v {
      if Trimmed(v[k], l.Cutoff(now)) == [] {
        KeepsTrimmed(l, v[k], granted, now);
      } else {
        KeepsShifted(l, v[k], granted, now);
      }
    }
  }

  /** One more event below the cap: every closed window still holds at most maxEvents. */
  lemma KeepsGrant(l: Limits, slice: seq<int>, granted: seq<int>, now: int)
    requires Keeps(l, slice, granted, now) && |slice| < l.maxEvents
    ensures Keeps(l, slice + [now], granted + [now], now)
  {
    var more := granted + [now];
    assert more[..|more| - 1] == granted && (slice + [now])[..|slice|] == slice;
    forall x, y | y <= x + l.window
      ensures Within(more, x, y) <= l.maxEvents
    {
      if x <= now <= y {
        WithinLive(granted, x, y);
        assert Live(granted, x) <= Live(slice, x);
      }
    }
  }

  /** The key of the call itself. */
  lemma AllowKeepsOwn(l: Limits, v: View, key: string, granted: seq<int>, now: int)
    requires l.Valid() && Keeps(l, Shown(v, key), granted, now)
    ensures var r := Allowed(l, v, key, now, l.Cutoff(now));
      Keeps(l, Shown(r.1, key), if r.0 then granted + [now] else granted, now)
  {
    KeepsTrimmed(l, Shown(v, key), granted, now);
    KeepsEvicted(l, v, key, granted, now);
    DecidedKeeps(l, v, Trimmed(Shown(v, key), l.Cutoff(now)), key, granted, now, l.Cutoff(now));
  }

  lemma DecidedKeeps(l: Limits, v: View, trimmed: seq<int>, key: string, granted: seq<int>, now: int, cutoff: int)
    requires l.Valid() && Keeps(l, trimmed, granted, now) && Keeps(l, Shown(Evicted(v, cutoff), key), granted, now)
    ensures var r := Decided(l, v, trimmed, key, now, cutoff);
      Keeps(l, Shown(r.1, key), if r.0 then granted + [now] else granted, now)
  {
    if |trimmed| < l.maxEvents {
      KeepsGrant(l, trimmed, granted, now);
      if trimmed == [] {
        AdmittedKeeps(l, Evicted(v, cutoff), key, granted, now);
      }
    }
  }

  lemma AdmittedKeeps(l: Limits, w: View, key: string, granted: seq<int>, now: int)
    requires l.Valid() && Keeps(l, Shown(w, key), granted, now) && Keeps(l, [] + [now], granted + [now], now)
    ensures var r := Admitted(l, w, key, now);
      Keeps(l, Shown(r.1, key), if r.0 then granted + [now] else granted, now)
  {
  }

  /** Any other key. */
  lemma AllowKeepsOther(l: Limits, v: View, key: string, k: string, granted: seq<int>, now: int)
    requires l.Valid() && k != key && Keeps(l, Shown(v, k), granted, now)
    ensures Keeps(l, Shown(Allowed(l, v, key, now, l.Cutoff(now)).1, k), granted, now)
  {
    KeepsEvicted(l, v, k, granted, now);
  }

  lemma AllowKeeps(l: Limits, s: State, key: string, now: int, k: string, r: (bool, View))
    requires l.Valid() && Keeps(l, Shown(s.view, k), Granted(s, k), s.clock) && s.clock <= now
    requires r == Allowed(l, s.view, key, now, l.Cutoff(now))
    ensures Keeps(l, Shown(r.1, k), Granted(Answered(s, key, now, r), k), now)
  {
    KeepsLater(l, Shown(s.view, k), Granted(s, k), s.clock, now);
    if k == key {
      AllowKeepsOwn(l, s.view, key, Granted(s, key), now);
    } else {
      AllowKeepsOther(l, s.view, key, k, Granted(s, k), now);
    }
    GrantedAnswered(s, key, now, r, k);
  }

  lemma GrantedAnswered(s: State, key: string, now: int, r: (bool, View), k: string)
    ensures Granted(Answered(s, key, now, r), k) == if r.0 && k == key then Granted(s, k) + [now] else Granted(s, k)
  {
  }

  lemma CountKeeps(l: Limits, s: State, key: string, now: int, k: string)
    requires Inv(l, s) && s.clock <= now
    ensures var t := Do(l, s, CountCall(key, now));
      Keeps(l, Shown(t.view, k), Granted(t, k), now)
  {
    KeepsLater(l, Shown(s.view, k), Granted(s, k), s.clock, now);
    KeepsTrimmed(l, Shown(s.view, k), Granted(s, k), now);
  }

  lemma InvAnswered(l: Limits, s: State, key: string, now: int, r: (bool, View))
    requires Inv(l, s) && s.clock <= now
    requires r == Allowed(l, s.view, key, now, l.Cutoff(now))
    ensures Inv(l, Answered(s, key, now, r))
  {
    var t := Answered(s, key, now, r);
    forall k
      ensures Keeps(l, Shown(t.view, k), Granted(t, k), t.clock)
    {
      AllowKeeps(l, s, key, now, k, r);
    }
  }

  lemma InvDo(l: Limits, s: State, c: Call)
    requires Inv(l, s) && s.clock <= c.now
    ensures Inv(l, Do(l, s, c))
  {
    match c
    case AllowCall(key, now) =>
      InvAnswered(l, s, key, now, Allowed(l, s.view, key, now, l.Cutoff(now)));
    case CountCall(key, now) =>
      var t := Do(l, s, c);
      forall k
        ensures Keeps(l, Shown(t.view, k), Granted(t, k), t.clock)
      {
        CountKeeps(l, s, key, now, k);
      }
  }

  lemma {:induction false} RunsKeepInv(l: Limits, start: int, calls: seq<Call>)
    requires l.Valid() && Ordered(start, calls)
    ensures Inv(l, After(l, start, calls)) && After(l, start, calls).clock == Clock(start, calls)
  {
    if calls != [] {
      RunsKeepInv(l, start, calls[..|calls| - 1]);
      InvDo(l, After(l, start, calls[..|calls| - 1]), calls[|calls| - 1]);
    }
  }

  // ----- What a caller is promised -----

  /** No key is ever allowed more than maxEvents events in any closed window. */
  lemma CapHolds(l: Limits, start: int, calls: seq<Call>, key: string, x: int)
    requires l.Valid() && Ordered(start, calls)
    ensures Within(Granted(After(l, start, calls), key), x, x + l.window) <= l.maxEvents
  {
    RunsKeepInv(l, start, calls);
    var s := After(l, start, calls);
    assert Keeps(l, Shown(s.view, key), Granted(s, key), s.clock);
  }

  lemma KeptCount(l: Limits, slice: seq<int>, granted: seq<int>, now: int)
    requires Keeps(l, slice, granted, now)
    ensures Within(granted, l.Cutoff(now), now) <= |Trimmed(slice, l.Cutoff(now))| <= l.maxEvents
  {
    KeepsTrimmed(l, slice, granted, now);
    WithinLive(granted, l.Cutoff(now), now);
    assert Live(granted, l.Cutoff(now)) <= Live(Trimmed(slice, l.Cutoff(now)), l.Cutoff(now));
  }

  /** Count lies between the number of allowed events still in the window and the cap. */
  lemma CountBounds(l: Limits, start: int, calls: seq<Call>, key: string, now: int)
    requires l.Valid() && Ordered(start, calls) && Clock(start, calls) <= now
    ensures var s := After(l, start, calls);
      Within(Granted(s, key), l.Cutoff(now), now) <= Counted(s.view, key, l.Cutoff(now)).0 <= l.maxEvents
  {
    RunsKeepInv(l, start, calls);
    var s := After(l, start, calls);
    var slice, granted := Shown(s.view, key), Granted(s, key);
    KeepsLater(l, slice, granted, s.clock, now);
    KeptCount(l, slice, granted, now);
  }

  lemma DecidedIff(l: Limits, v: View, trimmed: seq<int>, key: string, now: int, cutoff: int)
    requires l.Valid()
    ensures !Decided(l, v, trimmed, key, now, cutoff).0 <==>
      |trimmed| >= l.maxEvents || (|trimmed| == 0 && 0 < l.maxKeys <= |Evicted(v, cutoff).Keys|)
  {
    AdmittedIff(l, Evicted(v, cutoff), key, now);
  }

  lemma AdmittedIff(l: Limits, w: View, key: string, now: int)
    ensures !Admitted(l, w, key, now).0 <==> 0 < l.maxKeys <= |w.Keys|
  {
    assert |w.Keys| == |w|;
  }

  /** The count can exceed the number of events in the window, and a key under its cap can be
      refused: "a" has one event in its window of 5 and shows three, once the eviction scan for
      "b" has shifted its slice. */
  lemma CountCanExceed(l: Limits, calls: seq<Call>)
    requires l == Limits(5, 3, 0)
    requires calls == [AllowCall("a", 1), AllowCall("a", 2), AllowCall("a", 6), AllowCall("b", 9)]
    ensures l.Valid() && Ordered(0, calls)
    ensures var s := After(l, 0, calls);
      Within(Granted(s, "a"), 4, 9) == 1 && Counted(s.view, "a", 4).0 == 3 && !Allowed(l, s.view, "a", 9, 4).0
  {
    var first := GrantsA(l);
    assert calls == first + [AllowCall("b", 9)];
    ShiftA(l, first);
    WithinA();
    CountA(After(l, 0, calls).view);
    RefuseA(l, After(l, 0, calls).view);
  }

  lemma GrantsA(l: Limits) returns (calls: seq<Call>)
    requires l == Limits(5, 3, 0)
    ensures calls == [AllowCall("a", 1), AllowCall("a", 2), AllowCall("a", 6)]
    ensures Ordered(0, calls) && Clock(0, calls) == 6
    ensures var s := After(l, 0, calls); Shown(s.view, "a") == Granted(s, "a") == [1, 2, 6] && "b" !in s.view
  {
    var c1, c2, c6 := AllowCall("a", 1), AllowCall("a", 2), AllowCall("a", 6);
    GrantA(l, [], [], 1);
    assert [] + [c1] == [c1];
    GrantA(l, [c1], [1], 2);
    assert [c1] + [c2] == [c1, c2];
    GrantA(l, [c1, c2], [1, 2], 6);
    calls := [c1, c2] + [c6];
  }

  lemma WithinA()
    ensures Within([1, 2, 6], 4, 9) == 1
  {
    assert [1, 2][..1] == [1] && [1, 2, 6][..2] == [1, 2];
    assert Within([1, 2], 4, 9) == 0;
  }

  lemma CountA(v: View)
    requires Shown(v, "a") == [6, 2, 6]
    ensures Trimmed(Shown(v, "a"), 4) == [6, 2, 6] && Showing(v, "a", 4) == 3
  {
    assert First([6, 2, 6], 4) == 0;
  }

  lemma RefuseA(l: Limits, v: View)
    requires l == Limits(5, 3, 0) && Shown(v, "a") == [6, 2, 6]
    ensures !Allowed(l, v, "a", 9, 4).0
  {
    CountA(v);
    DecidedIff(l, v, [6, 2, 6], "a", 9, 4);
  }

  /** "a", all of whose events are in the window, is granted one more. */
  lemma GrantA(l: Limits, calls: seq<Call>, ts: seq<int>, now: int)
    requires l == Limits(5, 3, 0) && Ordered(0, calls) && Clock(0, calls) <= now
    requires var s := After(l, 0, calls); Shown(s.view, "a") == Granted(s, "a") == ts && "b" !in s.view
    requires |ts| < 3 && (ts != [] ==> ts[0] >= now - 5)
    ensures Ordered(0, calls + [AllowCall("a", now)])
    ensures var t := After(l, 0, calls + [AllowCall("a", now)]);
      Shown(t.view, "a") == Granted(t, "a") == ts + [now] && "b" !in t.view
  {
    assert (calls + [AllowCall("a", now)])[..|calls|] == calls;
    assert First(ts, now - 5) == 0;
    assert Trimmed(ts, now - 5) == ts;
  }

  lemma ShiftA(l: Limits, calls: seq<Call>)
    requires l == Limits(5, 3, 0) && Ordered(0, calls) && Clock(0, calls) <= 9
    requires var s := After(l, 0, calls); Shown(s.view, "a") == Granted(s, "a") == [1, 2, 6] && "b" !in s.view
    ensures Ordered(0, calls + [AllowCall("b", 9)])
    ensures var t := After(l, 0, calls + [AllowCall("b", 9)]);
      Shown(t.view, "a") == [6, 2, 6] && Granted(t, "a") == [1, 2, 6]
  {
    assert (calls + [AllowCall("b", 9)])[..|calls|] == calls;
    ScanA(l, After(l, 0, calls).view);
  }

  lemma ScanA(l: Limits, v: View)
    requires l == Limits(5, 3, 0) && Shown(v, "a") == [1, 2, 6] && "b" !in v
    ensures var r := Allowed(l, v, "b", 9, 4); r.0 && Shown(r.1, "a") == [6, 2, 6]
  {
    SliceA();
    NewKey(l, v, "b", 9, 4);
    ScanShows(v, "a", 4, [1, 2, 6], [6, 2, 6]);
  }

  /** A key without a slice is granted its event after the scan when keys are unbounded. */
  lemma NewKey(l: Limits, v: View, key: string, now: int, cutoff: int)
    requires l.Valid() && l.maxKeys == 0 && key !in v
    ensures Allowed(l, v, key, now, cutoff) == (true, Evicted(v, cutoff)[key := [now]])
  {
    assert Trimmed([], cutoff) == [];
  }

  lemma ScanShows(v: View, key: string, cutoff: int, ts: seq<int>, left: seq<int>)
    requires Shown(v, key) == ts != [] && Trimmed(ts, cutoff) != [] && Shifted(ts, cutoff) == left
    ensures key in Evicted(v, cutoff) && Evicted(v, cutoff)[key] == left
  {
  }

  lemma SliceA()
    ensures Trimmed([1, 2, 6], 4) == [6] && Shifted([1, 2, 6], 4) == [6, 2, 6]
  {
    assert [1, 2, 6][2..] == [6] && [1, 2, 6][1..] == [2, 6];
    assert First([1, 2, 6], 4) == 2;
  }
}
