/** The leaky bucket under concurrent callers. Its level and its time are two variables, each
    swapped on its own, so a caller can drain the bucket for time that another has already used. */
module LeakyRuns {
  import opened Sets
  import opened Threads
  import opened Limiter

  /** A request: its size and its clock reading. */
  datatype Ask = Ask(n: nat, read: real)

  datatype LeakPc =
    | Begin(n: nat)
    | Read(q: Ask)                                                       // lastTime is loaded next
    | Ready(q: Ask, k: nat, now: real, last: real)                       // water is loaded next
    | Trying(q: Ask, k: nat, now: real, last: real, cur: real, next: real)
    | Reload(q: Ask, now: real)                                          // lost the swap of water
    | Stamp(q: Ask, now: real, last: real)                               // lastTime is swapped next
    | Over(ok: bool)

  predicate Active(p: LeakPc) { !p.Over? }

  /** clock logs the latest reading, log the admissions, and dry the time at which the level of the
      latest admission is drained. */
  datatype Leak = Leak(threads: map<nat, LeakPc>, water: real, last: real, clock: real, log: seq<Admission>, dry: real)

  ghost function Init(start: real): Leak { Leak(map[], 0.0, start, start, [], start) }

  ghost function Put(s: Leak, t: nat, p: LeakPc): Leak { s.(threads := s.threads[t := p]) }

  /** Caller t acts; clock is what it reads if it reads the clock, n the size of a new call. */
  ghost predicate Next(c: Config, rate: real, s: Leak, s': Leak, t: nat, clock: real, n: nat)
  {
    if t !in s.threads then n >= 1 && s' == Put(s, t, Begin(n))
    else
      match s.threads[t]
      case Begin(m) => s' == Put(s, t, LeakPc.Read(Ask(m, clock))).(clock := clock)
      case Read(q) => s' == Put(s, t, Ready(q, 0, if q.read < s.last then s.last else q.read, s.last))
      case Ready(q, k, now, last) =>
        var next := Level(rate, s.water, last, now) + q.n as real;
        s' == Put(s, t, if next > c.burst as real then Over(false) else Trying(q, k, now, last, s.water, next))
      case Trying(q, k, now, last, cur, next) =>
        if s.water == cur then
          s' == Leak(s.threads[t := Stamp(q, now, last)], next, s.last, s.clock,
                     s.log + [Admit(q.read, q.n, c.Cost(q.n))], Empties(c, Bucket(next, now)))
        else s' == Put(s, t, if k == 0 then Reload(q, now) else Over(false))
      case Reload(q, now) => s' == Put(s, t, Ready(q, 1, now, s.last))
      case Stamp(q, now, last) =>
        s' == Put(s, t, Over(true)).(last := if s.last == last then now else s.last)
      case Over(_) => false
  }

  ghost predicate Steps(c: Config, rate: real, s: Leak, s': Leak)
  {
    exists t, clock, n :: Next(c, rate, s, s', t, clock, n)
  }

  ghost predicate StepAt(c: Config, rate: real, run: seq<Leak>, k: int)
    requires 0 < k < |run|
  {
    Steps(c, rate, run[k - 1], run[k])
  }

  ghost predicate IsRun(c: Config, rate: real, start: real, run: seq<Leak>)
  {
    run != [] && run[0] == Init(start) && forall k :: 0 < k < |run| ==> StepAt(c, rate, run, k)
  }

  /** The clock does not go back, and at most m calls are under way at any moment. */
  ghost predicate Within(run: seq<Leak>, m: nat)
  {
    forall k :: 0 <= k < |run| ==> |At(run[k].threads, Active)| <= m && (k > 0 ==> run[k - 1].clock <= run[k].clock)
  }

  // ----- One call at a time -----

  /** Where the one call under way stands. */
  ghost predicate PlaceOk(s: Leak, p: LeakPc)
  {
    match p
    case Begin(_) => true
    case Read(q) => q.read == s.clock
    case Ready(q, k, now, last) => now == q.read == s.clock && last == s.last
    case Trying(q, k, now, last, cur, next) => now == q.read == s.clock && last == s.last && cur == s.water
    case Reload(_, _) => false
    case Stamp(q, now, last) => now == s.clock && last == s.last
    case Over(_) => true
  }

  ghost predicate Places(s: Leak)
  {
    s.last <= s.clock && forall t :: t in s.threads ==> PlaceOk(s, s.threads[t])
  }

  /** The level that is to be swapped in, or when a level swapped in is drained. */
  ghost predicate LevelOk(c: Config, rate: real, s: Leak, p: LeakPc)
  {
    && (p.Trying? ==> p.next == Level(rate, p.cur, p.last, p.now) + p.q.n as real <= c.burst as real)
    && (p.Stamp? ==> s.dry == Empties(c, Bucket(s.water, p.now)))
  }

  ghost predicate Levels(c: Config, rate: real, s: Leak)
  {
    && s.water >= 0.0
    && (forall t :: t in s.threads ==> LevelOk(c, rate, s, s.threads[t]))
    && (Stamped(s) ==> s.dry == Empties(c, Bucket(s.water, s.last)))
  }

  ghost predicate Stamped(s: Leak) { forall t :: t in s.threads ==> !s.threads[t].Stamp? }

  ghost predicate Inv(c: Config, rate: real, s: Leak, a: real, b: real)
  {
    Places(s) && Levels(c, rate, s) && Priced(c, s.log) && Bounded(CostIn(s.log, a, b), s.dry, c.Tolerance(), a, b)
  }

  ghost predicate OthersOver(s: Leak, t: nat)
  {
    t in s.threads && forall u :: u in s.threads && u != t ==> s.threads[u].Over?
  }

  /** With one call at a time, whoever acts is alone. */
  lemma Alone(m: map<nat, LeakPc>, t: nat)
    requires |At(m, Active)| <= 1 && t in m && Active(m[t])
    ensures forall u :: u in m && u != t ==> m[u].Over?
  {
    AtFew(m, Active);
  }

  /** An admission moves dry on as a GCRA limiter moves its TAT. */
  lemma SwapKeeps(
    c: Config, rate: real, b: Bucket, dry: real, now: real, n: nat, next: real, sum: real, lo: real, hi: real)
    requires Matched(c, rate) && b.last <= now && dry == Empties(c, b) && lo <= hi
    requires next == Level(rate, b.water, b.last, now) + n as real <= c.burst as real
    requires Bounded(sum, dry, c.Tolerance(), lo, hi)
    ensures next >= 0.0
    ensures Bounded(sum + (if lo <= now <= hi then c.Cost(n) else 0.0),
        Empties(c, Bucket(next, now)), c.Tolerance(), lo, hi)
  {
    CostNonNegative(c, n);
    var delay := LevelCost(c, rate, b, now, n, next);
    SwapArith(dry, now, delay, c.Cost(n), c.Tolerance(), sum, lo, hi);
  }

  /** The level in time: how long it takes to drain, and what the request adds. */
  lemma LevelCost(c: Config, rate: real, b: Bucket, now: real, n: nat, next: real) returns (delay: real)
    requires Matched(c, rate) && b.last <= now
    requires next == Level(rate, b.water, b.last, now) + n as real <= c.burst as real
    ensures delay == (if Empties(c, b) < now then 0.0 else Empties(c, b) - now)
    ensures next >= 0.0 && delay + c.Cost(n) <= c.Tolerance()
    ensures Empties(c, Bucket(next, now)) == now + (delay + c.Cost(n))
  {
    var level := Level(rate, b.water, b.last, now);
    delay := c.emission * level;
    LevelIsDelay(c, rate, b, now);
    SameTest(c, level, n);
    SameProduct(c.emission, next, level + n as real);
  }

  lemma SameProduct(e: real, x: real, y: real)
    requires x == y
    ensures e * x == e * y
  {
  }

  lemma SwapArith(dry: real, now: real, delay: real, cost: real, tolerance: real, sum: real, lo: real, hi: real)
    requires delay == (if dry < now then 0.0 else dry - now) && cost >= 0.0 && delay + cost <= tolerance
    requires Bounded(sum, dry, tolerance, lo, hi)
    ensures Bounded(sum + (if lo <= now <= hi then cost else 0.0), now + (delay + cost), tolerance, lo, hi)
  {
    GrantArith(dry, now, cost, tolerance, sum, lo, hi);
  }

  /** A step of the one call under way that does not swap water. */
  lemma QuietStep(c: Config, rate: real, s: Leak, s': Leak, t: nat, clock: real, n: nat, a: real, b: real)
    requires Inv(c, rate, s, a, b) && Next(c, rate, s, s', t, clock, n) && s.clock <= s'.clock
    requires OthersOver(s, t) && !s.threads[t].Trying?
    ensures Inv(c, rate, s', a, b)
  {
    assert PlaceOk(s, s.threads[t]) && LevelOk(c, rate, s, s.threads[t]);
    assert s'.threads == s.threads[t := s'.threads[t]];
    assert PlaceOk(s', s'.threads[t]) && LevelOk(c, rate, s', s'.threads[t]);
  }

  /** The state after the swap of water, at the call's own place. */
  ghost predicate Swapped(c: Config, s: Leak, s': Leak, t: nat)
    requires t in s.threads && s.threads[t].Trying?
  {
    var p := s.threads[t];
    && s'.threads == s.threads[t := Stamp(p.q, p.now, p.last)]
    && s'.water == p.next && s'.last == s.last && s'.clock == s.clock
    && s'.log == s.log + [Admit(p.q.read, p.q.n, c.Cost(p.q.n))]
    && s'.dry == Empties(c, Bucket(p.next, p.now))
  }

  lemma SwapPlaces(c: Config, s: Leak, s': Leak, t: nat)
    requires Places(s) && OthersOver(s, t) && s.threads[t].Trying? && Swapped(c, s, s', t)
    ensures Places(s')
  {
    assert PlaceOk(s, s.threads[t]);
  }

  lemma SwapLevels(c: Config, rate: real, s: Leak, s': Leak, t: nat)
    requires OthersOver(s, t) && s.threads[t].Trying? && s.threads[t].next >= 0.0 && Swapped(c, s, s', t)
    ensures Levels(c, rate, s')
  {
    assert s'.threads[t].Stamp? && !Stamped(s');
  }

  /** What the invariants say of the numbers that the swap uses. */
  lemma SwapStarts(c: Config, rate: real, s: Leak, t: nat)
    requires Places(s) && Levels(c, rate, s) && OthersOver(s, t) && s.threads[t].Trying?
    ensures var p := s.threads[t];
      && p.now == p.q.read && s.last <= p.now && s.dry == Empties(c, Bucket(s.water, s.last))
      && p.next == Level(rate, s.water, s.last, p.now) + p.q.n as real <= c.burst as real
  {
    assert PlaceOk(s, s.threads[t]) && LevelOk(c, rate, s, s.threads[t]);
  }

  lemma SwapBounds(c: Config, rate: real, s: Leak, s': Leak, t: nat, a: real, b: real)
    requires Matched(c, rate) && a <= b && t in s.threads && s.threads[t].Trying? && Swapped(c, s, s', t)
    requires Bounded(CostIn(s.log, a, b), s.dry, c.Tolerance(), a, b)
    requires var p := s.threads[t];
      && p.now == p.q.read && s.last <= p.now && s.dry == Empties(c, Bucket(s.water, s.last))
      && p.next == Level(rate, s.water, s.last, p.now) + p.q.n as real <= c.burst as real
    ensures s.threads[t].next >= 0.0 && Bounded(CostIn(s'.log, a, b), s'.dry, c.Tolerance(), a, b)
  {
    var p := s.threads[t];
    SwapKeeps(c, rate, Bucket(s.water, s.last), s.dry, p.now, p.q.n, p.next, CostIn(s.log, a, b), a, b);
    CostSnoc(s.log, Admit(p.q.read, p.q.n, c.Cost(p.q.n)), a, b);
  }

  lemma SwapStep(c: Config, rate: real, s: Leak, s': Leak, t: nat, a: real, b: real)
    requires Matched(c, rate) && a <= b && Inv(c, rate, s, a, b)
    requires OthersOver(s, t) && s.threads[t].Trying? && Swapped(c, s, s', t)
    ensures Inv(c, rate, s', a, b)
  {
    SwapStarts(c, rate, s, t);
    SwapBounds(c, rate, s, s', t, a, b);
    SwapPlaces(c, s, s', t);
    SwapLevels(c, rate, s, s', t);
  }

  lemma StepKeeps(c: Config, rate: real, s: Leak, s': Leak, a: real, b: real)
    requires Matched(c, rate) && a <= b && Inv(c, rate, s, a, b) && Steps(c, rate, s, s') && s.clock <= s'.clock
    requires |At(s.threads, Active)| <= 1 && |At(s'.threads, Active)| <= 1
    ensures Inv(c, rate, s', a, b)
  {
    var t, clock, n :| Next(c, rate, s, s', t, clock, n);
    if t !in s.threads {
      Alone(s'.threads, t);
      assert forall u :: u in s.threads ==> s'.threads[u] == s.threads[u];
    } else {
      Alone(s.threads, t);
      if s.threads[t].Trying? {
        assert PlaceOk(s, s.threads[t]);
        SwapStep(c, rate, s, s', t, a, b);
      } else {
        QuietStep(c, rate, s, s', t, clock, n, a, b);
      }
    }
  }

  lemma {:induction false} RunsKeepInv(c: Config, rate: real, start: real, run: seq<Leak>, k: nat, a: real, b: real)
    requires Matched(c, rate) && a <= b && IsRun(c, rate, start, run) && Within(run, 1) && k < |run|
    ensures Inv(c, rate, run[k], a, b)
  {
    if k > 0 {
      RunsKeepInv(c, rate, start, run, k - 1, a, b);
      assert StepAt(c, rate, run, k);
      StepKeeps(c, rate, run[k - 1], run[k], a, b);
    }
  }

  ghost predicate Bound(c: Config, rate: real, log: seq<Admission>, a: real, b: real)
  {
    TokensWithin(c, rate, TokensIn(log, a, b), b - a)
  }

  /** One call at a time and a clock that does not go back: at most burst plus rate times the
      length of the window, as for GCRA. */
  lemma SerialBound(c: Config, rate: real, start: real, run: seq<Leak>, k: nat, a: real, b: real)
    requires Matched(c, rate) && IsRun(c, rate, start, run) && Within(run, 1) && k < |run| && a <= b
    ensures Bound(c, rate, run[k].log, a, b)
  {
    RunsKeepInv(c, rate, start, run, k, a, b);
    BoundedCost(c, rate, run[k].log, run[k].dry, a, b);
  }

  lemma BoundedCost(c: Config, rate: real, log: seq<Admission>, dry: real, a: real, b: real)
    requires Matched(c, rate) && Priced(c, log) && a <= b && Bounded(CostIn(log, a, b), dry, c.Tolerance(), a, b)
    ensures Bound(c, rate, log, a, b)
  {
    CostInWindow(c, CostIn(log, a, b), dry, a, b);
    LogTokens(c, rate, log, a, b, b - a);
  }

  lemma CostInWindow(c: Config, sum: real, dry: real, a: real, b: real)
    requires c.Valid() && Bounded(sum, dry, c.Tolerance(), a, b) && a <= b
    ensures CostWithin(c, sum, b - a)
  {
    CostNonNegative(c, c.burst);
  }

  // ----- Two calls at once -----

  lemma Extend(c: Config, rate: real, start: real, run: seq<Leak>, s': Leak, t: nat, clock: real, n: nat)
    returns (more: seq<Leak>)
    requires IsRun(c, rate, start, run) && Within(run, 2) && Next(c, rate, run[|run| - 1], s', t, clock, n)
    requires run[|run| - 1].clock <= s'.clock && s'.threads.Keys <= {0, 1}
    ensures IsRun(c, rate, start, more) && Within(more, 2) && more[|more| - 1] == s'
    ensures |more| >= 2 && more[|more| - 2] == run[|run| - 1]
  {
    more := run + [s'];
    SubsetSize(At(s'.threads, Active), {0, 1});
    forall k | 0 < k < |more|
      ensures StepAt(c, rate, more, k)
    {
      if k < |run| {
        assert StepAt(c, rate, run, k);
        assert more[k - 1] == run[k - 1] && more[k] == run[k];
      } else {
        assert Steps(c, rate, run[k - 1], s');
      }
    }
  }

  /** Two calls for a full burst read the same time, load the same lastTime, and one swaps water
      before the other loads it: both drain for the same time, and both are admitted. */
  lemma TwoAdmitted(c: Config, rate: real) returns (run: seq<Leak>, at: real)
    requires Matched(c, rate)
    ensures IsRun(c, rate, 0.0, run) && Within(run, 2)
    ensures TokensIn(run[|run| - 1].log, at, at) == 2 * c.burst && !Bound(c, rate, run[|run| - 1].log, at, at)
  {
    var full := c.burst as real;
    at := c.emission * full;
    assert at >= 0.0;
    run := OneSwapped(c, rate, at);
    var q, g := Ask(c.burst, at), Admit(at, c.burst, c.Cost(c.burst));
    DrainedLevel(c, rate, at);
    var s := run[|run| - 1];
    s := Put(s, 1, Trying(q, 0, at, 0.0, full, full));
    run := Extend(c, rate, 0.0, run, s, 1, at, 1);
    s := Leak(s.threads[1 := Stamp(q, at, 0.0)], full, 0.0, at, [] + [g] + [g], at + at);
    run := Extend(c, rate, 0.0, run, s, 1, at, 1);
    TwoTokens(g, at);
    TwiceTooMany(c, rate, s.log, at);
  }

  lemma TwiceTooMany(c: Config, rate: real, log: seq<Admission>, at: real)
    requires c.Valid() && TokensIn(log, at, at) == 2 * c.burst
    ensures !Bound(c, rate, log, at, at)
  {
    assert rate * (at - at) == 0.0;
  }

  lemma OneSwapped(c: Config, rate: real, at: real) returns (run: seq<Leak>)
    requires Matched(c, rate) && at == c.emission * c.burst as real >= 0.0
    ensures IsRun(c, rate, 0.0, run) && Within(run, 2)
    ensures var (q, g) := (Ask(c.burst, at), Admit(at, c.burst, c.Cost(c.burst)));
      run[|run| - 1] ==
        Leak(map[0 := Stamp(q, at, 0.0), 1 := Ready(q, 0, at, 0.0)], c.burst as real, 0.0, at, [] + [g], at + at)
  {
    var full := c.burst as real;
    run := BothLoaded(c, rate, at);
    var q, g := Ask(c.burst, at), Admit(at, c.burst, c.Cost(c.burst));
    DrainedLevel(c, rate, at);
    var s := run[|run| - 1];
    s := Put(s, 0, Trying(q, 0, at, 0.0, 0.0, full));
    run := Extend(c, rate, 0.0, run, s, 0, at, 1);
    s := Leak(s.threads[0 := Stamp(q, at, 0.0)], full, 0.0, at, [] + [g], at + at);
    run := Extend(c, rate, 0.0, run, s, 0, at, 1);
  }

  lemma BothLoaded(c: Config, rate: real, at: real) returns (run: seq<Leak>)
    requires Matched(c, rate) && at >= 0.0
    ensures IsRun(c, rate, 0.0, run) && Within(run, 2)
    ensures var p := Ready(Ask(c.burst, at), 0, at, 0.0);
      run[|run| - 1] == Leak(map[0 := p, 1 := p], 0.0, 0.0, at, [], 0.0)
  {
    var q := Ask(c.burst, at);
    run := BothRead(c, rate, at);
    var s := run[|run| - 1];
    s := Put(s, 0, Ready(q, 0, at, 0.0));
    run := Extend(c, rate, 0.0, run, s, 0, at, 1);
    s := Put(s, 1, Ready(q, 0, at, 0.0));
    run := Extend(c, rate, 0.0, run, s, 1, at, 1);
  }

  lemma BothRead(c: Config, rate: real, at: real) returns (run: seq<Leak>)
    requires c.Valid() && at >= 0.0
    ensures IsRun(c, rate, 0.0, run) && Within(run, 2)
    ensures var p := LeakPc.Read(Ask(c.burst, at)); run[|run| - 1] == Leak(map[0 := p, 1 := p], 0.0, 0.0, at, [], 0.0)
  {
    var q, s := Ask(c.burst, at), Init(0.0);
    run := [s];
    assert At(s.threads, Active) == {};
    s := Put(s, 0, Begin(c.burst));
    run := Extend(c, rate, 0.0, run, s, 0, 0.0, c.burst);
    s := Put(s, 1, Begin(c.burst));
    run := Extend(c, rate, 0.0, run, s, 1, 0.0, c.burst);
    s := Put(s, 0, LeakPc.Read(q)).(clock := at);
    run := Extend(c, rate, 0.0, run, s, 0, at, 1);
    s := Put(s, 1, LeakPc.Read(q));
    run := Extend(c, rate, 0.0, run, s, 1, at, 1);
  }

  /** A full bucket is empty after the time it takes to drain, and an empty one stays so. */
  lemma DrainedLevel(c: Config, rate: real, at: real)
    requires Matched(c, rate) && at == c.emission * c.burst as real
    ensures Level(rate, c.burst as real, 0.0, at) == 0.0 && Level(rate, 0.0, 0.0, at) == 0.0
  {
    assert at * rate == c.burst as real by {
      assert c.emission * c.burst as real * rate == c.emission * rate * c.burst as real;
    }
  }

  lemma TwoTokens(g: Admission, at: real)
    requires g.now == at
    ensures TokensIn([] + [g] + [g], at, at) == 2 * g.n
  {
    assert ([] + [g] + [g])[..1] == [g] && [g][..0] == [];
    assert TokensIn([g], at, at) == g.n;
  }

  /** The bound holds in every run with at most m calls at once. */
  ghost predicate Bounds(c: Config, rate: real, m: nat)
  {
    forall start: real, run: seq<Leak>, k: int, a: real, b: real ::
      IsRun(c, rate, start, run) && Within(run, m) && 0 <= k < |run| && a <= b ==> Bound(c, rate, run[k].log, a, b)
  }

  /** With a clock that does not go back the bound of TokenBound holds for the leaky bucket if and
      only if calls do not overlap. */
  lemma BoundIff(c: Config, rate: real, m: nat)
    requires Matched(c, rate)
    ensures Bounds(c, rate, m) <==> m <= 1
  {
    if m <= 1 {
      forall start: real, run: seq<Leak>, k: int, a: real, b: real |
        IsRun(c, rate, start, run) && Within(run, m) && 0 <= k < |run| && a <= b
        ensures Bound(c, rate, run[k].log, a, b)
      {
        assert Within(run, 1);
        SerialBound(c, rate, start, run, k, a, b);
      }
    } else {
      var run, at := TwoAdmitted(c, rate);
      assert Within(run, m);
      assert !Bound(c, rate, run[|run| - 1].log, at, at);
    }
  }
}
