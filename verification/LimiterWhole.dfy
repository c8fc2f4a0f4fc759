/** GCRA as the code computes it, in whole nanoseconds: what the truncation of costs and tolerance
    does to the limit. */
module LimiterWhole {
  import opened Threads
  import opened Limiter

  predicate IsWhole(x: real) { x == x.Floor as real }

  /** The limiter with the same rate and burst that does not truncate. */
  function Exact(c: Config): Config { c.(whole := false) }

  // ----- A whole emission interval -----

  lemma TimesNext(n: nat, e: real)
    ensures Times(n + 1, e) == Times(n, e) + e && Times(0, e) == 0.0
  {
    assert (n + 1) as real == n as real + 1.0;
  }

  lemma WholeSum(x: real, y: real)
    requires IsWhole(x) && IsWhole(y)
    ensures IsWhole(x + y)
  {
    assert x + y == (x.Floor + y.Floor) as real;
  }

  lemma {:induction false} Multiples(n: nat, e: real)
    requires IsWhole(e)
    ensures IsWhole(Times(n, e))
  {
    if n == 0 {
      TimesNext(0, e);
    } else {
      Multiples(n - 1, e);
      TimesNext(n - 1, e);
      WholeSum(Times(n - 1, e), e);
    }
  }

  lemma SameCosts(c: Config, n: nat)
    requires IsWhole(c.emission)
    ensures c.Cost(n) == Exact(c).Cost(n) && c.Tolerance() == Exact(c).Tolerance()
  {
    Multiples(n, c.emission);
    Multiples(c.burst, c.emission);
    CutIs(c, Times(n, c.emission));
    CutIs(c, Times(c.burst, c.emission));
    CutIs(Exact(c), Times(n, c.emission));
    CutIs(Exact(c), Times(c.burst, c.emission));
  }

  /** With a whole emission interval truncation changes no decision and no TAT, and with any other
      it does. */
  lemma DecideIff(c: Config)
    requires c.Valid() && c.whole
    ensures IsWhole(c.emission) <==>
      forall tat: real, now: real, n: nat :: Decide(c, tat, now, n) == Decide(Exact(c), tat, now, n)
  {
    if IsWhole(c.emission) {
      forall tat: real, now: real, n: nat
        ensures Decide(c, tat, now, n) == Decide(Exact(c), tat, now, n)
      {
        SameCosts(c, n);
      }
    } else {
      OneTokenDiffers(c);
    }
  }

  lemma OneTokenDiffers(c: Config)
    requires c.Valid() && c.whole && !IsWhole(c.emission)
    ensures Decide(c, 0.0, 0.0, 1) != Decide(Exact(c), 0.0, 0.0, 1)
  {
    OneToken(c);
    OneToken(Exact(c));
  }

  /** A token is let in by a fresh limiter. */
  lemma OneToken(c: Config)
    requires c.Valid()
    ensures c.Cost(1) == c.Cut(c.emission) <= c.Tolerance()
    ensures Decide(c, 0.0, 0.0, 1) == Grant(c.Cut(c.emission))
  {
    TimesNext(0, c.emission);
    AtLeastOne(c.burst, c.emission);
    CutGrows(c, c.emission, Times(c.burst, c.emission));
  }

  lemma {:induction false} AtLeastOne(n: nat, e: real)
    requires n >= 1 && e > 0.0
    ensures Times(n, e) >= e
  {
    TimesNext(n - 1, e);
    if n > 1 {
      AtLeastOne(n - 1, e);
    }
  }

  lemma CutGrows(c: Config, x: real, y: real)
    requires x <= y
    ensures c.Cut(x) <= c.Cut(y)
  {
    FloorGrows(x, y);
    CutIs(c, x);
    CutIs(c, y);
  }

  lemma FloorGrows(x: real, y: real)
    requires x <= y
    ensures x.Floor as real <= y.Floor as real
  {
    assert x.Floor <= y.Floor;
  }

  lemma CutIs(c: Config, x: real)
    ensures c.Cut(x) == (if c.whole then x.Floor as real else x)
    ensures IsWhole(x) ==> c.Cut(x) == x
  {
  }

  /** The answers to a sequence of requests are then the same, so the limiter is a leaky bucket. */
  lemma {:induction false} SameAsExact(c: Config, tat: real, reqs: seq<Request>)
    requires IsWhole(c.emission)
    ensures GcraAnswers(c, tat, reqs) == GcraAnswers(Exact(c), tat, reqs)
    decreases |reqs|
  {
    if reqs != [] {
      SameCosts(c, reqs[0].n);
      var v := Decide(c, tat, reqs[0].now, reqs[0].n);
      SameAsExact(c, if v.Grant? then v.tat else tat, reqs[1..]);
    }
  }

  lemma WholeIsLeakyBucket(c: Config, rate: real, start: real, reqs: seq<Request>)
    requires IsWhole(c.emission) && Matched(Exact(c), rate) && 0.0 <= start && Forward(start, reqs)
    ensures GcraAnswers(c, 0.0, reqs) == BucketAnswers(c, rate, Bucket(0.0, start), reqs)
  {
    SameAsExact(c, 0.0, reqs);
    GcraIsLeakyBucket(Exact(c), rate, start, reqs);
    SamePours(c, rate, Bucket(0.0, start), reqs);
  }

  lemma {:induction false} SamePours(c: Config, rate: real, b: Bucket, reqs: seq<Request>)
    ensures BucketAnswers(c, rate, b, reqs) == BucketAnswers(Exact(c), rate, b, reqs)
    decreases |reqs|
  {
    if reqs != [] {
      SamePours(c, rate, Pour(c, rate, b, reqs[0].now, reqs[0].n).1, reqs[1..]);
    }
  }

  // ----- Concurrent callers -----

  lemma SameSteps(c: Config, s: State, s': State)
    requires IsWhole(c.emission) && Steps(c, s, s')
    ensures Steps(Exact(c), s, s')
  {
    var t, clock, n :| Next(c, s, s', t, clock, n);
    if t in s.threads && !s.threads[t].Done? {
      SameCosts(c, s.threads[t].n);
    }
    assert Next(Exact(c), s, s', t, clock, n);
  }

  lemma SameRuns(c: Config, run: seq<State>)
    requires IsWhole(c.emission) && IsRun(c, run)
    ensures IsRun(Exact(c), run)
  {
    forall k | 0 < k < |run|
      ensures StepAt(Exact(c), run, k)
    {
      assert StepAt(c, run, k);
      SameSteps(c, run[k - 1], run[k]);
    }
  }

  /** With a whole emission interval the bound in tokens is the one of exact arithmetic. */
  lemma WholeTokenBound(c: Config, rate: real, run: seq<State>, k: nat, a: real, b: real)
    requires IsWhole(c.emission) && Matched(Exact(c), rate) && IsRun(c, run) && k < |run| && a <= b
    ensures TokensWithin(c, rate, TokensIn(run[k].log, a, b), b - a)
  {
    SameRuns(c, run);
    TokenBound(Exact(c), rate, run, k, a, b);
  }

  /** The number of requests admitted on readings in [a, b]. */
  function AdmittedIn(log: seq<Admission>, a: real, b: real): nat
  {
    if log == [] then 0
    else
      var g := log[|log| - 1];
      AdmittedIn(log[..|log| - 1], a, b) + if a <= g.now <= b then 1 else 0
  }

  /** Truncation makes every request cheaper by less than a nanosecond. */
  ghost predicate Cheaper(cost: real, tokens: nat, e: real, calls: nat)
  {
    Times(tokens, e) <= cost + calls as real
  }

  lemma TimesSum(m: nat, n: nat, e: real)
    ensures Times(m + n, e) == Times(m, e) + Times(n, e)
  {
    assert (m + n) as real == m as real + n as real;
  }

  lemma CheaperAdd(x: real, m: nat, k: nat, y: real, n: nat, l: nat, e: real)
    requires Cheaper(x, m, e, k) && Cheaper(y, n, e, l)
    ensures Cheaper(x + y, m + n, e, k + l)
  {
    TimesSum(m, n, e);
    assert (k + l) as real == k as real + l as real;
  }

  lemma OneCheaper(c: Config, n: nat)
    ensures Cheaper(c.Cost(n), n, c.emission, 1)
  {
  }

  lemma {:induction false} CostsCheaper(c: Config, log: seq<Admission>, a: real, b: real)
    requires Priced(c, log)
    ensures Cheaper(CostIn(log, a, b), TokensIn(log, a, b), c.emission, AdmittedIn(log, a, b))
  {
    if log == [] {
      TimesNext(0, c.emission);
    } else {
      var n := |log| - 1;
      var init, g := log[..n], log[n];
      CostsCheaper(c, init, a, b);
      if a <= g.now <= b {
        OneCheaper(c, g.n);
        CheaperAdd(CostIn(init, a, b), TokensIn(init, a, b), AdmittedIn(init, a, b), g.cost, g.n, 1, c.emission);
      }
    }
  }

  /** For every emission interval: tokens times the interval are at most the tolerance, the length
      of the window, and one nanosecond for every request admitted in it. */
  lemma TruncatedBound(c: Config, run: seq<State>, k: nat, a: real, b: real)
    requires c.Valid() && IsRun(c, run) && k < |run| && a <= b
    ensures Cheaper(c.Tolerance() + (b - a), TokensIn(run[k].log, a, b), c.emission, AdmittedIn(run[k].log, a, b))
  {
    AdmissionBound(c, run, k, a, b);
    RunsPriced(c, run, k);
    CostsCheaper(c, run[k].log, a, b);
  }

  // ----- Any other emission interval -----

  function Last(run: seq<State>): State
    requires run != []
  {
    run[|run| - 1]
  }

  lemma Extend(c: Config, run: seq<State>, s': State, t: nat, clock: real, n: nat) returns (more: seq<State>)
    requires IsRun(c, run) && Next(c, Last(run), s', t, clock, n)
    ensures IsRun(c, more) && Last(more) == s'
  {
    more := run + [s'];
    forall k | 0 < k < |more|
      ensures StepAt(c, more, k)
    {
      if k < |run| {
        assert StepAt(c, run, k);
        assert more[k - 1] == run[k - 1] && more[k] == run[k];
      } else {
        assert Steps(c, run[k - 1], s');
      }
    }
  }

  /** One more caller, alone, whose request is granted. */
  lemma OneMore(c: Config, run: seq<State>, now: real, n: nat, next: real) returns (more: seq<State>)
    requires IsRun(c, run) && n >= 1 && Decide(c, Last(run).tat, now, n) == Grant(next)
    ensures IsRun(c, more) && Last(more).tat == next && Last(more).log == Last(run).log + [Admit(now, n, c.Cost(n))]
  {
    var s := Last(run);
    var t := FreshId(s.threads);
    var tat, log := s.tat, s.log;
    s := s.(threads := s.threads[t := Start(n)]);
    more := Extend(c, run, s, t, now, n);
    s := s.(threads := s.threads[t := Loading(n, 0, now)]);
    more := Extend(c, more, s, t, now, n);
    s := s.(threads := s.threads[t := Swapping(n, 0, now, tat, next)]);
    more := Extend(c, more, s, t, now, n);
    s := State(s.threads[t := Done(n, true)], next, s.allowed + 1, s.denied, s.acquired + n,
               log + [Admit(now, n, c.Cost(n))]);
    more := Extend(c, more, s, t, now, n);
  }

  lemma TokensSnocIn(log: seq<Admission>, g: Admission, a: real, b: real)
    ensures TokensIn(log + [g], a, b) == TokensIn(log, a, b) + if a <= g.now <= b then g.n else 0
  {
    assert (log + [g])[..|log|] == log;
  }

  lemma {:induction false} TimesUp(m: nat, n: nat, e: real)
    requires m <= n && e >= 0.0
    ensures 0.0 <= Times(m, e) <= Times(n, e)
  {
    TimesSum(m, n - m, e);
    assert m as real * e >= 0.0 && (n - m) as real * e >= 0.0;
  }

  /** k single tokens, each on the reading at which the truncated cost of those before it is used
      up, are all admitted. */
  lemma {:induction false} Feed(c: Config, k: nat, cost: real) returns (run: seq<State>)
    requires c.Valid() && cost == c.Cost(1) && 0.0 <= cost <= c.Tolerance()
    ensures IsRun(c, run) && Last(run).tat == Times(k, cost)
    ensures forall b: real :: k > 0 && b >= Times(k - 1, cost) ==> TokensIn(Last(run).log, 0.0, b) == k
    ensures k == 0 ==> Last(run).log == []
  {
    if k == 0 {
      run := [Init()];
      TimesNext(0, cost);
    } else {
      var less := Feed(c, k - 1, cost);
      var now := Times(k - 1, cost);
      TimesNext(k - 1, cost);
      run := OneMore(c, less, now, 1, now + cost);
      forall b: real | b >= now
        ensures TokensIn(Last(run).log, 0.0, b) == k
      {
        TimesUp(if k > 1 then k - 2 else 0, k - 1, cost);
        TokensSnocIn(Last(less).log, Admit(now, 1, c.Cost(1)), 0.0, b);
      }
    }
  }

  /** So many tokens that what truncation saves on them is more than the burst. */
  lemma Enough(d: real, x: real) returns (k: nat)
    requires d > 0.0 && x >= 0.0
    ensures k > 0 && Times(k, d) > x
  {
    var q := x / d;
    assert q * d == x;
    k := q.Floor + 1;
    More(k as real, q, d);
  }

  lemma More(k: real, q: real, d: real)
    requires k > q && d > 0.0
    ensures k * d > q * d
  {
    assert (k - q) * d > 0.0;
  }

  lemma TimesLess(n: nat, e: real, cost: real)
    ensures Times(n, e - cost) == Times(n, e) - Times(n, cost)
  {
  }

  /** The bound in tokens, over all runs and windows. */
  ghost predicate BoundHolds(c: Config, rate: real)
  {
    forall run: seq<State>, k: int, a: real, b: real ::
      IsRun(c, run) && 0 <= k < |run| && a <= b ==> TokensWithin(c, rate, TokensIn(run[k].log, a, b), b - a)
  }

  /** A run of single tokens that exceeds the bound when a token is charged less than it should be. */
  lemma Overfed(c: Config, rate: real) returns (run: seq<State>, b: real)
    requires Matched(Exact(c), rate) && c.whole && !IsWhole(c.emission)
    ensures IsRun(c, run) && b >= 0.0 && !TokensWithin(c, rate, TokensIn(Last(run).log, 0.0, b), b)
  {
    OneToken(c);
    var e, cost := c.emission, c.Cost(1);
    TimesUp(0, c.burst, e);
    var k := Enough(e - cost, Times(c.burst, e));
    run := Feed(c, k, cost);
    b := Times(k - 1, cost);
    TimesUp(k - 1, k, cost);
    TimesLess(k, e, cost);
    if TokensWithin(c, rate, k, b) {
      Rescaled(k, c.burst, e, rate, b);
    }
  }

  lemma Rescaled(k: nat, burst: nat, e: real, rate: real, z: real)
    requires e > 0.0 && e * rate == 1.0 && k as real <= burst as real + rate * z
    ensures Times(k, e) <= Times(burst, e) + z
  {
    assert rate * z * e == e * rate * z;
    assert (burst as real + rate * z - k as real) * e >= 0.0;
  }

  /** As the code computes it the bound in tokens holds of all runs if and only if the emission
      interval is a whole number of nanoseconds. */
  lemma WholeBoundIff(c: Config, rate: real)
    requires Matched(Exact(c), rate) && c.whole
    ensures BoundHolds(c, rate) <==> IsWhole(c.emission)
  {
    if IsWhole(c.emission) {
      forall run: seq<State>, k: int, a: real, b: real | IsRun(c, run) && 0 <= k < |run| && a <= b
        ensures TokensWithin(c, rate, TokensIn(run[k].log, a, b), b - a)
      {
        WholeTokenBound(c, rate, run, k, a, b);
      }
    } else {
      var run, b := Overfed(c, rate);
      assert b - 0.0 == b;
      assert !TokensWithin(c, rate, TokensIn(run[|run| - 1].log, 0.0, b), b - 0.0);
    }
  }
}
