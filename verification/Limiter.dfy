/** The GCRA limiter and the leaky bucket. Times and costs are real numbers; the code's
    truncation of a cost to whole nanoseconds is the whole variant of the configuration. */
module Limiter {
  import opened Threads

  /** emission: time per token; burst: tokens that may come at once. With whole set, cost and
      tolerance are cut to whole nanoseconds, as int64 conversion does; without, they are exact. */
  datatype Config = Config(emission: real, burst: nat, whole: bool) {
    predicate Valid() { emission > 0.0 && burst >= 1 }

    function Cut(x: real): (r: real)
      ensures x >= 0.0 ==> 0.0 <= r <= x
    {
      if whole then x.Floor as real else x
    }
    function Cost(n: nat): real { Cut(Times(n, emission)) }
    function Tolerance(): real { Cut(Times(burst, emission)) }
  }

  /** The time that n tokens take. */
  function Times(n: nat, emission: real): real { n as real * emission }

  lemma CostNonNegative(c: Config, n: nat)
    requires c.Valid()
    ensures c.Cost(n) >= 0.0
  {
    assert n as real * c.emission >= 0.0;
  }

  /** One attempt against a loaded TAT: the new TAT, or nothing when the request is denied. */
  datatype Verdict = Grant(tat: real) | Deny

  function Decide(c: Config, tat: real, now: real, n: nat): (v: Verdict)
  {
    var start := if tat < now then now else tat;
    if start + c.Cost(n) - now > c.Tolerance() then Deny else Grant(start + c.Cost(n))
  }

  // ----- Concurrent callers, at the granularity of load and compare-and-swap -----

  /** A caller of acquire: it reads the clock, loads the TAT, tries to swap, and after a
      lost race reads the clock and tries once more. */
  datatype Pc =
    | Start(n: nat)
    | Loading(n: nat, attempt: nat, now: real)
    | Swapping(n: nat, attempt: nat, now: real, loaded: real, next: real)
    | Done(n: nat, ok: bool)

  /** An admitted request: its clock reading, its size and its cost. */
  datatype Admission = Admit(now: real, n: nat, cost: real)

  datatype State = State(
    threads: map<nat, Pc>, tat: real, allowed: nat, denied: nat, acquired: nat, log: seq<Admission>)

  ghost function Init(): State { State(map[], 0.0, 0, 0, 0, []) }

  /** Caller t acts; clock is what it reads if it reads the clock, n the size of a new call. */
  ghost predicate Next(c: Config, s: State, s': State, t: nat, clock: real, n: nat)
  {
    if t !in s.threads then n >= 1 && s' == s.(threads := s.threads[t := Start(n)])
    else
      match s.threads[t]
      case Start(n) => s' == s.(threads := s.threads[t := Loading(n, 0, clock)])
      case Loading(n, k, now) => (
        match Decide(c, s.tat, now, n)
        case Deny => s' == s.(threads := s.threads[t := Done(n, false)], denied := s.denied + 1)
        case Grant(next) => s' == s.(threads := s.threads[t := Swapping(n, k, now, s.tat, next)]))
      case Swapping(n, k, now, loaded, next) =>
        if s.tat == loaded then
          s' == State(s.threads[t := Done(n, true)], next, s.allowed + 1, s.denied, s.acquired + n,
                      s.log + [Admit(now, n, c.Cost(n))])
        else if k == 0 then s' == s.(threads := s.threads[t := Loading(n, 1, clock)])
        else s' == s.(threads := s.threads[t := Done(n, false)], denied := s.denied + 1)
      case Done(_, _) => false
  }

  ghost predicate Steps(c: Config, s: State, s': State)
  {
    exists t, clock, n :: Next(c, s, s', t, clock, n)
  }

  ghost predicate StepAt(c: Config, run: seq<State>, k: int)
    requires 0 < k < |run|
  {
    Steps(c, run[k - 1], run[k])
  }

  ghost predicate IsRun(c: Config, run: seq<State>)
  {
    run != [] && run[0] == Init() && forall k :: 0 < k < |run| ==> StepAt(c, run, k)
  }

  /** The cost admitted by requests whose clock reading lies in [a, b]. */
  function CostIn(log: seq<Admission>, a: real, b: real): real
  {
    if log == [] then 0.0
    else
      var g := log[|log| - 1];
      CostIn(log[..|log| - 1], a, b) + if a <= g.now <= b then g.cost else 0.0
  }

  lemma CostSnoc(log: seq<Admission>, g: Admission, a: real, b: real)
    ensures CostIn(log + [g], a, b) == CostIn(log, a, b) + if a <= g.now <= b then g.cost else 0.0
  {
    assert (log + [g])[..|log|] == log;
  }

  /** A pending swap carries a verdict on the value it loaded. */
  ghost predicate PendingOk(c: Config, p: Pc)
  {
    p.Swapping? ==> Decide(c, p.loaded, p.now, p.n) == Grant(p.next)
  }

  /** For the window [a, b] and the TAT: nothing was admitted in it, or what was admitted is at most the
      distance from a to the TAT, and never more than the tolerance plus the window. */
  ghost predicate Bounded(sum: real, tat: real, tolerance: real, a: real, b: real)
  {
    sum == 0.0 || (sum <= tat - a && sum <= tolerance + b - a)
  }

  lemma {:induction false} RunsBounded(c: Config, run: seq<State>, k: nat, a: real, b: real)
    requires c.Valid() && IsRun(c, run) && k < |run| && a <= b
    ensures Bounded(CostIn(run[k].log, a, b), run[k].tat, c.Tolerance(), a, b)
    ensures forall t :: t in run[k].threads ==> PendingOk(c, run[k].threads[t])
  {
    if k > 0 {
      RunsBounded(c, run, k - 1, a, b);
      assert StepAt(c, run, k);
      StepBounded(c, run[k - 1], run[k], a, b);
      StepPending(c, run[k - 1], run[k]);
    }
  }

  lemma StepPending(c: Config, s: State, s': State)
    requires Steps(c, s, s') && forall t :: t in s.threads ==> PendingOk(c, s.threads[t])
    ensures forall t :: t in s'.threads ==> PendingOk(c, s'.threads[t])
  {
  }

  lemma StepBounded(c: Config, s: State, s': State, a: real, b: real)
    requires c.Valid() && Steps(c, s, s') && a <= b && Bounded(CostIn(s.log, a, b), s.tat, c.Tolerance(), a, b)
    requires forall t :: t in s.threads ==> PendingOk(c, s.threads[t])
    ensures Bounded(CostIn(s'.log, a, b), s'.tat, c.Tolerance(), a, b)
  {
    var t, clock, n :| Next(c, s, s', t, clock, n);
    if Swaps(s, t) {
      SwapBounded(c, s.threads[t], s.log, a, b);
    }
  }

  ghost predicate Swaps(s: State, t: nat)
  {
    t in s.threads && s.threads[t].Swapping? && s.tat == s.threads[t].loaded
  }

  lemma SwapBounded(c: Config, p: Pc, log: seq<Admission>, a: real, b: real)
    requires c.Valid() && p.Swapping? && PendingOk(c, p) && a <= b
    requires Bounded(CostIn(log, a, b), p.loaded, c.Tolerance(), a, b)
    ensures Bounded(CostIn(log + [Admit(p.now, p.n, c.Cost(p.n))], a, b), p.next, c.Tolerance(), a, b)
  {
    CostSnoc(log, Admit(p.now, p.n, c.Cost(p.n)), a, b);
    GrantBounded(c, p.loaded, p.now, p.n, p.next, CostIn(log, a, b), a, b);
  }

  /** An admitted request moves the TAT on by its cost, from no earlier than its reading, to
      no later than the tolerance after it. */
  lemma GrantBounded(c: Config, tat: real, now: real, n: nat, next: real, sum: real, a: real, b: real)
    requires c.Valid() && Decide(c, tat, now, n) == Grant(next) && a <= b && Bounded(sum, tat, c.Tolerance(), a, b)
    ensures Bounded(sum + if a <= now <= b then c.Cost(n) else 0.0, next, c.Tolerance(), a, b)
  {
    CostNonNegative(c, n);
    GrantArith(tat, now, c.Cost(n), c.Tolerance(), sum, a, b);
  }

  lemma GrantArith(tat: real, now: real, cost: real, tolerance: real, sum: real, a: real, b: real)
    requires cost >= 0.0 && (if tat < now then now else tat) + cost - now <= tolerance
    requires Bounded(sum, tat, tolerance, a, b)
    ensures Bounded(sum + if a <= now <= b then cost else 0.0, (if tat < now then now else tat) + cost, tolerance, a, b)
  {
  }

  /** Over every run of concurrent callers, with clock readings in any order: the cost of
      the requests admitted on readings within [a, b] is at most the burst tolerance plus
      the length of the window. */
  lemma AdmissionBound(c: Config, run: seq<State>, k: nat, a: real, b: real)
    requires c.Valid() && IsRun(c, run) && k < |run| && a <= b
    ensures CostIn(run[k].log, a, b) <= c.Tolerance() + (b - a)
  {
    RunsBounded(c, run, k, a, b);
    assert c.emission * c.burst as real >= 0.0;
  }

  /** The tokens admitted by requests whose clock reading lies in [a, b]. */
  function TokensIn(log: seq<Admission>, a: real, b: real): nat
  {
    if log == [] then 0
    else
      var g := log[|log| - 1];
      TokensIn(log[..|log| - 1], a, b) + if a <= g.now <= b then g.n else 0
  }

  ghost predicate Priced(c: Config, log: seq<Admission>)
  {
    forall i :: 0 <= i < |log| ==> log[i].cost == c.Cost(log[i].n)
  }

  lemma {:induction false} RunsPriced(c: Config, run: seq<State>, k: nat)
    requires IsRun(c, run) && k < |run|
    ensures Priced(c, run[k].log)
  {
    if k > 0 {
      RunsPriced(c, run, k - 1);
      assert StepAt(c, run, k);
    }
  }

  /** Without rounding a token costs one emission interval. */
  lemma {:induction false} CostOfTokens(c: Config, log: seq<Admission>, a: real, b: real)
    requires !c.whole && Priced(c, log)
    ensures IsCost(CostIn(log, a, b), TokensIn(log, a, b), c.emission)
  {
    if log != [] {
      var n := |log| - 1;
      var init, g := log[..n], log[n];
      CostOfTokens(c, init, a, b);
      if a <= g.now <= b {
        CostExact(c, g.n);
        CostsAdd(CostIn(init, a, b), TokensIn(init, a, b), g.cost, g.n, c.emission);
      }
    }
  }

  predicate IsCost(cost: real, tokens: nat, e: real) { cost == tokens as real * e }

  lemma CostExact(c: Config, n: nat)
    requires !c.whole
    ensures IsCost(c.Cost(n), n, c.emission)
  {
  }

  lemma CostsAdd(x: real, m: nat, y: real, n: nat, e: real)
    requires IsCost(x, m, e) && IsCost(y, n, e)
    ensures IsCost(x + y, m + n, e)
  {
    assert (m + n) as real == m as real + n as real;
  }

  /** The same bound in tokens: at most the burst plus what the rate, one token per emission
      interval, gives over the length of the window. */
  lemma TokenBound(c: Config, rate: real, run: seq<State>, k: nat, a: real, b: real)
    requires Matched(c, rate) && IsRun(c, run) && k < |run| && a <= b
    ensures TokensIn(run[k].log, a, b) as real <= c.burst as real + rate * (b - a)
  {
    AdmissionBound(c, run, k, a, b);
    RunsPriced(c, run, k);
    LogTokens(c, rate, run[k].log, a, b, b - a);
  }

  ghost predicate CostWithin(c: Config, cost: real, z: real) { cost <= c.Tolerance() + z }

  ghost predicate TokensWithin(c: Config, rate: real, tokens: nat, z: real)
  {
    tokens as real <= c.burst as real + rate * z
  }

  lemma LogTokens(c: Config, rate: real, log: seq<Admission>, a: real, b: real, z: real)
    requires Matched(c, rate) && Priced(c, log)
    requires CostWithin(c, CostIn(log, a, b), z)
    ensures TokensWithin(c, rate, TokensIn(log, a, b), z)
  {
    CostOfTokens(c, log, a, b);
    TokensOfCost(c, rate, CostIn(log, a, b), TokensIn(log, a, b), z);
  }

  lemma TokensOfCost(c: Config, rate: real, cost: real, tokens: nat, z: real)
    requires Matched(c, rate) && IsCost(cost, tokens, c.emission) && CostWithin(c, cost, z)
    ensures TokensWithin(c, rate, tokens, z)
  {
    Unscale(tokens as real, c.burst as real, z, c.emission, rate);
  }

  lemma Unscale(x: real, y: real, z: real, e: real, rate: real)
    requires e > 0.0 && e * rate == 1.0 && x * e <= e * y + z
    ensures x <= y + rate * z
  {
    var w := y + rate * z;
    assert w * e == e * y + z by {
      assert rate * z * e == rate * e * z;
    }
    assert x > w ==> (x - w) * e > 0.0;
  }

  predicate Finished(p: Pc) { p.Done? }
  predicate Granted(p: Pc) { p.Done? && p.ok }

  /** The tokens of all admitted requests. */
  function Tokens(log: seq<Admission>): nat
  {
    if log == [] then 0 else Tokens(log[..|log| - 1]) + log[|log| - 1].n
  }

  lemma TokensSnoc(log: seq<Admission>, g: Admission)
    ensures Tokens(log + [g]) == Tokens(log) + g.n
  {
    assert (log + [g])[..|log|] == log;
  }

  /** The counters agree with the calls: every finished call is counted once, as allowed
      exactly when it was admitted, and acquired is what the admitted calls asked for. */
  ghost predicate Counted(s: State)
  {
    && s.allowed == |s.log| == |At(s.threads, Granted)|
    && s.allowed + s.denied == |At(s.threads, Finished)|
    && s.acquired == Tokens(s.log)
  }

  lemma {:induction false} RunsCounted(c: Config, run: seq<State>, k: nat)
    requires c.Valid() && IsRun(c, run) && k < |run|
    ensures Counted(run[k])
  {
    if k == 0 {
      assert At(Init().threads, Granted) == {} == At(Init().threads, Finished);
    } else {
      RunsCounted(c, run, k - 1);
      assert StepAt(c, run, k);
      StepCounted(c, run[k - 1], run[k]);
    }
  }

  lemma StepCounted(c: Config, s: State, s': State)
    requires Steps(c, s, s') && Counted(s)
    ensures Counted(s')
  {
    var t, clock, n :| Next(c, s, s', t, clock, n);
    AtUpdate(s.threads, t, s'.threads[t], Granted);
    AtUpdate(s.threads, t, s'.threads[t], Finished);
    assert s'.threads == s.threads[t := s'.threads[t]];
    StepTokens(c, s, s', t, clock, n);
  }

  lemma StepTokens(c: Config, s: State, s': State, t: nat, clock: real, n: nat)
    requires Next(c, s, s', t, clock, n)
    ensures s'.acquired - s.acquired == Tokens(s'.log) - Tokens(s.log)
  {
    if Swaps(s, t) {
      var p := s.threads[t];
      TokensSnoc(s.log, Admit(p.now, p.n, c.Cost(p.n)));
    }
  }

  // ----- The two limiters, called one request at a time -----

  class GcraLimiter {
    const c: Config
    var tat: real

    constructor (c: Config)
      ensures this.c == c && tat == 0.0
    {
      this.c := c;
      tat := 0.0;
    }

    /** acquire: with no other caller the first swap succeeds. */
    method Acquire(n: nat, now: real) returns (ok: bool)
      modifies this
      ensures ok == Decide(c, old(tat), now, n).Grant?
      ensures tat == if ok then Decide(c, old(tat), now, n).tat else old(tat)
    {
      var loaded := tat;
      var start := if loaded < now then now else loaded;
      var newTat := start + c.Cost(n);
      if newTat - now > c.Tolerance() {
        return false;
      }
      tat := newTat;
      ok := true;
    }
  }

  /** The bucket's water level after draining from last to now; a clock that went back
      drains nothing. */
  function Level(rate: real, water: real, last: real, now: real): real
  {
    LevelAfter(water, if now < last then 0.0 else (now - last) * rate)
  }

  function LevelAfter(water: real, drain: real): real
  {
    var d := if drain < 0.0 then 0.0 else drain;
    if water - d < 0.0 then 0.0 else water - d
  }

  datatype Bucket = Bucket(water: real, last: real)

  function Pour(c: Config, rate: real, b: Bucket, now: real, n: nat): (bool, Bucket)
  {
    var level := Level(rate, b.water, b.last, now);
    if level + n as real > c.burst as real then (false, b)
    else (true, Bucket(level + n as real, if now < b.last then b.last else now))
  }

  class LeakyBucket {
    const c: Config
    const rate: real
    var water: real
    var last: real

    constructor (c: Config, rate: real, now: real)
      ensures this.c == c && this.rate == rate && water == 0.0 && last == now
    {
      this.c, this.rate := c, rate;
      water, last := 0.0, now;
    }

    method Acquire(n: nat, reading: real) returns (ok: bool)
      modifies this
      ensures (ok, Bucket(water, last)) == Pour(c, rate, old(Bucket(water, last)), reading, n)
    {
      var now := reading;
      if now < last {
        now := last;
        ClockBack(rate, water, last, reading);
      }
      var level := Drained(rate, water, last, now);
      if level + n as real > c.burst as real {
        return false;
      }
      water := level + n as real;
      last := now;
      ok := true;
    }
  }

  /** The level after what drained since last, neither of them negative. */
  method Drained(rate: real, water: real, last: real, now: real) returns (level: real)
    requires last <= now
    ensures level == Level(rate, water, last, now)
  {
    var d := (now - last) * rate;
    if d < 0.0 {
      d := 0.0;
    }
    level := water - d;
    if level < 0.0 {
      level := 0.0;
    }
  }

  lemma ClockBack(rate: real, water: real, last: real, reading: real)
    requires reading < last
    ensures Level(rate, water, last, last) == Level(rate, water, last, reading)
  {
    NoTime(last - last, rate);
  }

  lemma NoTime(d: real, rate: real)
    requires d == 0.0
    ensures d * rate == 0.0
  {
  }

  // ----- They are the same limiter -----

  datatype Request = Request(now: real, n: nat)

  function GcraAnswers(c: Config, tat: real, reqs: seq<Request>): seq<bool>
    decreases |reqs|
  {
    if reqs == [] then []
    else
      var v := Decide(c, tat, reqs[0].now, reqs[0].n);
      [v.Grant?] + GcraAnswers(c, if v.Grant? then v.tat else tat, reqs[1..])
  }

  function BucketAnswers(c: Config, rate: real, b: Bucket, reqs: seq<Request>): seq<bool>
    decreases |reqs|
  {
    if reqs == [] then []
    else
      var (ok, b') := Pour(c, rate, b, reqs[0].now, reqs[0].n);
      [ok] + BucketAnswers(c, rate, b', reqs[1..])
  }

  ghost predicate Forward(at: real, reqs: seq<Request>)
    decreases |reqs|
  {
    reqs == [] || (at <= reqs[0].now && Forward(reqs[0].now, reqs[1..]))
  }

  /** The bucket will be empty at Empties(b): its theoretical arrival time. */
  function Empties(c: Config, b: Bucket): real { b.last + c.emission * b.water }

  /** TAT and bucket agree at the instant at: they run dry together, or are both dry. */
  ghost predicate Agree(c: Config, tat: real, b: Bucket, at: real)
  {
    b.water >= 0.0 && b.last <= at && (tat == Empties(c, b) || (tat <= at && Empties(c, b) <= at))
  }

  ghost predicate Matched(c: Config, rate: real)
  {
    c.Valid() && !c.whole && c.emission * rate == 1.0
  }

  /** Time until dry is the emission interval times the level, clamped at zero. */
  lemma LevelIsDelay(c: Config, rate: real, b: Bucket, now: real)
    requires Matched(c, rate) && b.last <= now
    ensures c.emission * Level(rate, b.water, b.last, now) == if Empties(c, b) < now then 0.0 else Empties(c, b) - now
  {
    var d := now - b.last;
    Positive(c.emission, rate);
    DrainTime(c.emission, rate, d, b.water, d * rate);
    SameSign(c.emission, b.water - d * rate);
  }

  /** What drains in the time d takes that time to drain. */
  lemma DrainTime(e: real, rate: real, d: real, water: real, drain: real)
    requires e > 0.0 && rate > 0.0 && e * rate == 1.0 && d >= 0.0 && drain == d * rate
    ensures drain >= 0.0 && e * (water - drain) == e * water - d
  {
    assert e * drain == d * (e * rate);
  }

  lemma Positive(e: real, r: real)
    requires e > 0.0 && e * r == 1.0
    ensures r > 0.0
  {
    SameSign(e, r);
  }

  lemma SameSign(e: real, x: real)
    requires e > 0.0
    ensures e * x < 0.0 <==> x < 0.0
    ensures e * x > 0.0 <==> x > 0.0
  {
  }

  /** An agreeing TAT is as far ahead of now as the bucket needs to run dry. */
  lemma AgreeDelay(c: Config, rate: real, tat: real, b: Bucket, at: real, now: real)
    requires Matched(c, rate) && Agree(c, tat, b, at) && at <= now
    ensures (if tat < now then now else tat) == now + c.emission * Level(rate, b.water, b.last, now)
    ensures Agree(c, tat, b, now) && Level(rate, b.water, b.last, now) >= 0.0
  {
    LevelIsDelay(c, rate, b, now);
  }

  /** One request: same decision, and the two still agree. */
  lemma SameDecision(c: Config, rate: real, tat: real, b: Bucket, at: real, r: Request)
    requires Matched(c, rate) && Agree(c, tat, b, at) && at <= r.now
    ensures var v := Decide(c, tat, r.now, r.n);
      var (ok, b') := Pour(c, rate, b, r.now, r.n);
      v.Grant? == ok && Agree(c, if ok then v.tat else tat, b', r.now)
  {
    var left := SameVerdict(c, rate, tat, b, at, r.now, r.n);
    AgreeDelay(c, rate, tat, b, at, r.now);
  }

  /** The two tests agree, and left is the time until dry after an admission. */
  lemma SameVerdict(c: Config, rate: real, tat: real, b: Bucket, at: real, now: real, n: nat) returns (left: real)
    requires Matched(c, rate) && Agree(c, tat, b, at) && at <= now
    ensures var level := Level(rate, b.water, b.last, now);
      && Decide(c, tat, now, n) == (if level + n as real > c.burst as real then Deny else Grant(now + left))
      && Agree(c, now + left, Bucket(level + n as real, now), now)
  {
    var level := Level(rate, b.water, b.last, now);
    var delay := c.emission * level;
    left := delay + c.Cost(n);
    AgreeDelay(c, rate, tat, b, at, now);
    SameTest(c, level, n);
    DecideIs(c, tat, now, n, delay);
    AgreeAt(c, now, level + n as real, left);
  }

  lemma DecideIs(c: Config, tat: real, now: real, n: nat, delay: real)
    requires (if tat < now then now else tat) == now + delay
    ensures Decide(c, tat, now, n) ==
      if delay + c.Cost(n) > c.Tolerance() then Deny else Grant(now + (delay + c.Cost(n)))
  {
  }

  lemma AgreeAt(c: Config, now: real, water: real, left: real)
    requires water >= 0.0 && c.emission * water == left
    ensures Agree(c, now + left, Bucket(water, now), now)
  {
  }

  /** Delay plus cost exceeds the tolerance exactly when the bucket would overflow. */
  lemma SameTest(c: Config, level: real, n: nat)
    requires c.Valid() && !c.whole
    ensures c.emission * level + c.Cost(n) > c.Tolerance() <==> level + n as real > c.burst as real
    ensures c.emission * (level + n as real) == c.emission * level + c.Cost(n)
  {
    SameArith(c.emission, level, n as real, c.burst as real);
  }

  lemma SameArith(e: real, level: real, n: real, burst: real)
    requires e > 0.0
    ensures e * level + n * e > e * burst <==> level + n > burst
    ensures e * (level + n) == e * level + n * e
  {
    assert e * (level + n) == e * level + n * e;
    SameSign(e, level + n - burst);
    assert e * (level + n - burst) == e * (level + n) - e * burst;
  }

  lemma {:induction false} SameAnswers(c: Config, rate: real, tat: real, b: Bucket, at: real, reqs: seq<Request>)
    requires Matched(c, rate) && Agree(c, tat, b, at) && Forward(at, reqs)
    ensures GcraAnswers(c, tat, reqs) == BucketAnswers(c, rate, b, reqs)
    decreases |reqs|
  {
    if reqs != [] {
      SameDecision(c, rate, tat, b, at, reqs[0]);
      var v := Decide(c, tat, reqs[0].now, reqs[0].n);
      var (ok, b') := Pour(c, rate, b, reqs[0].now, reqs[0].n);
      SameAnswers(c, rate, if v.Grant? then v.tat else tat, b', reqs[0].now, reqs[1..]);
    }
  }

  /** In exact arithmetic and with a clock that does not go back, the GCRA limiter and the
      leaky bucket of equal rate and burst, both new at the instant start, give the same
      answer to every request of every sequence. */
  lemma GcraIsLeakyBucket(c: Config, rate: real, start: real, reqs: seq<Request>)
    requires Matched(c, rate) && 0.0 <= start && Forward(start, reqs)
    ensures GcraAnswers(c, 0.0, reqs) == BucketAnswers(c, rate, Bucket(0.0, start), reqs)
  {
    SameAnswers(c, rate, 0.0, Bucket(0.0, start), start, reqs);
  }
}
