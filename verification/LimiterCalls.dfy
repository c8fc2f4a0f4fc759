/** When GCRA denies: one request at a time exactly when the limit demands it, and under contention
    also after two lost races. */
module LimiterCalls {
  import opened Limiter

  // ----- One request at a time -----

  /** The TAT and the admissions after the requests, on a new limiter. */
  function Served(c: Config, reqs: seq<Request>): (real, seq<Admission>)
  {
    if reqs == [] then (0.0, [])
    else
      var s, r := Served(c, reqs[..|reqs| - 1]), reqs[|reqs| - 1];
      match Decide(c, s.0, r.now, r.n)
      case Deny => s
      case Grant(tat) => (tat, s.1 + [Admit(r.now, r.n, c.Cost(r.n))])
  }

  /** The readings do not go back, from 0 up to now. */
  ghost predicate Upto(reqs: seq<Request>, now: real)
  {
    if reqs == [] then 0.0 <= now
    else reqs[|reqs| - 1].now <= now && Upto(reqs[..|reqs| - 1], reqs[|reqs| - 1].now)
  }

  /** What was admitted in any window is within the limit. */
  ghost predicate Conforms(c: Config, tat: real, log: seq<Admission>)
  {
    forall a: real, b: real :: a <= b ==> Bounded(CostIn(log, a, b), tat, c.Tolerance(), a, b)
  }

  /** The TAT is the start of a busy period plus all that was admitted since. */
  ghost predicate Busy(tat: real, log: seq<Admission>, now: real, a: real)
  {
    a <= now && tat == a + CostIn(log, a, now)
  }

  /** Nothing in the log was admitted later than now. */
  ghost predicate Past(log: seq<Admission>, now: real)
  {
    forall k :: 0 <= k < |log| ==> log[k].now <= now
  }

  lemma {:induction false} CostUpto(log: seq<Admission>, a: real, b: real, now: real)
    requires Past(log, b) && b <= now
    ensures CostIn(log, a, now) == CostIn(log, a, b)
  {
    if log != [] {
      CostUpto(log[..|log| - 1], a, b, now);
    }
  }

  lemma {:induction false} CostAtLeast(c: Config, log: seq<Admission>, a: real, b: real)
    requires c.Valid() && Priced(c, log)
    ensures CostIn(log, a, b) >= 0.0
  {
    if log != [] {
      CostAtLeast(c, log[..|log| - 1], a, b);
      CostNonNegative(c, log[|log| - 1].n);
    }
  }

  lemma ConformsOn(c: Config, tat: real, log: seq<Admission>, r: Request, next: real)
    requires c.Valid() && Conforms(c, tat, log) && Decide(c, tat, r.now, r.n) == Grant(next)
    ensures Conforms(c, next, log + [Admit(r.now, r.n, c.Cost(r.n))])
  {
    forall a: real, b: real | a <= b
      ensures Bounded(CostIn(log + [Admit(r.now, r.n, c.Cost(r.n))], a, b), next, c.Tolerance(), a, b)
    {
      CostSnoc(log, Admit(r.now, r.n, c.Cost(r.n)), a, b);
      GrantBounded(c, tat, r.now, r.n, next, CostIn(log, a, b), a, b);
    }
  }

  /** A granted request goes on with the busy period, or starts one when the TAT is past. */
  lemma BusyOn(c: Config, tat: real, log: seq<Admission>, now: real, a: real, r: Request, next: real) returns (a': real)
    requires c.Valid() && Conforms(c, tat, log) && Priced(c, log) && Past(log, now) && Busy(tat, log, now, a)
    requires now <= r.now && Decide(c, tat, r.now, r.n) == Grant(next)
    ensures Busy(next, log + [Admit(r.now, r.n, c.Cost(r.n))], r.now, a')
  {
    a' := if tat < r.now then r.now else a;
    CostSnoc(log, Admit(r.now, r.n, c.Cost(r.n)), a', r.now);
    CostUpto(log, a, now, r.now);
    CostAtLeast(c, log, r.now, r.now);
    assert Bounded(CostIn(log, r.now, r.now), tat, c.Tolerance(), r.now, r.now);
  }

  lemma {:induction false} ServedKeeps(c: Config, reqs: seq<Request>, now: real) returns (a: real)
    requires c.Valid() && Upto(reqs, now)
    ensures var (tat, log) := Served(c, reqs);
      Conforms(c, tat, log) && Priced(c, log) && Past(log, now) && Busy(tat, log, now, a)
  {
    if reqs == [] {
      a := 0.0;
    } else {
      var init, r := reqs[..|reqs| - 1], reqs[|reqs| - 1];
      a := ServedKeeps(c, init, r.now);
      var s, v := Served(c, init), Decide(c, Served(c, init).0, r.now, r.n);
      if v.Grant? {
        ConformsOn(c, s.0, s.1, r, v.tat);
        a := BusyOn(c, s.0, s.1, r.now, a, r, v.tat);
      }
      CostUpto(Served(c, reqs).1, a, r.now, now);
    }
  }

  /** Admitting a request of this cost on the reading now would put more into the window from a
      than the limit allows. */
  ghost predicate Breaks(c: Config, log: seq<Admission>, a: real, now: real, cost: real)
  {
    a <= now && CostIn(log, a, now) + cost > c.Tolerance() + (now - a)
  }

  /** With one request at a time and a forward clock, GCRA denies a request exactly when admitting
      it would break the limit in some window that ends at its reading. */
  lemma DeniedIff(c: Config, reqs: seq<Request>, r: Request)
    requires c.Valid() && Upto(reqs, r.now)
    ensures var (tat, log) := Served(c, reqs);
      Decide(c, tat, r.now, r.n).Deny? <==> exists a :: Breaks(c, log, a, r.now, c.Cost(r.n))
  {
    var a := ServedKeeps(c, reqs, r.now);
    var (tat, log) := Served(c, reqs);
    if Decide(c, tat, r.now, r.n).Deny? {
      DenyBreaks(c, tat, log, a, r);
    } else {
      GrantConforms(c, tat, log, r);
    }
  }

  lemma DenyBreaks(c: Config, tat: real, log: seq<Admission>, a: real, r: Request)
    requires c.Valid() && Priced(c, log) && Busy(tat, log, r.now, a) && Decide(c, tat, r.now, r.n).Deny?
    ensures Breaks(c, log, if tat < r.now then r.now else a, r.now, c.Cost(r.n))
  {
    CostAtLeast(c, log, r.now, r.now);
  }

  lemma GrantConforms(c: Config, tat: real, log: seq<Admission>, r: Request)
    requires c.Valid() && Conforms(c, tat, log) && Decide(c, tat, r.now, r.n).Grant?
    ensures forall a :: !Breaks(c, log, a, r.now, c.Cost(r.n))
  {
    var next := Decide(c, tat, r.now, r.n).tat;
    CostNonNegative(c, c.burst);
    forall a: real | a <= r.now
      ensures !Breaks(c, log, a, r.now, c.Cost(r.n))
    {
      assert Bounded(CostIn(log, a, r.now), tat, c.Tolerance(), a, r.now);
      GrantBounded(c, tat, r.now, r.n, next, CostIn(log, a, r.now), a, r.now);
    }
  }

  // ----- Under contention -----

  /** The call of thread t for n tokens starts with the step to run[i]. */
  ghost predicate Called(run: seq<State>, i: nat, t: nat, n: nat)
  {
    0 < i < |run| && t !in run[i - 1].threads && t in run[i].threads && run[i].threads[t] == Start(n)
  }

  /** On the reading now, against this TAT, n tokens are too many. */
  ghost predicate TooMany(c: Config, tat: real, now: real, n: nat)
  {
    (if tat < now then now else tat) + c.Cost(n) - now > c.Tolerance()
  }

  /** The call of t for n tokens found them too many in this state, on its own reading. */
  ghost predicate Found(c: Config, s: State, t: nat, n: nat)
  {
    t in s.threads && s.threads[t].Loading? && s.threads[t].n == n && TooMany(c, s.tat, s.threads[t].now, n)
  }

  ghost predicate FoundIn(c: Config, run: seq<State>, i: nat, k: nat, t: nat, n: nat)
    requires k < |run|
  {
    exists j :: i <= j <= k && Found(c, run[j], t, n)
  }

  /** Where the call started at run[i] stands at run[k], and how many others it has lost against. */
  ghost predicate Stands(c: Config, run: seq<State>, i: nat, k: nat, t: nat, n: nat, p: Pc)
    requires i <= k < |run|
  {
    var others := |run[k].log| - |run[i].log|;
    && p.n == n && others >= 0
    && match p
       case Start(_) => true
       case Loading(_, a, _) => a <= 1 && a <= others
       case Swapping(_, a, _, loaded, _) => a <= 1 && a <= others && (loaded == run[k].tat || a < others)
       case Done(_, ok) =>
         if ok then Admits(run[k].log, |run[i].log|, n) else others >= 2 || FoundIn(c, run, i, k, t, n)
  }

  /** A request for n tokens was admitted as number from or later. */
  ghost predicate Admits(log: seq<Admission>, from: nat, n: nat)
  {
    exists x :: from <= x < |log| && log[x].n == n
  }

  /** The log grows by what the TAT moves on. */
  ghost predicate Onward(s: State, s': State)
  {
    && |s.log| <= |s'.log| && s'.log[..|s.log|] == s.log
    && (s'.tat == s.tat || |s.log| < |s'.log|)
  }

  lemma StandsOn(c: Config, run: seq<State>, i: nat, k: nat, t: nat, n: nat, p: Pc)
    requires i < k < |run| && Stands(c, run, i, k - 1, t, n, p) && Onward(run[k - 1], run[k])
    ensures Stands(c, run, i, k, t, n, p)
  {
    if p.Done? && p.ok {
      var x :| |run[i].log| <= x < |run[k - 1].log| && run[k - 1].log[x].n == n;
      assert run[k].log[x] == run[k].log[..|run[k - 1].log|][x];
    }
  }

  lemma StandsNext(c: Config, run: seq<State>, i: nat, k: nat, t: nat, n: nat, clock: real, m: nat)
    requires i < k < |run| && t in run[k - 1].threads && Next(c, run[k - 1], run[k], t, clock, m)
    requires Stands(c, run, i, k - 1, t, n, run[k - 1].threads[t])
    ensures t in run[k].threads && Stands(c, run, i, k, t, n, run[k].threads[t])
  {
    var s, p := run[k - 1], run[k - 1].threads[t];
    if p.Loading? && Decide(c, s.tat, p.now, p.n).Deny? {
      assert Found(c, s, t, n);
    }
    if Swaps(s, t) {
      assert run[k].log[|s.log|].n == n;
    }
  }

  lemma {:induction false} CallStands(c: Config, run: seq<State>, i: nat, k: nat, t: nat, n: nat)
    requires IsRun(c, run) && Called(run, i, t, n) && i <= k < |run|
    ensures t in run[k].threads && Stands(c, run, i, k, t, n, run[k].threads[t])
    decreases k - i
  {
    if i < k {
      CallStands(c, run, i, k - 1, t, n);
      assert StepAt(c, run, k);
      StandsStep(c, run, i, k, t, n);
    }
  }

  lemma StandsStep(c: Config, run: seq<State>, i: nat, k: nat, t: nat, n: nat)
    requires i < k < |run| && StepAt(c, run, k) && t in run[k - 1].threads
    requires Stands(c, run, i, k - 1, t, n, run[k - 1].threads[t])
    ensures t in run[k].threads && Stands(c, run, i, k, t, n, run[k].threads[t])
  {
    var u, clock, m :| Next(c, run[k - 1], run[k], u, clock, m);
    if u == t {
      StandsNext(c, run, i, k, t, n, clock, m);
    } else {
      OthersLeave(c, run[k - 1], run[k], u, clock, m, t);
      StandsOn(c, run, i, k, t, n, run[k - 1].threads[t]);
    }
  }

  lemma OthersLeave(c: Config, s: State, s': State, u: nat, clock: real, m: nat, t: nat)
    requires Next(c, s, s', u, clock, m) && u != t && t in s.threads
    ensures t in s'.threads && s'.threads[t] == s.threads[t] && Onward(s, s')
  {
  }

  lemma {:induction false} CallStarts(c: Config, run: seq<State>, k: nat, t: nat) returns (i: nat)
    requires IsRun(c, run) && k < |run| && t in run[k].threads
    ensures i <= k && Called(run, i, t, run[k].threads[t].n)
  {
    assert k > 0;
    assert StepAt(c, run, k);
    if t in run[k - 1].threads {
      i := CallStarts(c, run, k - 1, t);
      CallStands(c, run, i, k, t, run[k - 1].threads[t].n);
    } else {
      i := k;
    }
  }

  /** Every answer of every run of concurrent callers: a call that was told yes has its admission in
      the log since it started; one that was told no found its tokens too many on one of its own
      readings, or at least two others were admitted during the call. */
  lemma AnswersMean(c: Config, run: seq<State>, k: nat, t: nat, n: nat, ok: bool) returns (i: nat)
    requires IsRun(c, run) && k < |run| && t in run[k].threads && run[k].threads[t] == Done(n, ok)
    ensures i <= k && Called(run, i, t, n)
    ensures if ok then Admits(run[k].log, |run[i].log|, n)
      else |run[k].log| >= |run[i].log| + 2 || FoundIn(c, run, i, k, t, n)
  {
    i := CallStarts(c, run, k, t);
    CallStands(c, run, i, k, t, n);
  }

  // ----- A call is over after a few steps of its own -----

  /** The steps from run[i] to run[k] that move the call of t. */
  function OwnSteps(run: seq<State>, i: nat, k: nat, t: nat): nat
    requires i <= k < |run| && forall j :: i <= j <= k ==> t in run[j].threads
    decreases k - i
  {
    if i == k then 0 else OwnSteps(run, i, k - 1, t) + if run[k].threads[t] == run[k - 1].threads[t] then 0 else 1
  }

  function StepsLeft(p: Pc): int
  {
    match p
    case Start(_) => 5
    case Loading(_, a, _) => 4 - 2 * a
    case Swapping(_, a, _, _, _) => 3 - 2 * a
    case Done(_, _) => 0
  }

  predicate SecondAtMost(p: Pc) { p.Loading? || p.Swapping? ==> p.attempt <= 1 }

  /** The call of t goes on or stays. */
  lemma StepMoves(c: Config, s: State, s': State, t: nat)
    requires Steps(c, s, s') && t in s.threads && SecondAtMost(s.threads[t])
    ensures t in s'.threads && SecondAtMost(s'.threads[t])
    ensures s'.threads[t] == s.threads[t] || StepsLeft(s'.threads[t]) < StepsLeft(s.threads[t])
  {
  }

  /** Every call of every run is over after at most five steps of its own, whatever others do: a clock
      reading, and twice a load and a swap. */
  lemma {:induction false} WaitFree(c: Config, run: seq<State>, i: nat, k: nat, t: nat, n: nat)
    requires IsRun(c, run) && Called(run, i, t, n) && i <= k < |run|
    ensures forall j :: i <= j <= k ==> t in run[j].threads
    ensures OwnSteps(run, i, k, t) <= 5
    ensures OwnSteps(run, i, k, t) + StepsLeft(run[k].threads[t]) <= 5 && SecondAtMost(run[k].threads[t])
    decreases k - i
  {
    if i < k {
      WaitFree(c, run, i, k - 1, t, n);
      assert StepAt(c, run, k);
      StepMoves(c, run[k - 1], run[k], t);
    }
  }
}
