/** What the answers of the concurrent leaky bucket mean, and that one call at a time is the plain
    bucket. */
module LeakyCalls {
  import opened Sets
  import opened Threads
  import Limiter
  import opened LeakyRuns

  /** The call of thread t for n tokens starts with the step to run[i]. */
  ghost predicate Called(run: seq<Leak>, i: nat, t: nat, n: nat)
  {
    0 < i < |run| && t !in run[i - 1].threads && t in run[i].threads && run[i].threads[t] == Begin(n)
  }

  // ----- Admissions are the calls that were told yes -----

  predicate Admitted(p: LeakPc) { p.Stamp? || p == Over(true) }

  /** Every admission in the log is one of a call that was told yes or is about to be. */
  lemma {:induction false} RunsCounted(c: Limiter.Config, rate: real, start: real, run: seq<Leak>, k: nat)
    requires IsRun(c, rate, start, run) && k < |run|
    ensures |run[k].log| == |At(run[k].threads, Admitted)|
  {
    if k == 0 {
      assert At(run[0].threads, Admitted) == {};
    } else {
      RunsCounted(c, rate, start, run, k - 1);
      assert StepAt(c, rate, run, k);
      StepCounted(c, rate, run[k - 1], run[k]);
    }
  }

  lemma StepCounted(c: Limiter.Config, rate: real, s: Leak, s': Leak)
    requires Steps(c, rate, s, s') && |s.log| == |At(s.threads, Admitted)|
    ensures |s'.log| == |At(s'.threads, Admitted)|
  {
    var t, clock, n :| Next(c, rate, s, s', t, clock, n);
    NextCounted(c, rate, s, s', t, clock, n);
    AtUpdate(s.threads, t, s'.threads[t], Admitted);
  }

  function One(b: bool): int { if b then 1 else 0 }

  lemma NextCounted(c: Limiter.Config, rate: real, s: Leak, s': Leak, t: nat, clock: real, n: nat)
    requires Next(c, rate, s, s', t, clock, n)
    ensures t in s'.threads && s'.threads == s.threads[t := s'.threads[t]]
    ensures |s'.log| - |s.log| == One(Admitted(s'.threads[t])) - One(t in s.threads && Admitted(s.threads[t]))
  {
  }

  // ----- Under contention -----

  /** The call of t for n tokens found in this state that the bucket would overflow. */
  ghost predicate Found(c: Limiter.Config, rate: real, s: Leak, t: nat, n: nat)
  {
    && t in s.threads && s.threads[t].Ready? && s.threads[t].q.n == n
    && Limiter.Level(rate, s.water, s.threads[t].last, s.threads[t].now) + n as real > c.burst as real
  }

  ghost predicate FoundIn(c: Limiter.Config, rate: real, run: seq<Leak>, i: nat, k: nat, t: nat, n: nat)
    requires k < |run|
  {
    exists j :: i <= j <= k && Found(c, rate, run[j], t, n)
  }

  ghost predicate Admits(log: seq<Limiter.Admission>, from: nat, n: nat)
  {
    exists x :: from <= x < |log| && log[x].n == n
  }

  /** Where the call started at run[i] stands at run[k], and how many others it has lost against. */
  ghost predicate Stands(c: Limiter.Config, rate: real, run: seq<Leak>, i: nat, k: nat, t: nat, n: nat, p: LeakPc)
    requires i <= k < |run|
  {
    var others := |run[k].log| - |run[i].log|;
    && others >= 0
    && match p
       case Begin(m) => m == n
       case Read(q) => q.n == n
       case Ready(q, a, _, _) => q.n == n && a <= 1 && a <= others
       case Trying(q, a, _, _, cur, _) => q.n == n && a <= 1 && a <= others && (cur == run[k].water || a < others)
       case Reload(q, _) => q.n == n && 1 <= others
       case Stamp(q, _, _) => Admits(run[k].log, |run[i].log|, n)
       case Over(ok) =>
         if ok then Admits(run[k].log, |run[i].log|, n) else others >= 2 || FoundIn(c, rate, run, i, k, t, n)
  }

  /** The log grows by what changes the level. */
  ghost predicate Onward(s: Leak, s': Leak)
  {
    && |s.log| <= |s'.log| && s'.log[..|s.log|] == s.log
    && (s'.water == s.water || |s.log| < |s'.log|)
  }

  lemma AdmitsOn(log: seq<Limiter.Admission>, log': seq<Limiter.Admission>, from: nat, n: nat)
    requires Admits(log, from, n) && |log| <= |log'| && log'[..|log|] == log
    ensures Admits(log', from, n)
  {
    var x :| from <= x < |log| && log[x].n == n;
    assert log'[x] == log'[..|log|][x];
  }

  lemma StandsOn(c: Limiter.Config, rate: real, run: seq<Leak>, i: nat, k: nat, t: nat, n: nat, p: LeakPc)
    requires i < k < |run| && Stands(c, rate, run, i, k - 1, t, n, p) && Onward(run[k - 1], run[k])
    ensures Stands(c, rate, run, i, k, t, n, p)
  {
    if Admits(run[k - 1].log, |run[i].log|, n) {
      AdmitsOn(run[k - 1].log, run[k].log, |run[i].log|, n);
    }
  }

  lemma StandsNext(c: Limiter.Config, rate: real, run: seq<Leak>, i: nat, k: nat, t: nat, n: nat, clock: real, m: nat)
    requires i < k < |run| && t in run[k - 1].threads && Next(c, rate, run[k - 1], run[k], t, clock, m)
    requires Stands(c, rate, run, i, k - 1, t, n, run[k - 1].threads[t])
    ensures t in run[k].threads && Stands(c, rate, run, i, k, t, n, run[k].threads[t])
  {
    var s, s' := run[k - 1], run[k];
    if s.threads[t].Ready? && s'.threads[t].Over? {
      assert Found(c, rate, s, t, n);
    }
    if |s'.log| > |s.log| {
      assert s'.log[|s.log|].n == n;
    }
  }

  lemma OthersLeave(c: Limiter.Config, rate: real, s: Leak, s': Leak, u: nat, clock: real, m: nat, t: nat)
    requires Next(c, rate, s, s', u, clock, m) && u != t && t in s.threads
    ensures t in s'.threads && s'.threads[t] == s.threads[t] && Onward(s, s')
  {
  }

  lemma StandsStep(c: Limiter.Config, rate: real, run: seq<Leak>, i: nat, k: nat, t: nat, n: nat)
    requires i < k < |run| && StepAt(c, rate, run, k) && t in run[k - 1].threads
    requires Stands(c, rate, run, i, k - 1, t, n, run[k - 1].threads[t])
    ensures t in run[k].threads && Stands(c, rate, run, i, k, t, n, run[k].threads[t])
  {
    var u, clock, m :| Next(c, rate, run[k - 1], run[k], u, clock, m);
    if u == t {
      StandsNext(c, rate, run, i, k, t, n, clock, m);
    } else {
      OthersLeave(c, rate, run[k - 1], run[k], u, clock, m, t);
      StandsOn(c, rate, run, i, k, t, n, run[k - 1].threads[t]);
    }
  }

  lemma {:induction false} CallStands(c: Limiter.Config, rate: real, start: real, run: seq<Leak>,
      i: nat, k: nat, t: nat, n: nat)
    requires IsRun(c, rate, start, run) && Called(run, i, t, n) && i <= k < |run|
    ensures t in run[k].threads && Stands(c, rate, run, i, k, t, n, run[k].threads[t])
    decreases k - i
  {
    if i < k {
      CallStands(c, rate, start, run, i, k - 1, t, n);
      assert StepAt(c, rate, run, k);
      StandsStep(c, rate, run, i, k, t, n);
    }
  }

  /** Every answer of every run: a call that was told yes has its admission in the log since it
      started; one that was told no found that the bucket would overflow, or at least two others
      were admitted during the call. */
  lemma AnswersMean(c: Limiter.Config, rate: real, start: real, run: seq<Leak>, i: nat, k: nat, t: nat, n: nat)
    requires IsRun(c, rate, start, run) && Called(run, i, t, n) && i <= k < |run|
    ensures t in run[k].threads
    ensures run[k].threads[t] == Over(true) ==> Admits(run[k].log, |run[i].log|, n)
    ensures run[k].threads[t] == Over(false) ==>
      |run[k].log| >= |run[i].log| + 2 || FoundIn(c, rate, run, i, k, t, n)
  {
    CallStands(c, rate, start, run, i, k, t, n);
  }

  // ----- One call at a time -----

  ghost predicate Solo(run: seq<Leak>)
  {
    forall k :: 0 <= k < |run| ==> |At(run[k].threads, Active)| <= 1
  }

  function Holding(s: Leak): Limiter.Bucket { Limiter.Bucket(s.water, s.last) }

  /** Where the only call under way stands that found the bucket b. */
  ghost predicate Alone(c: Limiter.Config, rate: real, s: Leak, b: Limiter.Bucket, n: nat, p: LeakPc)
  {
    match p
    case Begin(m) => m == n && Holding(s) == b
    case Read(q) => q == Ask(n, s.clock) && Holding(s) == b
    case Ready(q, a, now, last) => q == Ask(n, s.clock) && a == 0 && Holding(s) == b && Clamped(b, q.read, now, last)
    case Trying(q, a, now, last, cur, next) =>
      && q == Ask(n, s.clock) && Holding(s) == b && Clamped(b, q.read, now, last) && cur == b.water
      && Limiter.Pour(c, rate, b, q.read, n) == (true, Limiter.Bucket(next, now))
    case Reload(_, _) => false
    case Stamp(q, now, last) =>
      && q == Ask(n, s.clock) && last == s.last
      && Limiter.Pour(c, rate, b, q.read, n) == (true, Limiter.Bucket(s.water, now))
    case Over(ok) => (ok, Holding(s)) == Limiter.Pour(c, rate, b, s.clock, n)
  }

  ghost predicate Clamped(b: Limiter.Bucket, read: real, now: real, last: real)
  {
    last == b.last && now == if read < b.last then b.last else read
  }

  lemma AloneNext(c: Limiter.Config, rate: real, s: Leak, s': Leak, t: nat, clock: real, m: nat,
      b: Limiter.Bucket, n: nat)
    requires t in s.threads && Next(c, rate, s, s', t, clock, m) && Alone(c, rate, s, b, n, s.threads[t])
    ensures t in s'.threads && Alone(c, rate, s', b, n, s'.threads[t])
  {
    var p := s.threads[t];
    if p.Ready? && p.q.read < b.last {
      Limiter.ClockBack(rate, b.water, b.last, p.q.read);
    }
  }

  lemma ActorActive(c: Limiter.Config, rate: real, s: Leak, s': Leak, u: nat, clock: real, m: nat)
    requires Next(c, rate, s, s', u, clock, m)
    ensures if u in s.threads then Active(s.threads[u]) else u in s'.threads && Active(s'.threads[u])
  {
  }

  /** While the call is under way no other thread acts. */
  lemma OnlyOne(c: Limiter.Config, rate: real, s: Leak, s': Leak, t: nat, u: nat, clock: real, m: nat)
    requires t in s.threads && Active(s.threads[t]) && Next(c, rate, s, s', u, clock, m)
    requires |At(s.threads, Active)| <= 1 && |At(s'.threads, Active)| <= 1
    ensures u == t
  {
    ActorActive(c, rate, s, s', u, clock, m);
    if u != t {
      OthersLeave(c, rate, s, s', u, clock, m, t);
    }
    AtFew(s.threads, Active);
    AtFew(s'.threads, Active);
  }

  lemma {:induction false} AloneStands(c: Limiter.Config, rate: real, start: real, run: seq<Leak>,
      i: nat, k: nat, t: nat, n: nat)
    requires IsRun(c, rate, start, run) && Solo(run) && Called(run, i, t, n) && i <= k < |run|
    requires forall j :: i <= j < k ==> t in run[j].threads && Active(run[j].threads[t])
    ensures t in run[k].threads && Alone(c, rate, run[k], Holding(run[i]), n, run[k].threads[t])
    decreases k - i
  {
    if i < k {
      AloneStands(c, rate, start, run, i, k - 1, t, n);
      assert StepAt(c, rate, run, k);
      var u, clock, m :| Next(c, rate, run[k - 1], run[k], u, clock, m);
      OnlyOne(c, rate, run[k - 1], run[k], t, u, clock, m);
      AloneNext(c, rate, run[k - 1], run[k], t, clock, m, Holding(run[i]), n);
    }
  }

  /** Calls that do not overlap are the plain leaky bucket, for any clock: the answer of a call and
      the bucket it leaves are those of Pour on the bucket it found, at the reading it took. */
  lemma SoloPours(c: Limiter.Config, rate: real, start: real, run: seq<Leak>, i: nat, k: nat, t: nat, n: nat, ok: bool)
    requires IsRun(c, rate, start, run) && Solo(run) && Called(run, i, t, n) && i <= k < |run|
    requires forall j :: i <= j < k ==> t in run[j].threads && Active(run[j].threads[t])
    requires t in run[k].threads && run[k].threads[t] == Over(ok)
    ensures (ok, Holding(run[k])) == Limiter.Pour(c, rate, Holding(run[i]), run[k].clock, n)
  {
    AloneStands(c, rate, start, run, i, k, t, n);
  }

  // ----- A call is over after a few steps of its own -----

  /** The steps from run[i] to run[k] that move the call of t. */
  function OwnSteps(run: seq<Leak>, i: nat, k: nat, t: nat): nat
    requires i <= k < |run| && forall j :: i <= j <= k ==> t in run[j].threads
    decreases k - i
  {
    if i == k then 0 else OwnSteps(run, i, k - 1, t) + if run[k].threads[t] == run[k - 1].threads[t] then 0 else 1
  }

  function StepsLeft(p: LeakPc): int
  {
    match p
    case Begin(_) => 8
    case Read(_) => 7
    case Ready(_, a, _, _) => 6 - 3 * a
    case Trying(_, a, _, _, _, _) => 5 - 3 * a
    case Reload(_, _) => 4
    case Stamp(_, _, _) => 1
    case Over(_) => 0
  }

  predicate SecondAtMost(p: LeakPc) { p.Ready? || p.Trying? ==> p.k <= 1 }

  /** The call of t goes on or stays. */
  lemma StepMoves(c: Limiter.Config, rate: real, s: Leak, s': Leak, t: nat)
    requires Steps(c, rate, s, s') && t in s.threads && SecondAtMost(s.threads[t])
    ensures t in s'.threads && SecondAtMost(s'.threads[t])
    ensures s'.threads[t] == s.threads[t] || StepsLeft(s'.threads[t]) < StepsLeft(s.threads[t])
  {
  }

  /** Every call of every run is over after at most eight steps of its own, whatever others do. */
  lemma {:induction false} WaitFree(c: Limiter.Config, rate: real, start: real, run: seq<Leak>,
      i: nat, k: nat, t: nat, n: nat)
    requires IsRun(c, rate, start, run) && Called(run, i, t, n) && i <= k < |run|
    ensures forall j :: i <= j <= k ==> t in run[j].threads
    ensures OwnSteps(run, i, k, t) <= 8
    ensures OwnSteps(run, i, k, t) + StepsLeft(run[k].threads[t]) <= 8 && SecondAtMost(run[k].threads[t])
    decreases k - i
  {
    if i < k {
      WaitFree(c, rate, start, run, i, k - 1, t, n);
      assert StepAt(c, rate, run, k);
      StepMoves(c, rate, run[k - 1], run[k], t);
    }
  }
}
