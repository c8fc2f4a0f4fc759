/** The leaky bucket's lastTime: who moves it, and when it can go back. */
module LeakyTime {
  import opened Sets
  import opened Threads
  import Limiter
  import opened LeakyRuns

  // ----- Who moves lastTime -----

  /** Caller t loads lastTime with the step from run[j], as the first or the second time. */
  ghost predicate Loads(run: seq<Leak>, j: nat, t: nat)
  {
    && j + 1 < |run| && t in run[j].threads && (run[j].threads[t].Read? || run[j].threads[t].Reload?)
    && t in run[j + 1].threads && run[j + 1].threads[t].Ready?
  }

  predicate HasLast(p: LeakPc) { p.Ready? || p.Trying? || p.Stamp? }

  /** The lastTime that a call goes by is the one it loaded. */
  lemma {:induction false} LoadedLast(c: Limiter.Config, rate: real, start: real, run: seq<Leak>, k: nat, t: nat)
    returns (j: nat)
    requires IsRun(c, rate, start, run) && k < |run| && t in run[k].threads && HasLast(run[k].threads[t])
    ensures j < k && Loads(run, j, t) && run[j].last == run[k].threads[t].last
  {
    assert k > 0;
    assert StepAt(c, rate, run, k);
    var u, clock, n :| Next(c, rate, run[k - 1], run[k], u, clock, n);
    assert t in run[k - 1].threads;
    if HasLast(run[k - 1].threads[t]) {
      j := LoadedLast(c, rate, start, run, k - 1, t);
    } else {
      j := k - 1;
    }
  }

  /** lastTime is moved only by a call that was admitted and had loaded the value that it replaces. */
  lemma LastMoves(c: Limiter.Config, rate: real, start: real, run: seq<Leak>, k: nat) returns (t: nat, j: nat)
    requires IsRun(c, rate, start, run) && 0 < k < |run| && run[k].last != run[k - 1].last
    ensures t in run[k].threads && run[k].threads[t] == Over(true)
    ensures j < k && Loads(run, j, t) && run[j].last == run[k - 1].last
  {
    assert StepAt(c, rate, run, k);
    var u, clock, n :| Next(c, rate, run[k - 1], run[k], u, clock, n);
    t := u;
    j := LoadedLast(c, rate, start, run, k - 1, t);
  }

  // ----- When it goes back -----

  ghost predicate LastForward(run: seq<Leak>)
  {
    forall k :: 0 < k < |run| ==> run[k - 1].last <= run[k].last
  }

  /** With room for one token only: a call that comes second finds the bucket full, unless time has
      passed since, so it does not get to move lastTime back. */
  ghost predicate TimeOk(s: Leak, p: LeakPc)
  {
    match p
    case Begin(n) => n >= 1
    case Read(q) => q.n >= 1
    case Ready(q, k, now, last) => q.n >= 1 && (k == 0 ==> last <= now) && (k > 0 ==> s.log != [])
    case Trying(q, k, now, last, cur, next) =>
      last <= now && next >= 1.0 && q.n >= 1 && (cur == s.water || s.log != [])
    case Reload(q, _) => q.n >= 1 && s.log != []
    case Stamp(_, now, last) => last <= now
    case Over(_) => true
  }

  ghost predicate TimesOk(s: Leak)
  {
    && s.water >= 0.0 && (s.log != [] ==> s.water >= 1.0)
    && forall t :: t in s.threads ==> TimeOk(s, s.threads[t])
  }

  lemma LevelNext(rate: real, water: real, last: real, now: real, n: nat)
    requires water >= 0.0 && n >= 1
    ensures Limiter.Level(rate, water, last, now) >= 0.0
    ensures now < last ==> Limiter.Level(rate, water, last, now) == water
  {
    LevelIs(water, if now < last then 0.0 else (now - last) * rate);
  }

  lemma LevelIs(water: real, drain: real)
    requires water >= 0.0
    ensures Limiter.LevelAfter(water, drain) >= 0.0 && Limiter.LevelAfter(water, 0.0) == water
  {
  }

  lemma OwnTime(c: Limiter.Config, rate: real, s: Leak, s': Leak, t: nat, clock: real, n: nat)
    requires c.burst == 1 && TimesOk(s) && Next(c, rate, s, s', t, clock, n)
    ensures t in s'.threads && TimeOk(s', s'.threads[t]) && s.last <= s'.last
    ensures s'.water >= 0.0 && (s'.log != [] ==> s'.water >= 1.0)
    ensures (s.log != [] ==> s'.log != []) && (s'.water == s.water || s'.log != [])
    ensures s'.threads == s.threads[t := s'.threads[t]]
  {
    if t in s.threads {
      assert TimeOk(s, s.threads[t]);
      if s.threads[t].Ready? {
        LevelNext(rate, s.water, s.threads[t].last, s.threads[t].now, s.threads[t].q.n);
      }
    }
  }

  lemma TimesStep(c: Limiter.Config, rate: real, s: Leak, s': Leak)
    requires c.burst == 1 && TimesOk(s) && Steps(c, rate, s, s')
    ensures TimesOk(s') && s.last <= s'.last
  {
    var t, clock, n :| Next(c, rate, s, s', t, clock, n);
    OwnTime(c, rate, s, s', t, clock, n);
    forall u | u in s'.threads
      ensures TimeOk(s', s'.threads[u])
    {
      if u != t {
        assert TimeOk(s, s.threads[u]);
      }
    }
  }

  lemma {:induction false} RunsKeepTimes(c: Limiter.Config, rate: real, start: real, run: seq<Leak>, k: nat)
    requires c.burst == 1 && IsRun(c, rate, start, run) && k < |run|
    ensures TimesOk(run[k]) && (k > 0 ==> run[k - 1].last <= run[k].last)
  {
    if k > 0 {
      RunsKeepTimes(c, rate, start, run, k - 1);
      assert StepAt(c, rate, run, k);
      TimesStep(c, rate, run[k - 1], run[k]);
    }
  }

  lemma SerialForward(c: Limiter.Config, rate: real, start: real, run: seq<Leak>, k: nat)
    requires Limiter.Matched(c, rate) && IsRun(c, rate, start, run) && Within(run, 1) && 0 < k < |run|
    ensures run[k - 1].last <= run[k].last
  {
    RunsKeepInv(c, rate, start, run, k - 1, 0.0, 0.0);
    assert StepAt(c, rate, run, k);
    var t, clock, n :| Next(c, rate, run[k - 1], run[k], t, clock, n);
    if t in run[k - 1].threads {
      assert PlaceOk(run[k - 1], run[k - 1].threads[t]);
    }
  }

  lemma EmptyStays(rate: real, last: real, now: real)
    ensures Limiter.Level(rate, 0.0, last, now) == 0.0
  {
    EmptyAfter(if now < last then 0.0 else (now - last) * rate);
  }

  lemma EmptyAfter(drain: real)
    ensures Limiter.LevelAfter(0.0, drain) == 0.0
  {
  }

  /** The first caller has read the time 1 and loaded an empty bucket. */
  lemma FirstTries(c: Limiter.Config, rate: real) returns (run: seq<Leak>)
    requires c.burst >= 2
    ensures IsRun(c, rate, 0.0, run) && Within(run, 2)
    ensures run[|run| - 1] == Leak(map[0 := Trying(Ask(1, 1.0), 0, 1.0, 0.0, 0.0, 1.0)], 0.0, 0.0, 1.0, [], 0.0)
  {
    var q, s := Ask(1, 1.0), Init(0.0);
    run := [s];
    assert At(s.threads, Active) == {};
    EmptyStays(rate, 0.0, 1.0);
    s := Put(s, 0, Begin(1));
    run := Extend(c, rate, 0.0, run, s, 0, 1.0, 1);
    s := Put(s, 0, LeakPc.Read(q)).(clock := 1.0);
    run := Extend(c, rate, 0.0, run, s, 0, 1.0, 1);
    s := Put(s, 0, Ready(q, 0, 1.0, 0.0));
    run := Extend(c, rate, 0.0, run, s, 0, 1.0, 1);
    s := Put(s, 0, Trying(q, 0, 1.0, 0.0, 0.0, 1.0));
    run := Extend(c, rate, 0.0, run, s, 0, 1.0, 1);
  }

  /** The second caller reads the time 2 and loads the same. */
  lemma SecondTries(c: Limiter.Config, rate: real) returns (run: seq<Leak>)
    requires c.burst >= 2
    ensures IsRun(c, rate, 0.0, run) && Within(run, 2)
    ensures run[|run| - 1] == Leak(map[0 := Trying(Ask(1, 1.0), 0, 1.0, 0.0, 0.0, 1.0),
                                       1 := Trying(Ask(1, 2.0), 0, 2.0, 0.0, 0.0, 1.0)], 0.0, 0.0, 2.0, [], 0.0)
  {
    var q := Ask(1, 2.0);
    run := FirstTries(c, rate);
    var s := run[|run| - 1];
    EmptyStays(rate, 0.0, 2.0);
    s := Put(s, 1, Begin(1));
    run := Extend(c, rate, 0.0, run, s, 1, 2.0, 1);
    s := Put(s, 1, LeakPc.Read(q)).(clock := 2.0);
    run := Extend(c, rate, 0.0, run, s, 1, 2.0, 1);
    s := Put(s, 1, Ready(q, 0, 2.0, 0.0));
    run := Extend(c, rate, 0.0, run, s, 1, 2.0, 1);
    s := Put(s, 1, Trying(q, 0, 2.0, 0.0, 0.0, 1.0));
    run := Extend(c, rate, 0.0, run, s, 1, 2.0, 1);
  }

  /** It gets through and moves lastTime to its reading. */
  lemma SecondPasses(c: Limiter.Config, rate: real) returns (run: seq<Leak>, log: seq<Limiter.Admission>, dry: real)
    requires c.burst >= 2
    ensures IsRun(c, rate, 0.0, run) && Within(run, 2)
    ensures run[|run| - 1] ==
      Leak(map[0 := Trying(Ask(1, 1.0), 0, 1.0, 0.0, 0.0, 1.0), 1 := Over(true)], 1.0, 2.0, 2.0, log, dry)
  {
    run := SecondTries(c, rate);
    var s := run[|run| - 1];
    log := [] + [Limiter.Admit(2.0, 1, c.Cost(1))];
    dry := Limiter.Empties(c, Limiter.Bucket(1.0, 2.0));
    s := Leak(s.threads[1 := Stamp(Ask(1, 2.0), 2.0, 0.0)], 1.0, 0.0, 2.0, log, dry);
    run := Extend(c, rate, 0.0, run, s, 1, 2.0, 1);
    s := Put(s, 1, Over(true)).(last := 2.0);
    run := Extend(c, rate, 0.0, run, s, 1, 2.0, 1);
  }

  /** The first caller has lost the race, loads the newer lastTime, keeps its own older reading, gets
      through at the second attempt and moves lastTime back to it. */
  lemma LastGoesBack(c: Limiter.Config, rate: real) returns (run: seq<Leak>)
    requires c.burst >= 2
    ensures IsRun(c, rate, 0.0, run) && Within(run, 2)
    ensures |run| >= 2 && run[|run| - 2].last == 2.0 && run[|run| - 1].last == 1.0
  {
    var q := Ask(1, 1.0);
    var log, dry;
    run, log, dry := SecondPasses(c, rate);
    var s := run[|run| - 1];
    LevelNext(rate, 1.0, 2.0, 1.0, 1);
    s := Put(s, 0, Reload(q, 1.0));
    run := Extend(c, rate, 0.0, run, s, 0, 2.0, 1);
    s := Put(s, 0, Ready(q, 1, 1.0, 2.0));
    run := Extend(c, rate, 0.0, run, s, 0, 2.0, 1);
    s := Put(s, 0, Trying(q, 1, 1.0, 2.0, 1.0, 2.0));
    run := Extend(c, rate, 0.0, run, s, 0, 2.0, 1);
    log := s.log + [Limiter.Admit(1.0, 1, c.Cost(1))];
    dry := Limiter.Empties(c, Limiter.Bucket(2.0, 1.0));
    s := Leak(s.threads[0 := Stamp(q, 1.0, 2.0)], 2.0, 2.0, 2.0, log, dry);
    run := Extend(c, rate, 0.0, run, s, 0, 2.0, 1);
    s := Put(s, 0, Over(true)).(last := 1.0);
    run := Extend(c, rate, 0.0, run, s, 0, 2.0, 1);
  }

  /** lastTime never goes back in any run with at most m calls at once. */
  ghost predicate ForwardAlways(c: Limiter.Config, rate: real, m: nat)
  {
    forall start: real, run: seq<Leak> :: IsRun(c, rate, start, run) && Within(run, m) ==> LastForward(run)
  }

  /** With a clock that does not go back, lastTime does not go back in any run if and only if calls
      do not overlap or the burst is a single token. */
  lemma ForwardIff(c: Limiter.Config, rate: real, m: nat)
    requires Limiter.Matched(c, rate)
    ensures ForwardAlways(c, rate, m) <==> m <= 1 || c.burst == 1
  {
    if m <= 1 || c.burst == 1 {
      forall start: real, run: seq<Leak> | IsRun(c, rate, start, run) && Within(run, m)
        ensures LastForward(run)
      {
        forall k | 0 < k < |run|
          ensures run[k - 1].last <= run[k].last
        {
          if c.burst == 1 {
            RunsKeepTimes(c, rate, start, run, k);
          } else {
            SerialForward(c, rate, start, run, k);
          }
        }
      }
    } else {
      var run := LastGoesBack(c, rate);
      assert Within(run, m) && !LastForward(run);
    }
  }
}
