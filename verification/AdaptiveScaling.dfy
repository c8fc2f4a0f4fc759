/** Why the autoscaler grows and shrinks, and what becomes of the workers' stop channels. */
module AdaptiveScaling {
  import opened Sets
  import opened Threads
  import opened Adaptive
  import opened AdaptiveCalls

  // ----- Every change follows from the last sample -----

  predicate AtScaler(s: State, a: ScalePc)
  {
    SCALER in s.threads && s.threads[SCALER] == Scale(a)
  }

  /** The sample taken with the step to run[i] says load, and up to run[k] it is the last one. */
  ghost predicate Sampled(run: seq<State>, i: nat, k: nat, load: Load)
  {
    && 0 < i <= k < |run| && AtScaler(run[i - 1], ScaleSample) && AtScaler(run[i], ScaleRecheck(load))
    && forall j :: i <= j <= k ==> !AtScaler(run[j], ScaleSample)
  }

  /** What the autoscaler saw of the pool when it decided to shrink, and when to grow. */
  ghost predicate MayShrink(c: Config, h: Shared) { h.workers > c.minWorkers }
  ghost predicate MayGrow(c: Config, h: Shared) { h.workers < c.maxWorkers && h.queue != [] }

  ghost predicate Open(run: seq<State>, i: nat, k: nat)
    requires k < |run|
  {
    exists j :: i <= j <= k && !run[j].sh.done
  }

  ghost predicate Shrinkable(c: Config, run: seq<State>, i: nat, k: nat)
    requires k < |run|
  {
    exists j :: i <= j <= k && MayShrink(c, run[j].sh)
  }

  ghost predicate Growable(c: Config, run: seq<State>, i: nat, k: nat)
    requires k < |run|
  {
    exists j :: i <= j <= k && MayGrow(c, run[j].sh)
  }

  /** Where the autoscaler stands at run[k] and how it got there since its last sample at run[i]. */
  ghost predicate Reasons(c: Config, run: seq<State>, i: nat, k: nat, a: ScalePc)
    requires k < |run|
  {
    match a
    case ScaleRecheck(load) => Sampled(run, i, k, load)
    case ScaleDecide(load) => Sampled(run, i, k, load) && Open(run, i, k)
    case ScaleShrink => Sampled(run, i, k, Over) && Open(run, i, k) && Shrinkable(c, run, i, k)
    case GrowCheck => Sampled(run, i, k, Under) && Open(run, i, k) && Growable(c, run, i, k)
    case GrowAppend => Sampled(run, i, k, Under) && Open(run, i, k) && Growable(c, run, i, k)
    case ScaleExit => run[k].sh.done
    case ScaleGone => run[k].sh.done
    case _ => true
  }

  lemma SampledOn(run: seq<State>, i: nat, k: nat, load: Load)
    requires 0 < k < |run| && Sampled(run, i, k - 1, load) && !AtScaler(run[k], ScaleSample)
    ensures Sampled(run, i, k, load)
  {
  }

  lemma ReasonsOn(c: Config, run: seq<State>, i: nat, k: nat, a: ScalePc)
    requires 0 < k < |run| && Reasons(c, run, i, k - 1, a) && AtScaler(run[k], a)
    requires run[k - 1].sh.done ==> run[k].sh.done
    ensures Reasons(c, run, i, k, a)
  {
  }

  lemma ReasonsNext(c: Config, run: seq<State>, i: nat, k: nat, a: ScalePc, b: Branch) returns (i': nat)
    requires 0 < k < |run| && Reasons(c, run, i, k - 1, a) && AtScaler(run[k - 1], a)
    requires ScaleReady(run[k - 1].sh, a, b) && run[k].sh == ScaleStep(c, run[k - 1].sh, a, b).0
    requires AtScaler(run[k], ScaleStep(c, run[k - 1].sh, a, b).1)
    ensures Reasons(c, run, i', k, ScaleStep(c, run[k - 1].sh, a, b).1)
  {
    i' := if a.ScaleSample? then k else i;
    var h := run[k - 1].sh;
    assert a.ScaleRecheck? && b.Default? ==> !h.done;
    assert a.ScaleDecide? ==> h.workers > c.minWorkers ==> MayShrink(c, h);
    assert a.ScaleDecide? ==> h.workers < c.maxWorkers && h.queue != [] ==> MayGrow(c, h);
  }

  lemma ScalerActs(c: Config, run: seq<State>, k: nat, t: nat, b: Branch)
    requires c.Valid() && IsRun(c, run) && 0 < k < |run| && Next(c, run[k - 1], run[k], t, b)
    requires SCALER in run[k - 1].threads && run[k - 1].threads[SCALER].Scale?
    ensures SCALER in run[k].threads && run[k].threads[SCALER].Scale?
    ensures t != SCALER ==> run[k].threads[SCALER] == run[k - 1].threads[SCALER] || AtScaler(run[k], ScaleWait)
  {
  }

  /** Where the autoscaler is, in every state of every run, with the sample that led it there. */
  lemma {:induction false} ScalerReasons(c: Config, run: seq<State>, k: nat) returns (i: nat)
    requires c.Valid() && IsRun(c, run) && k < |run|
    ensures SCALER in run[k].threads && run[k].threads[SCALER].Scale?
    ensures Reasons(c, run, i, k, run[k].threads[SCALER].a)
  {
    if k == 0 {
      StartedScaler(c.minWorkers);
      i := 0;
    } else {
      i := ScalerReasons(c, run, k - 1);
      assert StepAt(c, run, k);
      var t, b :| Next(c, run[k - 1], run[k], t, b);
      ScalerActs(c, run, k, t, b);
      StepOnward(c, run[k - 1], run[k]);
      var a := run[k - 1].threads[SCALER].a;
      if t == SCALER {
        i := ReasonsNext(c, run, i, k, a, b);
      } else if AtScaler(run[k], a) {
        ReasonsOn(c, run, i, k, a);
      }
    }
  }

  lemma {:induction false} StartedScaler(n: nat)
    ensures SCALER in Started(n) && Started(n)[SCALER] == Scale(ScaleWait)
  {
    if n > 0 {
      StartedScaler(n - 1);
    }
  }

  /** Until done the autoscaler goes on. */
  lemma ScalerStays(c: Config, run: seq<State>, k: nat)
    requires c.Valid() && IsRun(c, run) && k < |run| && !run[k].sh.done
    ensures SCALER in run[k].threads && run[k].threads[SCALER].Scale?
    ensures !run[k].threads[SCALER].a.ScaleExit? && !run[k].threads[SCALER].a.ScaleGone?
  {
    var i := ScalerReasons(c, run, k);
  }

  /** One step of a thread leaves the stop channels alone, closes the last one registered, or
      registers a new one. */
  ghost predicate Stops(h: Shared, h': Shared)
  {
    h'.stopChs == h.stopChs && h'.stopped == h.stopped && h'.nextCh == h.nextCh
  }

  ghost predicate Closes(h: Shared, h': Shared)
  {
    && h.stopChs != [] && h'.nextCh == h.nextCh
    && var last := |h.stopChs| - 1;
       h'.stopChs == h.stopChs[..last] && h'.stopped == h.stopped + {h.stopChs[last]}
  }

  ghost predicate Registers(h: Shared, h': Shared)
  {
    h'.stopChs == h.stopChs + [h.nextCh] && h'.stopped == h.stopped && h'.nextCh == h.nextCh + 1
  }

  lemma ScaleStops(c: Config, h: Shared, q: ScalePc, b: Branch)
    requires ScaleReady(h, q, b)
    ensures var h' := ScaleStep(c, h, q, b).0;
      Stops(h, h') || (q.ScaleShrink? && Closes(h, h')) || (q.GrowAppend? && Registers(h, h'))
  {
  }

  lemma ActStops(c: Config, t: nat, b: Branch, h: Shared, p: Pc, h': Shared, p': Pc)
    requires Acts(c, t, b, h, p, h', p')
    ensures Stops(h, h') || (p == Scale(ScaleShrink) && Closes(h, h')) || (p == Scale(GrowAppend) && Registers(h, h'))
  {
    match p
    case Sub(q) =>
      assert h' == SubStep(c, h, q, b).0;
    case Work(q) =>
      assert h' == WorkStep(h, q, b).0;
    case Scale(q) =>
      ScaleStops(c, h, q, b);
    case Close(q) =>
      assert h' == CloseStep(h, t, q, b).0;
  }

  lemma OnlyScaler(c: Config, run: seq<State>, k: nat, t: nat)
    requires c.Valid() && IsRun(c, run) && k < |run| && t in run[k].threads && run[k].threads[t].Scale?
    ensures t == SCALER
  {
    RunsKeepInv(c, run, k);
  }

  /** A stop channel is closed only after a sample over the target, the last one taken, and after a
      look at a pool above its minimum; it is the one registered last. */
  lemma ShrinkMeans(c: Config, run: seq<State>, k: nat) returns (i: nat)
    requires c.Valid() && IsRun(c, run) && 0 < k < |run| && run[k].sh.stopped != run[k - 1].sh.stopped
    ensures Sampled(run, i, k - 1, Over) && Open(run, i, k - 1) && Shrinkable(c, run, i, k - 1)
    ensures Closes(run[k - 1].sh, run[k].sh)
  {
    i := ScalerReasons(c, run, k - 1);
    assert StepAt(c, run, k);
    var t, b :| Next(c, run[k - 1], run[k], t, b);
    ActStops(c, t, b, run[k - 1].sh, run[k - 1].threads[t], run[k].sh, run[k].threads[t]);
    OnlyScaler(c, run, k - 1, t);
  }

  /** A worker is added only after a sample under the target, the last one taken, and after a look
      at a pool below its maximum with jobs in the queue; its channel is new. */
  lemma GrowMeans(c: Config, run: seq<State>, k: nat) returns (i: nat)
    requires c.Valid() && IsRun(c, run) && 0 < k < |run| && |run[k].sh.stopChs| > |run[k - 1].sh.stopChs|
    ensures Sampled(run, i, k - 1, Under) && Open(run, i, k - 1) && Growable(c, run, i, k - 1)
    ensures Registers(run[k - 1].sh, run[k].sh)
  {
    i := ScalerReasons(c, run, k - 1);
    assert StepAt(c, run, k);
    var t, b :| Next(c, run[k - 1], run[k], t, b);
    ActStops(c, t, b, run[k - 1].sh, run[k - 1].threads[t], run[k].sh, run[k].threads[t]);
    OnlyScaler(c, run, k - 1, t);
  }

  // ----- Stop channels and workers -----

  /** The stop channel of a worker in its loop, or of the one that a grow is about to start. */
  function Channel(p: Pc): int
  {
    match p
    case Work(WorkSelect(ch)) => ch
    case Work(WorkJob(ch, _, _)) => ch
    case Scale(GrowCount(ch)) => ch
    case Scale(GrowWait(ch)) => ch
    case Scale(GrowGo(ch)) => ch
    case _ => -1
  }

  /** No channel is registered twice or after it was closed. */
  ghost predicate Fresh(h: Shared)
  {
    && (forall a, b :: 0 <= a < b < |h.stopChs| ==> h.stopChs[a] != h.stopChs[b])
    && (forall a :: 0 <= a < |h.stopChs| ==> h.stopChs[a] < h.nextCh && h.stopChs[a] !in h.stopped)
    && (forall ch :: ch in h.stopped ==> ch < h.nextCh)
  }

  /** Workers have channels of their own. */
  ghost predicate Own(m: map<nat, Pc>, h: Shared)
  {
    && (forall t :: t in m ==> Channel(m[t]) < h.nextCh)
    && (forall t, u :: t in m && u in m && t != u && Channel(m[t]) >= 0 ==> Channel(m[t]) != Channel(m[u]))
  }

  ghost predicate Manned(m: map<nat, Pc>, ch: nat)
  {
    exists t :: t in m && Channel(m[t]) == ch
  }

  /** Until done every channel that was not closed has its worker. */
  ghost predicate AllManned(m: map<nat, Pc>, h: Shared)
  {
    !h.done ==> forall a :: 0 <= a < |h.stopChs| ==> Manned(m, h.stopChs[a])
  }

  ghost predicate Registry(s: State)
  {
    Fresh(s.sh) && Own(s.threads, s.sh) && AllManned(s.threads, s.sh)
  }

  /** What a thread's step does to its own channel: keep it, leave it once it is closed or done is
      set, or take the new one. */
  ghost predicate Moves(h: Shared, h': Shared, p: Pc, p': Pc)
  {
    && (h.done ==> h'.done)
    && (|| (Channel(p') == Channel(p) && (Stops(h, h') || Closes(h, h')))
        || (Channel(p') == -1 && Stops(h, h') && (h.done || (Channel(p) >= 0 && Channel(p) as nat in h.stopped)))
        || (Channel(p) == -1 && Channel(p') == h.nextCh && Registers(h, h')))
  }

  lemma ScaleMoves(c: Config, h: Shared, q: ScalePc, b: Branch)
    requires ScaleReady(h, q, b)
    ensures var (h', q') := ScaleStep(c, h, q, b); Moves(h, h', Scale(q), Scale(q'))
  {
  }

  lemma WorkMoves(h: Shared, q: WorkPc, b: Branch)
    requires WorkReady(h, q, b)
    ensures var (h', q') := WorkStep(h, q, b); Moves(h, h', Work(q), Work(q'))
  {
  }

  lemma ActMoves(c: Config, t: nat, b: Branch, h: Shared, p: Pc, h': Shared, p': Pc)
    requires Acts(c, t, b, h, p, h', p')
    ensures Moves(h, h', p, p')
  {
    match p
    case Sub(q) =>
      assert h' == SubStep(c, h, q, b).0;
    case Work(q) =>
      WorkMoves(h, q, b);
    case Scale(q) =>
      ScaleMoves(c, h, q, b);
    case Close(q) =>
      assert h' == CloseStep(h, t, q, b).0;
  }

  lemma FreshKept(h: Shared, h': Shared)
    requires Fresh(h) && (Stops(h, h') || Closes(h, h') || Registers(h, h'))
    ensures Fresh(h')
  {
  }

  lemma MannedKept(m: map<nat, Pc>, m': map<nat, Pc>, t: nat, ch: nat)
    requires t in m && t in m' && m' == m[t := m'[t]] && Manned(m, ch)
    requires Channel(m[t]) == ch ==> Channel(m'[t]) == ch
    ensures Manned(m', ch)
  {
    var u :| u in m && Channel(m[u]) == ch;
    assert Channel(m'[u]) == ch;
  }

  lemma AllMannedKept(m: map<nat, Pc>, m': map<nat, Pc>, t: nat, h: Shared, h': Shared)
    requires t in m && t in m' && m' == m[t := m'[t]] && Moves(h, h', m[t], m'[t]) && Fresh(h) && AllManned(m, h)
    ensures AllManned(m', h')
  {
    if !h'.done {
      forall a | 0 <= a < |h'.stopChs|
        ensures Manned(m', h'.stopChs[a])
      {
        if a < |h.stopChs| {
          assert h'.stopChs[a] == h.stopChs[a];
          MannedKept(m, m', t, h.stopChs[a]);
        } else {
          assert Channel(m'[t]) == h'.stopChs[a];
        }
      }
    }
  }

  lemma RegistryActs(c: Config, s: State, s': State, t: nat, b: Branch)
    requires Registry(s) && t in s.threads && Next(c, s, s', t, b)
    ensures Registry(s')
  {
    ActMoves(c, t, b, s.sh, s.threads[t], s'.sh, s'.threads[t]);
    FreshKept(s.sh, s'.sh);
    OwnKept(s.threads, s'.threads, t, s.sh, s'.sh);
    AllMannedKept(s.threads, s'.threads, t, s.sh, s'.sh);
  }

  lemma OwnKept(m: map<nat, Pc>, m': map<nat, Pc>, t: nat, h: Shared, h': Shared)
    requires t in m && t in m' && m' == m[t := m'[t]] && Moves(h, h', m[t], m'[t]) && Own(m, h)
    ensures Own(m', h')
  {
  }

  /** A call starts. */
  lemma RegistryCalls(s: State, t: nat, p: Pc)
    requires Registry(s) && t !in s.threads && Channel(p) == -1
    ensures Registry(s.(threads := s.threads[t := p]))
  {
    var m' := s.threads[t := p];
    forall ch: nat | Manned(s.threads, ch)
      ensures Manned(m', ch)
    {
      var u :| u in s.threads && Channel(s.threads[u]) == ch;
      assert Channel(m'[u]) == ch;
    }
  }

  /** A worker starts and has the channel from the autoscaler. */
  lemma RegistryLaunches(s: State, t: nat)
    requires Registry(s) && t !in s.threads && Launches(s)
    ensures Registry(s.(threads := Launched(s, t)))
  {
    var m' := Launched(s, t);
    OwnLaunched(s, t);
    forall ch: nat | Manned(s.threads, ch)
      ensures Manned(m', ch)
    {
      var u :| u in s.threads && Channel(s.threads[u]) == ch;
      assert Channel(m'[if u == SCALER then t else u]) == ch;
    }
  }

  lemma OwnLaunched(s: State, t: nat)
    requires Own(s.threads, s.sh) && t !in s.threads && Launches(s)
    ensures Own(Launched(s, t), s.sh)
  {
    var m, m' := s.threads, Launched(s, t);
    assert Channel(m'[t]) == Channel(m[SCALER]) && Channel(m'[SCALER]) == -1;
    forall u, v | u in m' && v in m' && u != v && Channel(m'[u]) >= 0
      ensures Channel(m'[u]) != Channel(m'[v])
    {
      var u0, v0 := if u == t then SCALER else u, if v == t then SCALER else v;
      assert Channel(m[u0]) == Channel(m'[u]);
    }
  }

  lemma RegistryKept(c: Config, s: State, s': State)
    requires Registry(s) && Steps(c, s, s')
    ensures Registry(s')
  {
    var t, b :| Next(c, s, s', t, b);
    if t in s.threads {
      RegistryActs(c, s, s', t, b);
    } else if b.Go? {
      RegistryLaunches(s, t);
    } else {
      RegistryCalls(s, t, s'.threads[t]);
    }
  }

  lemma RegistryStarts(c: Config)
    ensures Registry(Init(c))
  {
    StartedThreads(c.minWorkers);
    forall ch: nat | ch < c.minWorkers
      ensures Manned(Started(c.minWorkers), ch)
    {
      StartedHas(c.minWorkers, ch + 1);
      assert Channel(Started(c.minWorkers)[ch + 1]) == ch;
    }
  }

  lemma {:induction false} StartedHas(n: nat, t: nat)
    requires t <= n
    ensures t in Started(n)
  {
    if n > 0 && t < n {
      StartedHas(n - 1, t);
    }
  }

  /** In every state of every run: no stop channel is registered twice or closed twice, workers do
      not share one, and until done every channel not closed has a worker in its loop, or one that
      is being started. */
  lemma {:induction false} RunsKeepRegistry(c: Config, run: seq<State>, k: nat)
    requires IsRun(c, run) && k < |run|
    ensures Registry(run[k])
  {
    if k == 0 {
      RegistryStarts(c);
    } else {
      RunsKeepRegistry(c, run, k - 1);
      assert StepAt(c, run, k);
      RegistryKept(c, run[k - 1], run[k]);
    }
  }

  // ----- Why a worker leaves -----

  predicate Leaving(p: Pc) { p.Work? && (p.w.WorkUncount? || p.w.WorkUnwait? || p.w.WorkGone?) }

  predicate Draining(p: Pc) { p.Work? && (p.w.WorkDrain? || p.w.WorkDrainJob?) }

  /** The worker t was in its loop and its channel was closed; or done was set and the queue was
      empty. */
  ghost predicate MayLeave(s: State, t: nat)
  {
    || (t in s.threads && s.threads[t].Work? && Channel(s.threads[t]) >= 0
        && Channel(s.threads[t]) as nat in s.sh.stopped)
    || (s.sh.done && s.sh.queue == [])
  }

  lemma WorkLeaves(h: Shared, q: WorkPc, b: Branch)
    requires WorkReady(h, q, b) && (Draining(Work(q)) ==> h.done)
    ensures var q' := WorkStep(h, q, b).1;
      && (Draining(Work(q')) ==> h.done)
      && (Leaving(Work(q')) && !Leaving(Work(q)) ==>
            (Channel(Work(q)) >= 0 && Channel(Work(q)) as nat in h.stopped) || (h.done && h.queue == []))
  {
  }

  lemma LeaveStep(c: Config, s: State, s': State, t: nat)
    requires Steps(c, s, s') && t in s'.threads && s'.threads[t].Work?
    requires t in s.threads && Draining(s.threads[t]) ==> s.sh.done
    ensures Draining(s'.threads[t]) ==> s'.sh.done
    ensures Leaving(s'.threads[t]) ==> t in s.threads && (Leaving(s.threads[t]) || MayLeave(s, t))
  {
    StepOnward(c, s, s');
    var u, b :| Next(c, s, s', u, b);
    if u == t && t in s.threads {
      assert s.threads[t].Work?;
      WorkLeaves(s.sh, s.threads[t].w, b);
    }
  }

  lemma {:induction false} RunsDrain(c: Config, run: seq<State>, k: nat, t: nat)
    requires IsRun(c, run) && k < |run| && t in run[k].threads && Draining(run[k].threads[t])
    ensures run[k].sh.done
  {
    if k == 0 {
      StartedThreads(c.minWorkers);
    } else {
      if t in run[k - 1].threads && Draining(run[k - 1].threads[t]) {
        RunsDrain(c, run, k - 1, t);
      }
      assert StepAt(c, run, k);
      LeaveStep(c, run[k - 1], run[k], t);
    }
  }

  /** Every worker that has left its loop for good had its stop channel closed, or found the queue
      empty after done. */
  lemma {:induction false} WorkerLeaves(c: Config, run: seq<State>, k: nat, t: nat) returns (j: nat)
    requires IsRun(c, run) && k < |run| && t in run[k].threads && Leaving(run[k].threads[t])
    ensures j <= k && MayLeave(run[j], t)
  {
    if k == 0 {
      StartedThreads(c.minWorkers);
      assert false;
    } else {
      if t in run[k - 1].threads && Draining(run[k - 1].threads[t]) {
        RunsDrain(c, run, k - 1, t);
      }
      assert StepAt(c, run, k);
      LeaveStep(c, run[k - 1], run[k], t);
      if Leaving(run[k - 1].threads[t]) {
        j := WorkerLeaves(c, run, k - 1, t);
      } else {
        j := k - 1;
      }
    }
  }

  // ----- How many workers there are at least -----

  predicate InLoop(p: Pc) { Channel(p) >= 0 }

  lemma {:induction false} Crew(m: map<nat, Pc>, chs: seq<nat>) returns (r: seq<nat>)
    requires forall a :: 0 <= a < |chs| ==> Manned(m, chs[a])
    ensures |r| == |chs| && forall a :: 0 <= a < |r| ==> r[a] in m && Channel(m[r[a]]) == chs[a]
  {
    if chs == [] {
      r := [];
    } else {
      var n := |chs| - 1;
      var r' := Crew(m, chs[..n]);
      assert Manned(m, chs[n]);
      var t :| t in m && Channel(m[t]) == chs[n];
      r := r' + [t];
    }
  }

  /** Until done there are at least as many workers as channels not closed, but for one that the
      autoscaler has registered and not counted yet. A shrink compares the count, which lags behind
      the channels it has closed, so this number can fall below minWorkers. */
  lemma AtLeastRegistered(c: Config, run: seq<State>, k: nat)
    requires c.Valid() && IsRun(c, run) && k < |run| && !run[k].sh.done
    ensures |run[k].sh.stopChs| <= run[k].sh.workers + 1
    ensures (exists ch :: AtScaler(run[k], GrowCount(ch))) || |run[k].sh.stopChs| <= run[k].sh.workers
  {
    var m, h := run[k].threads, run[k].sh;
    RunsKeepRegistry(c, run, k);
    var r := Crew(m, h.stopChs);
    FirstsSize(r, |r|);
    SubsetSize(Firsts(r, |r|), At(m, InLoop));
    CountInLoop(c, run, k);
  }

  lemma CountInLoop(c: Config, run: seq<State>, k: nat)
    requires c.Valid() && IsRun(c, run) && k < |run|
    ensures |At(run[k].threads, InLoop)| <= run[k].sh.workers + 1
    ensures (exists ch :: AtScaler(run[k], GrowCount(ch))) || |At(run[k].threads, InLoop)| <= run[k].sh.workers
  {
    var m := run[k].threads;
    CountIs(c, run, k);
    if x :| x in At(m, InLoop) && !Counted(m[x]) {
      OnlyScaler(c, run, k, x);
      assert AtScaler(run[k], GrowCount(m[x].a.ch));
      OnlyOne(c, run, k, x);
      SubsetSize(At(m, InLoop) - {x}, At(m, Counted));
      WithoutSize(At(m, InLoop), x);
    } else {
      SubsetSize(At(m, InLoop), At(m, Counted));
    }
  }

  lemma CountIs(c: Config, run: seq<State>, k: nat)
    requires c.Valid() && IsRun(c, run) && k < |run|
    ensures run[k].sh.workers == |At(run[k].threads, Counted)|
  {
    RunsKeepInv(c, run, k);
  }

  lemma OnlyOne(c: Config, run: seq<State>, k: nat, t: nat)
    requires c.Valid() && IsRun(c, run) && k < |run|
    requires t in At(run[k].threads, InLoop) && !Counted(run[k].threads[t])
    ensures At(run[k].threads, InLoop) - {t} <= At(run[k].threads, Counted)
  {
    OnlyScaler(c, run, k, t);
    forall u | u in At(run[k].threads, InLoop) - {t}
      ensures u in At(run[k].threads, Counted)
    {
      if run[k].threads[u].Scale? {
        OnlyScaler(c, run, k, u);
      }
    }
  }
}
