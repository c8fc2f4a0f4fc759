/** What the answers of Submit and TrySubmit mean, and why the autoscaler scales: read off the
    states of the run. */
module AdaptiveCalls {
  import opened Threads
  import opened Adaptive

  // ----- What a step leaves alone -----

  /** closed stays set and the log of accepted jobs only grows. */
  ghost predicate Onward(h: Shared, h': Shared)
  {
    && (h.closed ==> h'.closed) && (h.done ==> h'.done)
    && |h.accepted| <= |h'.accepted| && h'.accepted[..|h.accepted|] == h.accepted
  }

  lemma ActOnward(c: Config, t: nat, b: Branch, h: Shared, p: Pc, h': Shared, p': Pc)
    requires Acts(c, t, b, h, p, h', p')
    ensures Onward(h, h') && (p'.Sub? <==> p.Sub?)
  {
    match p
    case Sub(q) =>
      assert h' == SubStep(c, h, q, b).0;
    case Work(q) =>
      assert h' == WorkStep(h, q, b).0;
    case Scale(q) =>
      assert h' == ScaleStep(c, h, q, b).0;
    case Close(q) =>
      assert h' == CloseStep(h, t, q, b).0;
  }

  lemma StepOnward(c: Config, s: State, s': State)
    requires Steps(c, s, s')
    ensures Onward(s.sh, s'.sh)
  {
    var t, b :| Next(c, s, s', t, b);
    if t in s.threads {
      ActOnward(c, t, b, s.sh, s.threads[t], s'.sh, s'.threads[t]);
    }
  }

  lemma {:induction false} RunOnward(c: Config, run: seq<State>, i: nat, k: nat)
    requires IsRun(c, run) && i <= k < |run|
    ensures Onward(run[i].sh, run[k].sh)
    decreases k - i
  {
    if i < k {
      RunOnward(c, run, i, k - 1);
      assert StepAt(c, run, k);
      StepOnward(c, run[k - 1], run[k]);
      var a, b := run[k - 1].sh.accepted, run[k].sh.accepted;
      assert b[..|run[i].sh.accepted|] == b[..|a|][..|run[i].sh.accepted|];
    }
  }

  // ----- Submit and TrySubmit -----

  /** The call of thread t, blocking or not, starts with the step to run[i]. */
  ghost predicate Called(run: seq<State>, i: nat, t: nat, nonblocking: bool, job: Job)
  {
    && 0 < i < |run| && t !in run[i - 1].threads && t in run[i].threads
    && run[i].threads[t] == Sub(SubStart(nonblocking, job))
  }

  ghost predicate Full(c: Config, h: Shared) { |h.queue| == c.queueSize && !h.done }

  /** At some moment from run[i] to run[k] the queue was full and done was not set. */
  ghost predicate WasFull(c: Config, run: seq<State>, i: nat, k: nat)
    requires k < |run|
  {
    exists j :: i <= j <= k && Full(c, run[j].sh)
  }

  /** What the answer out means for a call from run[i] to run[k]. */
  ghost predicate Means(c: Config, run: seq<State>, i: nat, k: nat, nonblocking: bool, job: Job, out: Outcome)
    requires i <= k < |run|
  {
    && (out.ErrClosed? ==> run[k].sh.closed)
    && (!out.ErrClosed? ==> !run[i].sh.closed)
    && match out
       case Accepted(n) => |run[i].sh.accepted| <= n && Fits(run[k].sh.accepted, (n, job))
       case ErrFull => nonblocking && WasFull(c, run, i, k)
       case ErrContext => !nonblocking
       case ErrClosed => true
  }

  /** Where the call started at run[i] stands at run[k]. */
  ghost predicate Stands(c: Config, run: seq<State>, i: nat, k: nat, nonblocking: bool, job: Job, p: SubPc)
    requires i <= k < |run|
  {
    p.job == job &&
    match p
    case SubStart(n, _) => n == nonblocking
    case SubCheck(n, _) => n == nonblocking
    case SubSelect(n, _) => n == nonblocking && !run[i].sh.closed
    case SubLeave(out, _) => Means(c, run, i, k, nonblocking, job, out)
    case SubDone(out, _) => Means(c, run, i, k, nonblocking, job, out)
  }

  lemma StandsOn(c: Config, run: seq<State>, i: nat, k: nat, nonblocking: bool, job: Job, p: SubPc)
    requires i < k < |run| && Stands(c, run, i, k - 1, nonblocking, job, p) && Onward(run[k - 1].sh, run[k].sh)
    ensures Stands(c, run, i, k, nonblocking, job, p)
  {
  }

  lemma StandsNext(c: Config, run: seq<State>, i: nat, k: nat, nonblocking: bool, job: Job, p: SubPc, b: Branch)
    requires i < k < |run| && Stands(c, run, i, k - 1, nonblocking, job, p) && Onward(run[i].sh, run[k - 1].sh)
    requires (run[k - 1].sh.done ==> run[k - 1].sh.closed) && SubReady(c, run[k - 1].sh, p, b)
    requires run[k].sh == SubStep(c, run[k - 1].sh, p, b).0
    ensures Stands(c, run, i, k, nonblocking, job, SubStep(c, run[k - 1].sh, p, b).1)
  {
    if b.Default? {
      assert Full(c, run[k - 1].sh);
    }
  }

  lemma DoneClosed(c: Config, run: seq<State>, k: nat)
    requires c.Valid() && IsRun(c, run) && k < |run|
    ensures run[k].sh.done ==> run[k].sh.closed
  {
    RunsKeepInv(c, run, k);
  }

  /** Every state of a call, from its start on. */
  lemma {:induction false} CallStands(c: Config, run: seq<State>, i: nat, k: nat, t: nat, nonblocking: bool, job: Job)
    requires c.Valid() && IsRun(c, run) && Called(run, i, t, nonblocking, job) && i <= k < |run|
    ensures t in run[k].threads && run[k].threads[t].Sub?
    ensures Stands(c, run, i, k, nonblocking, job, run[k].threads[t].s)
    decreases k - i
  {
    if i < k {
      CallStands(c, run, i, k - 1, t, nonblocking, job);
      assert StepAt(c, run, k);
      RunOnward(c, run, i, k - 1);
      DoneClosed(c, run, k - 1);
      CallStep(c, run, i, k, t, nonblocking, job);
    }
  }

  lemma CallStep(c: Config, run: seq<State>, i: nat, k: nat, t: nat, nonblocking: bool, job: Job)
    requires i < k < |run| && StepAt(c, run, k) && Onward(run[i].sh, run[k - 1].sh)
    requires run[k - 1].sh.done ==> run[k - 1].sh.closed
    requires t in run[k - 1].threads && run[k - 1].threads[t].Sub?
    requires Stands(c, run, i, k - 1, nonblocking, job, run[k - 1].threads[t].s)
    ensures t in run[k].threads && run[k].threads[t].Sub?
    ensures Stands(c, run, i, k, nonblocking, job, run[k].threads[t].s)
  {
    StepOnward(c, run[k - 1], run[k]);
    var p := run[k - 1].threads[t].s;
    var u, b :| Next(c, run[k - 1], run[k], u, b);
    if u == t {
      StandsNext(c, run, i, k, nonblocking, job, p, b);
    } else {
      OthersLeave(c, run[k - 1], run[k], u, b, t);
      StandsOn(c, run, i, k, nonblocking, job, p);
    }
  }

  /** A step of another thread leaves a producer where it is. */
  lemma OthersLeave(c: Config, s: State, s': State, u: nat, b: Branch, t: nat)
    requires Next(c, s, s', u, b) && u != t && t in s.threads && s.threads[t].Sub?
    ensures t in s'.threads && s'.threads[t] == s.threads[t]
  {
  }

  /** Every producer's call has a start. */
  lemma {:induction false} CallStarts(c: Config, run: seq<State>, k: nat, t: nat) returns (i: nat, nonblocking: bool)
    requires c.Valid() && IsRun(c, run) && k < |run| && t in run[k].threads && run[k].threads[t].Sub?
    ensures i <= k && Called(run, i, t, nonblocking, run[k].threads[t].s.job)
  {
    if k == 0 {
      StartedThreads(c.minWorkers);
      assert false;
    } else {
      assert StepAt(c, run, k);
      var u, b :| Next(c, run[k - 1], run[k], u, b);
      if t !in run[k - 1].threads {
        i, nonblocking := k, run[k].threads[t].s.nonblocking;
      } else {
        if u == t {
          ActOnward(c, t, b, run[k - 1].sh, run[k - 1].threads[t], run[k].sh, run[k].threads[t]);
        }
        i, nonblocking := CallStarts(c, run, k - 1, t);
        CallStands(c, run, i, k, t, nonblocking, run[k - 1].threads[t].s.job);
      }
    }
  }

  /** Every answer of every run, told by the states between the call and the answer: "closed" is
      told only when closed is set, and always when it was set at the call; "full" only to a
      nonblocking call during which the queue was full; a context error only to a blocking one;
      and an accepted job was sent during the call. */
  lemma AnswersMean(c: Config, run: seq<State>, k: nat, t: nat) returns (i: nat, nonblocking: bool)
    requires c.Valid() && IsRun(c, run) && k < |run| && t in run[k].threads
    requires run[k].threads[t].Sub? && run[k].threads[t].s.SubDone?
    ensures var p := run[k].threads[t].s;
      i <= k && Called(run, i, t, nonblocking, p.job) && Means(c, run, i, k, nonblocking, p.job, p.out)
  {
    i, nonblocking := CallStarts(c, run, k, t);
    CallStands(c, run, i, k, t, nonblocking, run[k].threads[t].s.job);
  }

  /** A call that starts when closed is set or a Close has returned gets no receipt and can end
      with "closed" only. */
  lemma ClosedRefuses(c: Config, run: seq<State>, i: nat, k: nat, t: nat, nonblocking: bool, job: Job, u: nat)
    requires c.Valid() && IsRun(c, run) && Called(run, i, t, nonblocking, job) && i <= k < |run|
    requires run[i].sh.closed || Returned(run[i], u)
    ensures t in run[k].threads && run[k].threads[t].Sub? && !run[k].threads[t].HasReceipt()
    ensures run[k].threads[t].s.SubDone? ==> run[k].threads[t].s.out.ErrClosed?
  {
    if Returned(run[i], u) {
      ReturnSeals(c, run, i, u);
    }
    CallStands(c, run, i, k, t, nonblocking, job);
  }
}
