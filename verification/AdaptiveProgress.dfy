/** Shutdown gets done: every pending Close of every run can be brought to its return by the
    threads that are there, without any new call. */
module AdaptiveProgress {
  import opened Threads
  import opened Adaptive

  // ----- Runs that go on without new calls -----

  ghost predicate Works(c: Config, s: State, s': State)
  {
    exists t, b :: Next(c, s, s', t, b) && !b.CallSubmit? && !b.CallClose?
  }

  ghost predicate WorksAt(c: Config, run: seq<State>, j: int)
    requires 0 < j < |run|
  {
    Works(c, run[j - 1], run[j])
  }

  /** A run in which no call starts from place k on. */
  ghost predicate GoesOn(c: Config, run: seq<State>, k: nat)
  {
    0 < k <= |run| && IsRun(c, run) && forall j :: k <= j < |run| ==> WorksAt(c, run, j)
  }

  function Last(run: seq<State>): State
    requires run != []
  {
    run[|run| - 1]
  }

  ghost predicate Extends(run: seq<State>, more: seq<State>)
  {
    |run| <= |more| && more[..|run|] == run
  }

  lemma ExtendsOn(run: seq<State>, mid: seq<State>, more: seq<State>)
    requires Extends(run, mid) && Extends(mid, more)
    ensures Extends(run, more)
  {
    assert more[..|run|] == more[..|mid|][..|run|];
  }

  lemma OneMore(c: Config, run: seq<State>, k: nat, s': State, t: nat, b: Branch) returns (more: seq<State>)
    requires GoesOn(c, run, k) && Next(c, Last(run), s', t, b) && !b.CallSubmit? && !b.CallClose?
    ensures GoesOn(c, more, k) && Last(more) == s' && Extends(run, more)
  {
    more := run + [s'];
    assert more[..|run|] == run;
    forall j | 0 < j < |more|
      ensures StepAt(c, more, j) && (k <= j ==> WorksAt(c, more, j))
    {
      if j < |run| {
        assert more[j - 1] == run[j - 1] && more[j] == run[j];
        assert StepAt(c, run, j) && (k <= j ==> WorksAt(c, run, j));
      } else {
        assert Works(c, more[j - 1], more[j]) && Steps(c, more[j - 1], more[j]);
      }
    }
  }

  /** Thread u acts. */
  lemma Acted(c: Config, run: seq<State>, k: nat, u: nat, b: Branch, h': Shared, p': Pc) returns (more: seq<State>)
    requires GoesOn(c, run, k) && u in Last(run).threads && !b.CallSubmit? && !b.CallClose?
    requires Acts(c, u, b, Last(run).sh, Last(run).threads[u], h', p')
    ensures GoesOn(c, more, k) && Last(more) == State(Last(run).threads[u := p'], h') && Extends(run, more)
  {
    var s' := State(Last(run).threads[u := p'], h');
    assert Next(c, Last(run), s', u, b);
    more := OneMore(c, run, k, s', u, b);
  }

  /** The other threads stay where they are. */
  ghost predicate Beside(s: State, s': State, u: nat)
  {
    forall t :: t in s.threads && t != u ==> t in s'.threads && s'.threads[t] == s.threads[t]
  }

  lemma SoloBeside(s: State, s': State, u: nat, p: Pc)
    requires s'.threads == s.threads[u := p]
    ensures Beside(s, s', u)
  {
  }

  // ----- A worker after done -----

  function WorkLeft(h: Shared, p: WorkPc): nat
  {
    match p
    case WorkGone => 0
    case WorkUnwait => 1
    case WorkUncount => 2
    case WorkDrain => 3 + 2 * |h.queue|
    case WorkDrainJob(_, _) => 4 + 2 * |h.queue|
    case WorkSelect(_) => 4 + 2 * |h.queue|
    case WorkJob(_, _, _) => 5 + 2 * |h.queue|
  }

  /** The flags and counters that shutdown waits for, but for the one that is worked on. */
  ghost predicate Steady(h: Shared, h': Shared)
  {
    h'.done == h.done && h'.closed == h.closed && h'.once == h.once && h'.scaler == h.scaler
  }

  lemma WorkTurn(c: Config, run: seq<State>, k: nat, u: nat) returns (more: seq<State>, p': WorkPc)
    requires GoesOn(c, run, k)
    requires var s := Last(run); s.sh.done && u in s.threads && s.threads[u].Work? && !s.threads[u].w.WorkGone?
    ensures GoesOn(c, more, k) && Extends(run, more) && Last(more).threads == Last(run).threads[u := Work(p')]
    ensures var (s, s') := (Last(run), Last(more));
      && WorkLeft(s'.sh, p') < WorkLeft(s.sh, s.threads[u].w) && Steady(s.sh, s'.sh)
      && s'.sh.wg == s.sh.wg - (if p'.WorkGone? then 1 else 0)
  {
    var h, p := Last(run).sh, Last(run).threads[u].w;
    var b := WorkBranch(h, p);
    WorkDown(h, p, b);
    var r := WorkStep(h, p, b);
    p' := r.1;
    more := Acted(c, run, k, u, b, r.0, Work(p'));
  }

  function WorkBranch(h: Shared, p: WorkPc): Branch
  {
    match p
    case WorkSelect(_) => Done
    case WorkDrain => if h.queue == [] then Default else Receive
    case _ => Go
  }

  lemma WorkDown(h: Shared, p: WorkPc, b: Branch)
    requires h.done && !p.WorkGone? && b == WorkBranch(h, p)
    ensures WorkReady(h, p, b)
    ensures var r := WorkStep(h, p, b);
      && WorkLeft(r.0, r.1) < WorkLeft(h, p) && Steady(h, r.0)
      && r.0.wg == h.wg - (if r.1.WorkGone? then 1 else 0)
  {
  }

  lemma {:induction false} WorkerGoes(c: Config, run: seq<State>, k: nat, u: nat) returns (more: seq<State>)
    requires GoesOn(c, run, k)
    requires var s := Last(run); s.sh.done && u in s.threads && s.threads[u].Work? && !s.threads[u].w.WorkGone?
    ensures GoesOn(c, more, k) && Extends(run, more) && Beside(Last(run), Last(more), u)
    ensures Steady(Last(run).sh, Last(more).sh) && Last(more).sh.wg == Last(run).sh.wg - 1
    decreases WorkLeft(Last(run).sh, Last(run).threads[u].w)
  {
    var p';
    more, p' := WorkTurn(c, run, k, u);
    SoloBeside(Last(run), Last(more), u, Work(p'));
    if !p'.WorkGone? {
      var mid := more;
      more := WorkerGoes(c, mid, k, u);
      ExtendsOn(run, mid, more);
    }
  }

  /** With the autoscaler gone, what the wait group waits for is a worker. */
  lemma WaitedFor(c: Config, run: seq<State>) returns (u: nat)
    requires c.Valid() && IsRun(c, run) && Last(run).sh.scaler == 0 && Last(run).sh.wg != 0
    ensures u in Last(run).threads && Last(run).threads[u].Work? && !Last(run).threads[u].w.WorkGone?
    ensures Last(run).sh.wg > 0
  {
    RunsKeepInv(c, run, |run| - 1);
    u := AtWitness(Last(run).threads, OnWait);
    AtFew(Last(run).threads, OnScaler);
  }

  lemma {:induction false} WorkersGo(c: Config, run: seq<State>, k: nat) returns (more: seq<State>)
    requires c.Valid() && GoesOn(c, run, k) && Last(run).sh.done && Last(run).sh.scaler == 0
    ensures GoesOn(c, more, k) && Extends(run, more) && ClosersStay(Last(run), Last(more))
    ensures Steady(Last(run).sh, Last(more).sh) && Last(more).sh.wg == 0
    decreases if Last(run).sh.wg > 0 then Last(run).sh.wg else 0
  {
    more := run;
    if Last(run).sh.wg != 0 {
      var u := WaitedFor(c, run);
      var mid := WorkerGoes(c, run, k, u);
      more := WorkersGo(c, mid, k);
      ExtendsOn(run, mid, more);
    }
  }

  ghost predicate ClosersStay(s: State, s': State)
  {
    forall t :: t in s.threads && s.threads[t].Close? ==> t in s'.threads && s'.threads[t] == s.threads[t]
  }

  // ----- The autoscaler after done -----

  function ScaleLeft(p: ScalePc): nat
  {
    match p
    case ScaleGone => 0
    case ScaleExit => 1
    case ScaleWait => 2
    case ScaleSample => 3
    case ScaleRecheck(_) => 3
    case ScaleShrink => 3
    case GrowGo(_) => 3
    case GrowWait(_) => 4
    case GrowCount(_) => 5
    case GrowAppend => 6
    case GrowCheck => 7
    case ScaleDecide(_) => 8
  }

  ghost predicate Scaling(s: State) { SCALER in s.threads && OnScaler(s.threads[SCALER]) }

  ghost predicate SameFlags(h: Shared, h': Shared) { h'.done == h.done && h'.closed == h.closed && h'.once == h.once }

  lemma ScaleTurn(c: Config, run: seq<State>, k: nat) returns (more: seq<State>, p': ScalePc)
    requires GoesOn(c, run, k) && Last(run).sh.done && Scaling(Last(run))
    ensures GoesOn(c, more, k) && Extends(run, more) && ClosersStay(Last(run), Last(more))
    ensures SCALER in Last(more).threads && Last(more).threads[SCALER] == Scale(p')
    ensures var (s, s') := (Last(run), Last(more));
      && ScaleLeft(p') < ScaleLeft(s.threads[SCALER].a) && SameFlags(s.sh, s'.sh)
      && s'.sh.scaler == s.sh.scaler - (if p'.ScaleGone? then 1 else 0)
  {
    var s := Last(run);
    var p := s.threads[SCALER].a;
    if p.GrowGo? {
      var u := FreshId(s.threads);
      p' := ScaleWait;
      more := OneMore(c, run, k, s.(threads := Launched(s, u)), u, Go);
    } else {
      var b := ScaleBranch(p);
      ScaleDown(c, s.sh, p, b);
      var r := ScaleStep(c, s.sh, p, b);
      p' := r.1;
      more := Acted(c, run, k, SCALER, b, r.0, Scale(p'));
    }
  }

  function ScaleBranch(p: ScalePc): Branch
  {
    if p.ScaleWait? || p.ScaleRecheck? then Done else if p.ScaleSample? then BadSample else Go
  }

  lemma ScaleDown(c: Config, h: Shared, p: ScalePc, b: Branch)
    requires h.done && !p.ScaleGone? && !p.GrowGo? && b == ScaleBranch(p)
    ensures ScaleReady(h, p, b)
    ensures var r := ScaleStep(c, h, p, b);
      && ScaleLeft(r.1) < ScaleLeft(p) && SameFlags(h, r.0)
      && r.0.scaler == h.scaler - (if r.1.ScaleGone? then 1 else 0)
  {
  }

  lemma {:induction false} ScalerGoes(c: Config, run: seq<State>, k: nat) returns (more: seq<State>)
    requires GoesOn(c, run, k) && Last(run).sh.done && Scaling(Last(run))
    ensures GoesOn(c, more, k) && Extends(run, more) && ClosersStay(Last(run), Last(more))
    ensures SameFlags(Last(run).sh, Last(more).sh) && Last(more).sh.scaler == Last(run).sh.scaler - 1
    decreases ScaleLeft(Last(run).threads[SCALER].a)
  {
    var p';
    more, p' := ScaleTurn(c, run, k);
    if !p'.ScaleGone? {
      var mid := more;
      more := ScalerGoes(c, mid, k);
      ExtendsOn(run, mid, more);
    }
  }

  /** There is one autoscaler. */
  lemma OneScaler(c: Config, run: seq<State>)
    requires c.Valid() && IsRun(c, run) && Last(run).sh.scaler != 0
    ensures Scaling(Last(run)) && Last(run).sh.scaler == 1
  {
    RunsKeepInv(c, run, |run| - 1);
    var s := Last(run);
    var u := AtWitness(s.threads, OnScaler);
    assert At(s.threads, OnScaler) == {SCALER};
  }

  // ----- A producer after done -----

  function SubLeft(p: SubPc): nat
  {
    match p
    case SubDone(_, _) => 0
    case SubLeave(_, _) => 1
    case SubSelect(_, _) => 2
    case SubCheck(_, _) => 3
    case SubStart(_, _) => 4
  }

  lemma SubTurn(c: Config, run: seq<State>, k: nat, u: nat) returns (more: seq<State>, p': SubPc)
    requires GoesOn(c, run, k)
    requires var s := Last(run); s.sh.done && s.sh.closed && u in s.threads && HoldsRead(s.threads[u])
    ensures GoesOn(c, more, k) && Extends(run, more) && Last(more).threads == Last(run).threads[u := Sub(p')]
    ensures var (s, s') := (Last(run), Last(more));
      && SubLeft(p') < SubLeft(s.threads[u].s)
      && Steady(s.sh, s'.sh) && s'.sh.wg == s.sh.wg && s'.sh.writer == s.sh.writer
      && (p'.HoldsRead() || p'.SubDone?) && s'.sh.readers == s.sh.readers - (if p'.SubDone? then 1 else 0)
  {
    var h, p := Last(run).sh, Last(run).threads[u].s;
    var b := if p.SubSelect? then Done else Go;
    var r := SubStep(c, h, p, b);
    p' := r.1;
    more := Acted(c, run, k, u, b, r.0, Sub(p'));
  }

  lemma {:induction false} ReaderGoes(c: Config, run: seq<State>, k: nat, u: nat) returns (more: seq<State>)
    requires GoesOn(c, run, k)
    requires var s := Last(run); s.sh.done && s.sh.closed && u in s.threads && HoldsRead(s.threads[u])
    ensures GoesOn(c, more, k) && Extends(run, more) && ClosersStay(Last(run), Last(more))
    ensures var (h, h') := (Last(run).sh, Last(more).sh);
      Steady(h, h') && h'.wg == h.wg && h'.writer == h.writer && h'.readers == h.readers - 1
    decreases SubLeft(Last(run).threads[u].s)
  {
    var p';
    more, p' := SubTurn(c, run, k, u);
    if !p'.SubDone? {
      var mid := more;
      more := ReaderGoes(c, mid, k, u);
      ExtendsOn(run, mid, more);
    }
  }

  lemma Reader(c: Config, run: seq<State>) returns (u: nat)
    requires c.Valid() && IsRun(c, run) && Last(run).sh.readers != 0
    ensures u in Last(run).threads && HoldsRead(Last(run).threads[u]) && Last(run).sh.readers > 0
  {
    RunsKeepInv(c, run, |run| - 1);
    u := AtWitness(Last(run).threads, HoldsRead);
  }

  lemma {:induction false} ReadersGo(c: Config, run: seq<State>, k: nat) returns (more: seq<State>)
    requires c.Valid() && GoesOn(c, run, k) && Last(run).sh.done && Last(run).sh.closed
    ensures GoesOn(c, more, k) && Extends(run, more) && ClosersStay(Last(run), Last(more))
    ensures var (h, h') := (Last(run).sh, Last(more).sh);
      Steady(h, h') && h'.wg == h.wg && h'.writer == h.writer && h'.readers == 0
    decreases if Last(run).sh.readers > 0 then Last(run).sh.readers else 0
  {
    more := run;
    if Last(run).sh.readers != 0 {
      var u := Reader(c, run);
      var mid := ReaderGoes(c, run, k, u);
      more := ReadersGo(c, mid, k);
      ExtendsOn(run, mid, more);
    }
  }

  // ----- Closers -----

  function CloseLeft(h: Shared, x: ClosePc): nat
  {
    match x
    case CloseUnlock => 1
    case CloseDrain => 2 + 2 * |h.queue|
    case CloseDrainJob(_, _) => 3 + 2 * |h.queue|
    case _ => 0
  }

  lemma DrainTurn(c: Config, run: seq<State>, k: nat, u: nat) returns (more: seq<State>, x': ClosePc)
    requires GoesOn(c, run, k) && u in Last(run).threads && HoldsWrite(Last(run).threads[u])
    ensures GoesOn(c, more, k) && Extends(run, more) && Last(more).threads == Last(run).threads[u := Close(x')]
    ensures var (s, s') := (Last(run), Last(more));
      && CloseLeft(s'.sh, x') < CloseLeft(s.sh, s.threads[u].x) && Steady(s.sh, s'.sh)
      && s'.sh.wg == s.sh.wg && s'.sh.readers == s.sh.readers
      && (x'.HoldsWrite() || (x'.CloseReturned? && !s'.sh.writer))
  {
    var h, x := Last(run).sh, Last(run).threads[u].x;
    var b := if x.CloseDrain? then (if h.queue == [] then Default else Receive) else Go;
    var r := CloseStep(h, u, x, b);
    x' := r.1;
    more := Acted(c, run, k, u, b, r.0, Close(x'));
  }

  lemma {:induction false} WriterGoes(c: Config, run: seq<State>, k: nat, u: nat) returns (more: seq<State>)
    requires GoesOn(c, run, k) && u in Last(run).threads && HoldsWrite(Last(run).threads[u])
    ensures GoesOn(c, more, k) && Extends(run, more) && Beside(Last(run), Last(more), u) && Returned(Last(more), u)
    ensures var (h, h') := (Last(run).sh, Last(more).sh);
      Steady(h, h') && h'.wg == h.wg && h'.readers == h.readers && !h'.writer
    decreases CloseLeft(Last(run).sh, Last(run).threads[u].x)
  {
    var x';
    more, x' := DrainTurn(c, run, k, u);
    SoloBeside(Last(run), Last(more), u, Close(x'));
    if !x'.CloseReturned? {
      var mid := more;
      more := WriterGoes(c, mid, k, u);
      ExtendsOn(run, mid, more);
    }
  }

  ghost predicate Stands(s: State, t: nat, x: ClosePc) { t in s.threads && s.threads[t] == Close(x) }

  /** One step of a closer outside the write lock. */
  lemma CloserTurn(c: Config, run: seq<State>, k: nat, t: nat, x: ClosePc) returns (more: seq<State>)
    requires GoesOn(c, run, k) && Stands(Last(run), t, x) && CloseReady(Last(run).sh, x, Go) && !x.HoldsWrite()
    ensures GoesOn(c, more, k) && Extends(run, more)
    ensures var r := CloseStep(Last(run).sh, t, x, Go); Stands(Last(more), t, r.1) && Last(more).sh == r.0
    ensures Beside(Last(run), Last(more), t)
  {
    var r := CloseStep(Last(run).sh, t, x, Go);
    more := Acted(c, run, k, t, Go, r.0, Close(r.1));
  }

  lemma Writer(c: Config, run: seq<State>) returns (u: nat)
    requires c.Valid() && IsRun(c, run) && Last(run).sh.writer
    ensures u in Last(run).threads && HoldsWrite(Last(run).threads[u])
  {
    RunsKeepInv(c, run, |run| - 1);
    u := AtWitness(Last(run).threads, HoldsWrite);
  }

  /** Where a closer stands tells what is over. */
  lemma Known(c: Config, run: seq<State>, t: nat, x: ClosePc)
    requires c.Valid() && IsRun(c, run) && Stands(Last(run), t, x)
    ensures var h := Last(run).sh;
      && (x.AfterOnce() ==> h.done && h.closed)
      && (x.AfterScaler() ==> h.scaler == 0)
      && (x.AfterWorkers() ==> h.wg == 0)
      && (h.once.Finished? ==> h.done)
  {
    RunsKeepInv(c, run, |run| - 1);
    assert CloserOk(Last(run).sh, t, x);
  }

  lemma FromLock(c: Config, run: seq<State>, k: nat, t: nat) returns (more: seq<State>)
    requires c.Valid() && GoesOn(c, run, k) && Stands(Last(run), t, CloseLock)
    ensures GoesOn(c, more, k) && Extends(run, more) && Returned(Last(more), t)
  {
    Known(c, run, t, CloseLock);
    var a := run;
    if Last(run).sh.writer {
      var u := Writer(c, run);
      a := WriterGoes(c, run, k, u);
    }
    var b := ReadersGo(c, a, k);
    ExtendsOn(run, a, b);
    var d := CloserTurn(c, b, k, t, CloseLock);
    ExtendsOn(run, b, d);
    more := WriterGoes(c, d, k, t);
    ExtendsOn(run, d, more);
  }

  lemma FromScaler(c: Config, run: seq<State>, k: nat, t: nat) returns (more: seq<State>)
    requires c.Valid() && GoesOn(c, run, k) && Stands(Last(run), t, CloseScaler)
    ensures GoesOn(c, more, k) && Extends(run, more) && Stands(Last(more), t, CloseWait)
  {
    Known(c, run, t, CloseScaler);
    var a := run;
    if Last(run).sh.scaler != 0 {
      OneScaler(c, run);
      a := ScalerGoes(c, run, k);
    }
    more := CloserTurn(c, a, k, t, CloseScaler);
    ExtendsOn(run, a, more);
  }

  lemma FromWait(c: Config, run: seq<State>, k: nat, t: nat) returns (more: seq<State>)
    requires c.Valid() && GoesOn(c, run, k) && Stands(Last(run), t, CloseWait)
    ensures GoesOn(c, more, k) && Extends(run, more) && Stands(Last(more), t, CloseLock)
  {
    Known(c, run, t, CloseWait);
    var a := WorkersGo(c, run, k);
    more := CloserTurn(c, a, k, t, CloseWait);
    ExtendsOn(run, a, more);
  }

  /** Whoever runs the Once gets through it. */
  lemma FromOnce(c: Config, run: seq<State>, k: nat, u: nat) returns (more: seq<State>)
    requires c.Valid() && GoesOn(c, run, k)
    requires u in Last(run).threads && Last(run).threads[u].Close? && Last(run).threads[u].x.InOnce()
    ensures GoesOn(c, more, k) && Extends(run, more) && Stands(Last(more), u, CloseScaler)
    ensures Beside(Last(run), Last(more), u) && Last(more).sh.once.Finished?
  {
    var a := run;
    if Last(run).threads[u].x.CloseFlag? {
      a := CloserTurn(c, run, k, u, CloseFlag);
    }
    more := CloserTurn(c, a, k, u, CloseSignal);
    ExtendsOn(run, a, more);
  }

  lemma Runner(c: Config, run: seq<State>) returns (u: nat)
    requires c.Valid() && IsRun(c, run) && Last(run).sh.once.Running?
    ensures u in Last(run).threads && Last(run).threads[u].Close? && Last(run).threads[u].x.InOnce()
  {
    RunsKeepInv(c, run, |run| - 1);
    u := Last(run).sh.once.runner;
  }

  lemma FromStart(c: Config, run: seq<State>, k: nat, t: nat) returns (more: seq<State>)
    requires c.Valid() && GoesOn(c, run, k) && Stands(Last(run), t, CloseStart)
    ensures GoesOn(c, more, k) && Extends(run, more) && Stands(Last(more), t, CloseScaler)
  {
    var a := run;
    if Last(run).sh.once.Running? {
      var u := Runner(c, run);
      a := FromOnce(c, run, k, u);
    }
    more := CloserTurn(c, a, k, t, CloseStart);
    ExtendsOn(run, a, more);
    if Last(more).threads[t].x.CloseFlag? {
      var b := more;
      more := FromOnce(c, b, k, t);
      ExtendsOn(run, b, more);
    }
  }

  /** From any place to the write lock. */
  lemma ToLock(c: Config, run: seq<State>, k: nat, t: nat) returns (more: seq<State>)
    requires c.Valid() && GoesOn(c, run, k)
    requires t in Last(run).threads && Last(run).threads[t].Close? && !Last(run).threads[t].x.AfterWorkers()
    ensures GoesOn(c, more, k) && Extends(run, more) && Stands(Last(more), t, CloseLock)
  {
    var x, a := Last(run).threads[t].x, run;
    if x.CloseStart? {
      a := FromStart(c, run, k, t);
    } else if x.InOnce() {
      a := FromOnce(c, run, k, t);
    }
    var b := a;
    if !x.CloseWait? {
      b := FromScaler(c, a, k, t);
    }
    ExtendsOn(run, a, b);
    more := FromWait(c, b, k, t);
    ExtendsOn(run, b, more);
  }

  /** Every pending Close of every run can return: the run goes on, without any new call, to a
      state in which that Close has returned. */
  lemma CloseReturns(c: Config, run: seq<State>, t: nat) returns (more: seq<State>)
    requires c.Valid() && IsRun(c, run) && t in Last(run).threads && Last(run).threads[t].Close?
    ensures GoesOn(c, more, |run|) && Extends(run, more) && Returned(Last(more), t)
  {
    var k, x := |run|, Last(run).threads[t].x;
    more := run;
    assert run[..|run|] == run;
    if x.HoldsWrite() {
      more := WriterGoes(c, run, k, t);
    } else if !x.CloseReturned? {
      var a := run;
      if !x.CloseLock? {
        a := ToLock(c, run, k, t);
      }
      more := FromLock(c, a, k, t);
      ExtendsOn(run, a, more);
    }
  }

  // ----- Submit and TrySubmit -----

  ghost predicate Submits(s: State, t: nat, p: SubPc) { t in s.threads && s.threads[t] == Sub(p) }

  lemma SubGoes(c: Config, run: seq<State>, k: nat, t: nat, p: SubPc, b: Branch) returns (more: seq<State>)
    requires GoesOn(c, run, k) && Submits(Last(run), t, p) && SubReady(c, Last(run).sh, p, b)
    requires !b.CallSubmit? && !b.CallClose?
    ensures GoesOn(c, more, k) && Extends(run, more)
    ensures var r := SubStep(c, Last(run).sh, p, b); Submits(Last(more), t, r.1) && Last(more).sh == r.0
  {
    var r := SubStep(c, Last(run).sh, p, b);
    more := Acted(c, run, k, t, b, r.0, Sub(r.1));
  }

  /** What the select of a call takes: the send while there is room, and the context last. */
  function SubBranch(c: Config, h: Shared, nonblocking: bool): Branch
  {
    if |h.queue| < c.queueSize then Send else if h.done then Done else if nonblocking then Default else Context
  }

  lemma NotOverfull(c: Config, run: seq<State>)
    requires c.Valid() && IsRun(c, run)
    ensures |Last(run).sh.queue| <= c.queueSize
  {
    RunsKeepInv(c, run, |run| - 1);
  }

  /** The call of t has ended with out, and with a context error only while the queue is full. */
  ghost predicate Answered(c: Config, s: State, t: nat, out: Outcome, job: Job)
  {
    Submits(s, t, SubDone(out, job)) && (out.ErrContext? ==> |s.sh.queue| == c.queueSize && !s.sh.done)
  }

  lemma SelectEnds(c: Config, run: seq<State>, k: nat, t: nat, p: SubPc) returns (more: seq<State>, out: Outcome)
    requires c.Valid() && GoesOn(c, run, k) && Submits(Last(run), t, p) && p.SubSelect?
    ensures GoesOn(c, more, k) && Extends(run, more) && Answered(c, Last(more), t, out, p.job)
    ensures |Last(run).sh.queue| < c.queueSize ==> out.Accepted?
  {
    NotOverfull(c, run);
    var b := SubBranch(c, Last(run).sh, p.nonblocking);
    var mid := SubGoes(c, run, k, t, p, b);
    out := SubStep(c, Last(run).sh, p, b).1.out;
    more := SubGoes(c, mid, k, t, SubLeave(out, p.job), Go);
    ExtendsOn(run, mid, more);
  }

  lemma CheckEnds(c: Config, run: seq<State>, k: nat, t: nat, p: SubPc) returns (more: seq<State>, out: Outcome)
    requires c.Valid() && GoesOn(c, run, k) && Submits(Last(run), t, p) && p.SubCheck?
    ensures GoesOn(c, more, k) && Extends(run, more) && Answered(c, Last(more), t, out, p.job)
    ensures !Last(run).sh.closed && |Last(run).sh.queue| < c.queueSize ==> out.Accepted?
  {
    var mid := SubGoes(c, run, k, t, p, Go);
    if Last(run).sh.closed {
      out := ErrClosed;
      more := SubGoes(c, mid, k, t, SubLeave(out, p.job), Go);
    } else {
      more, out := SelectEnds(c, mid, k, t, SubSelect(p.nonblocking, p.job));
    }
    ExtendsOn(run, mid, more);
  }

  lemma StartEnds(c: Config, run: seq<State>, k: nat, t: nat, p: SubPc) returns (more: seq<State>, out: Outcome)
    requires c.Valid() && GoesOn(c, run, k) && Submits(Last(run), t, p) && p.SubStart?
    ensures GoesOn(c, more, k) && Extends(run, more) && Answered(c, Last(more), t, out, p.job)
    ensures !Last(run).sh.closed && |Last(run).sh.queue| < c.queueSize ==> out.Accepted?
  {
    var a := run;
    if Last(run).sh.writer {
      var u := Writer(c, run);
      Known(c, run, u, Last(run).threads[u].x);
      a := WriterGoes(c, run, k, u);
    }
    assert Extends(run, a) by {
      assert run[..|run|] == run;
    }
    var b := SubGoes(c, a, k, t, p, Go);
    ExtendsOn(run, a, b);
    more, out := CheckEnds(c, b, k, t, SubCheck(p.nonblocking, p.job));
    ExtendsOn(run, b, more);
  }

  /** Every pending Submit and TrySubmit of every run can return without any new call. While the pool
      is not closed and its queue has room it can return with the job accepted, and the context has
      to end it only while the queue is full. */
  lemma SubmitReturns(c: Config, run: seq<State>, t: nat, p: SubPc) returns (more: seq<State>, out: Outcome)
    requires c.Valid() && IsRun(c, run) && Submits(Last(run), t, p) && !p.SubLeave? && !p.SubDone?
    ensures GoesOn(c, more, |run|) && Extends(run, more) && Answered(c, Last(more), t, out, p.job)
    ensures !Last(run).sh.closed && |Last(run).sh.queue| < c.queueSize ==> out.Accepted?
  {
    match p
    case SubStart(_, _) => more, out := StartEnds(c, run, |run|, t, p);
    case SubCheck(_, _) => more, out := CheckEnds(c, run, |run|, t, p);
    case SubSelect(_, _) => more, out := SelectEnds(c, run, |run|, t, p);
  }
}
