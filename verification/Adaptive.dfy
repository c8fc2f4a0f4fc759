/** The adaptive worker pool as a step system: producers, workers, the autoscaler and
    closers run interleaved, one lock, check, channel or counter operation at a time. */
module Adaptive {
  import opened Threads

  type Job(!new)

  datatype Config = Config(queueSize: nat, minWorkers: nat, maxWorkers: nat) {
    // what New accepts
    predicate Valid() { 1 <= queueSize && 1 <= minWorkers <= maxWorkers }
  }

  datatype Outcome = Accepted(i: nat) | ErrClosed | ErrFull | ErrContext

  // The sampled CPU fraction compared with the target.
  datatype Load = Over | Under | Equal

  // Submit and TrySubmit (nonblocking)
  datatype SubPc =
    | SubStart(nonblocking: bool, job: Job)
    | SubCheck(nonblocking: bool, job: Job)    // read lock held, closed not looked at yet
    | SubSelect(nonblocking: bool, job: Job)   // read lock held, closed was false
    | SubLeave(out: Outcome, job: Job)         // read lock held, about to release it
    | SubDone(out: Outcome, job: Job)
  {
    predicate HoldsRead() { SubCheck? || SubSelect? || SubLeave? }
    predicate Took() { (SubLeave? || SubDone?) && out.Accepted? }
  }

  // A thread that took a job off the queue carries the job and the position i at which
  // that job was accepted.
  datatype WorkPc =
    | WorkSelect(stop: nat)
    | WorkJob(stop: nat, i: nat, job: Job)
    | WorkDrain
    | WorkDrainJob(i: nat, job: Job)
    | WorkUncount                              // deferred workers.Add(-1)
    | WorkUnwait                               // deferred wg.Done
    | WorkGone

  datatype ScalePc =
    | ScaleWait
    | ScaleSample
    | ScaleRecheck(load: Load)
    | ScaleDecide(load: Load)
    | ScaleShrink
    | GrowCheck
    | GrowAppend
    | GrowCount(ch: nat)
    | GrowWait(ch: nat)
    | GrowGo(ch: nat)
    | ScaleExit
    | ScaleGone

  datatype ClosePc =
    | CloseStart
    | CloseFlag                                // inside the Once, before closed.Store
    | CloseSignal                              // inside the Once, before close(done)
    | CloseScaler
    | CloseWait
    | CloseLock
    | CloseDrain                               // write lock held
    | CloseDrainJob(i: nat, job: Job)
    | CloseUnlock
    | CloseReturned
  {
    predicate InOnce() { CloseFlag? || CloseSignal? }
    predicate HoldsWrite() { CloseDrain? || CloseDrainJob? || CloseUnlock? }
    predicate AfterWorkers() { CloseLock? || HoldsWrite() || CloseReturned? }
    predicate AfterScaler() { CloseWait? || AfterWorkers() }
    predicate AfterOnce() { CloseScaler? || AfterScaler() }
    predicate AfterDrain() { CloseUnlock? || CloseReturned? }
  }

  /** A thread: a producer's call, a worker, the autoscaler or a Close call. */
  datatype Pc = Sub(s: SubPc) | Work(w: WorkPc) | Scale(a: ScalePc) | Close(x: ClosePc)
  {
    predicate HasJob() { (Work? && (w.WorkJob? || w.WorkDrainJob?)) || (Close? && x.CloseDrainJob?) }

    // the call was told that its job is accepted, as job number Receipt().0
    predicate HasReceipt() { Sub? && s.Took() }

    function Receipt(): (nat, Job)
      requires HasReceipt()
    {
      (s.out.i, s.job)
    }

    function Ticket(): (nat, Job)
      requires HasJob()
    {
      if Work? then (w.i, w.job) else (x.i, x.job)
    }
  }

  // The points behind each counter of the source.
  predicate HoldsRead(p: Pc) { p.Sub? && p.s.HoldsRead() }
  predicate HoldsWrite(p: Pc) { p.Close? && p.x.HoldsWrite() }
  predicate OnWait(p: Pc) { (p.Work? && !p.w.WorkGone?) || (p.Scale? && p.a.GrowGo?) }
  predicate Counted(p: Pc) {
    || (p.Work? && !p.w.WorkGone? && !p.w.WorkUnwait?)
    || (p.Scale? && (p.a.GrowWait? || p.a.GrowGo?))
  }
  predicate OnScaler(p: Pc) { p.Scale? && !p.a.ScaleGone? }

  datatype Once = Fresh | Running(runner: nat) | Finished

  /** Shared state. accepted is the log of jobs in the order their sends took effect,
      received counts the jobs taken off the queue, and ran logs each call of the work
      function with the position of its job. */
  datatype Shared = Shared(
    queue: seq<Job>,
    readers: int, writer: bool,
    closed: bool, done: bool, once: Once,
    workers: int, wg: int, scaler: int,
    stopChs: seq<nat>, stopped: set<nat>, nextCh: nat,
    accepted: seq<Job>, received: nat, ran: seq<(nat, Job)>)

  datatype State = State(threads: map<nat, Pc>, sh: Shared)

  /** Which ready case a select takes, what a sample says, or which call starts. */
  datatype Branch =
    | Go | Send | Done | Context | Default | Stop | Receive | Tick | BadSample | Sample(load: Load)
    | CallSubmit(nonblocking: bool, job: Job) | CallClose

  const SCALER: nat := 0

  /** The autoscaler and n workers, the k-th of them stopped by channel k - 1. */
  ghost function Started(n: nat): map<nat, Pc>
  {
    if n == 0 then map[SCALER := Scale(ScaleWait)] else Started(n - 1)[n := Work(WorkSelect(n - 1))]
  }

  /** New: minWorkers workers wait in their select, the autoscaler waits for a tick. */
  ghost function Init(c: Config): State
  {
    State(
      Started(c.minWorkers),
      Shared([], 0, false, false, false, Fresh, c.minWorkers, c.minWorkers, 1,
             seq(c.minWorkers, k => k), {}, c.minWorkers, [], 0, []))
  }

  ghost predicate SubReady(c: Config, h: Shared, p: SubPc, b: Branch)
  {
    match p
    case SubStart(_, _) => b.Go? && !h.writer
    case SubCheck(_, _) => b.Go?
    case SubSelect(nonblocking, _) =>
      || (b.Send? && |h.queue| < c.queueSize)
      || (b.Done? && h.done)
      || (b.Context? && !nonblocking)
      || (b.Default? && nonblocking && |h.queue| == c.queueSize && !h.done)
    case SubLeave(_, _) => b.Go?
    case _ => false
  }

  ghost function SubStep(c: Config, h: Shared, p: SubPc, b: Branch): (Shared, SubPc)
    requires SubReady(c, h, p, b)
  {
    match p
    case SubStart(nb, j) => (h.(readers := h.readers + 1), SubCheck(nb, j))
    case SubCheck(nb, j) => (h, if h.closed then SubLeave(ErrClosed, j) else SubSelect(nb, j))
    case SubSelect(nb, j) => (
      match b
      case Send => (h.(queue := h.queue + [j], accepted := h.accepted + [j]), SubLeave(Accepted(|h.accepted|), j))
      case Done => (h, SubLeave(ErrClosed, j))
      case Context => (h, SubLeave(ErrContext, j))
      case Default => (h, SubLeave(ErrFull, j)))
    case SubLeave(out, j) => (h.(readers := h.readers - 1), SubDone(out, j))
  }

  ghost predicate WorkReady(h: Shared, p: WorkPc, b: Branch)
  {
    match p
    case WorkSelect(stop) =>
      || (b.Done? && h.done)
      || (b.Stop? && stop in h.stopped)
      || (b.Receive? && h.queue != [])
    case WorkDrain => (b.Receive? && h.queue != []) || (b.Default? && h.queue == [])
    case WorkJob(_, _, _) => b.Go?
    case WorkDrainJob(_, _) => b.Go?
    case WorkUncount => b.Go?
    case WorkUnwait => b.Go?
    case _ => false
  }

  ghost function WorkStep(h: Shared, p: WorkPc, b: Branch): (Shared, WorkPc)
    requires WorkReady(h, p, b)
  {
    match p
    case WorkSelect(stop) => (
      match b
      case Done => (h, WorkDrain)
      case Stop => (h, WorkUncount)
      case Receive => (Take(h), WorkJob(stop, h.received, h.queue[0])))
    case WorkJob(stop, i, j) => (h.(ran := h.ran + [(i, j)]), WorkSelect(stop))
    case WorkDrain => if b.Receive? then (Take(h), WorkDrainJob(h.received, h.queue[0])) else (h, WorkUncount)
    case WorkDrainJob(i, j) => (h.(ran := h.ran + [(i, j)]), WorkDrain)
    case WorkUncount => (h.(workers := h.workers - 1), WorkUnwait)
    case WorkUnwait => (h.(wg := h.wg - 1), WorkGone)
  }

  ghost predicate ScaleReady(h: Shared, p: ScalePc, b: Branch)
  {
    match p
    case ScaleWait => (b.Done? && h.done) || b.Tick?
    case ScaleSample => b.BadSample? || b.Sample?
    case ScaleRecheck(_) => (b.Done? && h.done) || (b.Default? && !h.done)
    case ScaleDecide(_) => b.Go?
    case ScaleShrink => b.Go?
    case GrowCheck => b.Go?
    case GrowAppend => b.Go?
    case GrowCount(_) => b.Go?
    case GrowWait(_) => b.Go?
    case ScaleExit => b.Go?
    case _ => false
  }

  ghost function ScaleStep(c: Config, h: Shared, p: ScalePc, b: Branch): (Shared, ScalePc)
    requires ScaleReady(h, p, b)
  {
    match p
    case ScaleWait => (h, if b.Done? then ScaleExit else ScaleSample)
    case ScaleSample => (h, if b.Sample? then ScaleRecheck(b.load) else ScaleWait)
    case ScaleRecheck(load) => (h, if b.Done? then ScaleExit else ScaleDecide(load))
    case ScaleDecide(load) => (h,
      match load
      case Over => if h.workers > c.minWorkers then ScaleShrink else ScaleWait
      case Under => if h.workers < c.maxWorkers && h.queue != [] then GrowCheck else ScaleWait
      case Equal => ScaleWait)
    case ScaleShrink =>
      if h.stopChs == [] then (h, ScaleWait)
      else
        var last := |h.stopChs| - 1;
        (h.(stopChs := h.stopChs[..last], stopped := h.stopped + {h.stopChs[last]}), ScaleWait)
    case GrowCheck => (h, if h.workers >= c.maxWorkers then ScaleWait else GrowAppend)
    case GrowAppend => (h.(stopChs := h.stopChs + [h.nextCh], nextCh := h.nextCh + 1), GrowCount(h.nextCh))
    case GrowCount(ch) => (h.(workers := h.workers + 1), GrowWait(ch))
    case GrowWait(ch) => (h.(wg := h.wg + 1), GrowGo(ch))
    case ScaleExit => (h.(scaler := h.scaler - 1), ScaleGone)
  }

  ghost predicate CloseReady(h: Shared, p: ClosePc, b: Branch)
  {
    match p
    case CloseStart => b.Go? && !h.once.Running?      // a second caller waits for the Once
    case CloseFlag => b.Go?
    case CloseSignal => b.Go?
    case CloseScaler => b.Go? && h.scaler == 0
    case CloseWait => b.Go? && h.wg == 0
    case CloseLock => b.Go? && !h.writer && h.readers == 0
    case CloseDrain => (b.Receive? && h.queue != []) || (b.Default? && h.queue == [])
    case CloseDrainJob(_, _) => b.Go?
    case CloseUnlock => b.Go?
    case _ => false
  }

  ghost function CloseStep(h: Shared, t: nat, p: ClosePc, b: Branch): (Shared, ClosePc)
    requires CloseReady(h, p, b)
  {
    match p
    case CloseStart => if h.once.Fresh? then (h.(once := Running(t)), CloseFlag) else (h, CloseScaler)
    case CloseFlag => (h.(closed := true), CloseSignal)
    case CloseSignal => (h.(done := true, once := Finished), CloseScaler)
    case CloseScaler => (h, CloseWait)
    case CloseWait => (h, CloseLock)
    case CloseLock => (h.(writer := true), CloseDrain)
    case CloseDrain => if b.Receive? then (Take(h), CloseDrainJob(h.received, h.queue[0])) else (h, CloseUnlock)
    case CloseDrainJob(i, j) => (h.(ran := h.ran + [(i, j)]), CloseDrain)
    case CloseUnlock => (h.(writer := false), CloseReturned)
  }

  ghost function Take(h: Shared): Shared
    requires h.queue != []
  {
    h.(queue := h.queue[1..], received := h.received + 1)
  }

  /** One operation of a thread that is at p. */
  ghost predicate Acts(c: Config, t: nat, b: Branch, h: Shared, p: Pc, h': Shared, p': Pc)
  {
    match p
    case Sub(q) => SubReady(c, h, q, b) && var (g, q') := SubStep(c, h, q, b); h' == g && p' == Sub(q')
    case Work(q) => WorkReady(h, q, b) && var (g, q') := WorkStep(h, q, b); h' == g && p' == Work(q')
    case Scale(q) => ScaleReady(h, q, b) && var (g, q') := ScaleStep(c, h, q, b); h' == g && p' == Scale(q')
    case Close(q) => CloseReady(h, q, b) && var (g, q') := CloseStep(h, t, q, b); h' == g && p' == Close(q')
  }

  /** A step: a thread acts, a call starts, or the goroutine of a grow begins. */
  ghost predicate Next(c: Config, s: State, s': State, t: nat, b: Branch)
  {
    if t in s.threads then
      && t in s'.threads
      && s'.threads == s.threads[t := s'.threads[t]]
      && Acts(c, t, b, s.sh, s.threads[t], s'.sh, s'.threads[t])
    else
      match b
      case CallSubmit(nb, j) => s' == s.(threads := s.threads[t := Sub(SubStart(nb, j))])
      case CallClose => s' == s.(threads := s.threads[t := Close(CloseStart)])
      case Go => Launches(s) && s' == s.(threads := Launched(s, t))
      case _ => false
  }

  ghost predicate Launches(s: State)
  {
    SCALER in s.threads && s.threads[SCALER].Scale? && s.threads[SCALER].a.GrowGo?
  }

  ghost function Launched(s: State, t: nat): map<nat, Pc>
    requires Launches(s)
  {
    s.threads[t := Work(WorkSelect(s.threads[SCALER].a.ch))][SCALER := Scale(ScaleWait)]
  }

  ghost predicate Steps(c: Config, s: State, s': State)
  {
    exists t, b :: Next(c, s, s', t, b)
  }

  /** A run: any finite interleaving of steps from New. */
  ghost predicate IsRun(c: Config, run: seq<State>)
  {
    && run != []
    && run[0] == Init(c)
    && forall k :: 0 < k < |run| ==> StepAt(c, run, k)
  }

  ghost predicate StepAt(c: Config, run: seq<State>, k: int)
    requires 0 < k < |run|
  {
    Steps(c, run[k - 1], run[k])
  }

  // ----- What every step keeps -----

  ghost predicate Counters(s: State)
  {
    && s.sh.readers == |At(s.threads, HoldsRead)|
    && (if s.sh.writer then 1 else 0) == |At(s.threads, HoldsWrite)|
    && s.sh.wg == |At(s.threads, OnWait)|
    && s.sh.workers == |At(s.threads, Counted)|
    && s.sh.scaler == |At(s.threads, OnScaler)|
    && (s.sh.writer ==> s.sh.readers == 0)
  }

  /** Jobs leave the queue in the order they were accepted; a job taken off it is with
      exactly one thread or has been run exactly once. */
  ghost predicate Conserved(c: Config, s: State)
  {
    && InOrder(c, s.sh)
    && (forall t :: t in s.threads && s.threads[t].HasJob() ==> Genuine(s.sh, s.threads[t].Ticket()))
    && (forall k :: 0 <= k < |s.sh.ran| ==> Genuine(s.sh, s.sh.ran[k]))
    && (forall t, u :: t in s.threads && u in s.threads && t != u ==>
          s.threads[t].HasJob() && s.threads[u].HasJob() ==> s.threads[t].Ticket().0 != s.threads[u].Ticket().0)
    && (forall k, l :: 0 <= k < l < |s.sh.ran| ==> s.sh.ran[k].0 != s.sh.ran[l].0)
    && (forall t, k :: t in s.threads && s.threads[t].HasJob() && 0 <= k < |s.sh.ran| ==>
          s.threads[t].Ticket().0 != s.sh.ran[k].0)
    && (forall i: nat :: i < s.sh.received ==> Held(s, i) || Ran(s.sh, i))
  }

  ghost predicate InOrder(c: Config, h: Shared)
  {
    && h.received <= |h.accepted|
    && h.queue == h.accepted[h.received..]
    && |h.queue| <= c.queueSize
  }

  ghost predicate Genuine(h: Shared, ticket: (nat, Job))
  {
    ticket.0 < h.received <= |h.accepted| && h.accepted[ticket.0] == ticket.1
  }

  ghost predicate Held(s: State, i: nat)
  {
    exists t :: t in s.threads && s.threads[t].HasJob() && s.threads[t].Ticket().0 == i
  }

  ghost predicate Ran(h: Shared, i: nat)
  {
    HasTicket(h.ran, i)
  }

  ghost predicate HasTicket(ran: seq<(nat, Job)>, i: nat)
  {
    exists k :: 0 <= k < |ran| && ran[k].0 == i
  }

  ghost predicate Phases(c: Config, s: State)
  {
    && (s.sh.done ==> s.sh.closed)
    && (s.sh.once.Finished? ==> s.sh.done)
    && (s.sh.once.Running? ==>
          s.sh.once.runner in s.threads && s.threads[s.sh.once.runner].Close? && s.threads[s.sh.once.runner].x.InOnce())
    && (forall t :: t in s.threads && s.threads[t].Close? ==> CloserOk(s.sh, t, s.threads[t].x))
    && (forall t :: t in s.threads && s.threads[t].Scale? ==> t == SCALER && GrowerOk(c, s.sh, s.threads[t].a))
    && s.sh.workers <= c.maxWorkers
  }

  ghost predicate CloserOk(h: Shared, t: nat, x: ClosePc)
  {
    && (x.InOnce() ==> h.once == Running(t))
    && (x.CloseSignal? ==> h.closed)
    && (x.AfterOnce() ==> h.once.Finished?)
    && (x.AfterScaler() ==> h.scaler == 0)
    && (x.AfterWorkers() ==> h.wg == 0)
  }

  ghost predicate GrowerOk(c: Config, h: Shared, a: ScalePc)
  {
    a.GrowAppend? || a.GrowCount? ==> h.workers < c.maxWorkers
  }

  /** The calls that were told "accepted" are exactly the entries of the log. */
  ghost predicate Receipts(s: State)
  {
    && (forall t :: t in s.threads && s.threads[t].HasReceipt() ==> Fits(s.sh.accepted, s.threads[t].Receipt()))
    && (forall t, u :: t in s.threads && u in s.threads && t != u ==>
          s.threads[t].HasReceipt() && s.threads[u].HasReceipt() ==>
            s.threads[t].Receipt().0 != s.threads[u].Receipt().0)
    && (forall i: nat :: i < |s.sh.accepted| ==> Told(s, i))
  }

  ghost predicate Told(s: State, i: nat)
  {
    exists t :: t in s.threads && s.threads[t].HasReceipt() && s.threads[t].Receipt().0 == i
  }

  ghost predicate Fits(accepted: seq<Job>, ticket: (nat, Job))
  {
    ticket.0 < |accepted| && accepted[ticket.0] == ticket.1
  }

  /** Nothing can be accepted any more and everything accepted has been run. */
  ghost predicate Sealed(s: State)
  {
    && s.sh.closed
    && s.sh.received == |s.sh.accepted|
    && (forall i: nat :: i < |s.sh.accepted| ==> Ran(s.sh, i))
    && (forall t :: t in s.threads && s.threads[t].Sub? ==> !s.threads[t].s.SubSelect?)
  }

  ghost predicate Inv(c: Config, s: State)
  {
    && Counters(s)
    && Conserved(c, s)
    && Receipts(s)
    && Phases(c, s)
    && Sealing(s)
  }

  /** A closer past its drain has sealed the pool. */
  ghost predicate Sealing(s: State)
  {
    forall t :: t in s.threads && s.threads[t].Close? && s.threads[t].x.AfterDrain() ==> Sealed(s)
  }

  // ----- What one step does to the counters and to the jobs -----

  function One(b: bool): int { if b then 1 else 0 }

  /** A thread going from p to p' adjusts every counter by what it gives up and takes. */
  ghost predicate Balanced(h: Shared, h': Shared, p: Pc, p': Pc)
  {
    && h'.readers - h.readers == One(HoldsRead(p')) - One(HoldsRead(p))
    && One(h'.writer) - One(h.writer) == One(HoldsWrite(p')) - One(HoldsWrite(p))
    && h'.wg - h.wg == One(OnWait(p')) - One(OnWait(p))
    && h'.workers - h.workers == One(Counted(p')) - One(Counted(p))
    && h'.scaler - h.scaler == One(OnScaler(p')) - One(OnScaler(p))
    && (HoldsRead(p') && !HoldsRead(p) ==> !h.writer)
    && (HoldsWrite(p') && !HoldsWrite(p) ==> h.readers == 0)
  }

  ghost predicate SameJobs(h: Shared, h': Shared)
  {
    h'.queue == h.queue && h'.accepted == h.accepted && h'.received == h.received
  }

  /** A thread either leaves the jobs alone, or its job is accepted, or it takes the job at
      the head of the queue, or it finishes the job it has. */
  ghost predicate Flows(c: Config, h: Shared, h': Shared, p: Pc, p': Pc)
  {
    if p.HasJob() then
      !p'.HasJob() && h'.ran == h.ran + [p.Ticket()] && SameJobs(h, h')
    else if p'.HasJob() then
      && h.queue != [] && p'.Ticket() == (h.received, h.queue[0])
      && h' == Take(h)
    else
      && h'.ran == h.ran && h'.received == h.received
      && (SameJobs(h, h') || Accepts(c, h, h', p, p'))
  }

  ghost predicate Accepts(c: Config, h: Shared, h': Shared, p: Pc, p': Pc)
  {
    && p.Sub? && p.s.SubSelect? && |h.queue| < c.queueSize && p'.HasReceipt()
    && h'.queue == h.queue + [p.s.job] && h'.accepted == h.accepted + [p.s.job]
  }

  /** A call is told "accepted" in the step that logs its job, and keeps its receipt. */
  ghost predicate Receives(h: Shared, h': Shared, p: Pc, p': Pc)
  {
    if p.HasReceipt() then p'.HasReceipt() && p'.Receipt() == p.Receipt() && h'.accepted == h.accepted
    else if p'.HasReceipt() then
      p.Sub? && p.s.SubSelect? && p'.Receipt() == (|h.accepted|, p.s.job) && h'.accepted == h.accepted + [p.s.job]
    else h'.accepted == h.accepted
  }

  lemma SubEffect(c: Config, b: Branch, h: Shared, q: SubPc)
    requires SubReady(c, h, q, b)
    ensures var (h', q') := SubStep(c, h, q, b);
            Balanced(h, h', Sub(q), Sub(q')) && Flows(c, h, h', Sub(q), Sub(q')) && Receives(h, h', Sub(q), Sub(q'))
  {
  }

  lemma WorkEffect(c: Config, b: Branch, h: Shared, q: WorkPc)
    requires WorkReady(h, q, b)
    ensures var (h', q') := WorkStep(h, q, b); Balanced(h, h', Work(q), Work(q')) && Flows(c, h, h', Work(q), Work(q'))
  {
  }

  lemma ScaleEffect(c: Config, b: Branch, h: Shared, q: ScalePc)
    requires ScaleReady(h, q, b)
    ensures var (h', q') := ScaleStep(c, h, q, b);
      Balanced(h, h', Scale(q), Scale(q')) && Flows(c, h, h', Scale(q), Scale(q'))
  {
  }

  lemma CloseEffect(c: Config, t: nat, b: Branch, h: Shared, q: ClosePc)
    requires CloseReady(h, q, b) && (q.HoldsWrite() ==> h.writer)
    ensures var (h', q') := CloseStep(h, t, q, b);
      Balanced(h, h', Close(q), Close(q')) && Flows(c, h, h', Close(q), Close(q'))
  {
  }

  lemma StepEffect(c: Config, t: nat, b: Branch, h: Shared, p: Pc, h': Shared, p': Pc)
    requires Acts(c, t, b, h, p, h', p') && (HoldsWrite(p) ==> h.writer)
    ensures Balanced(h, h', p, p') && Flows(c, h, h', p, p') && Receives(h, h', p, p')
  {
    match p
    case Sub(q) => SubEffect(c, b, h, q);
    case Work(q) => WorkEffect(c, b, h, q);
    case Scale(q) => ScaleEffect(c, b, h, q);
    case Close(q) => CloseEffect(c, t, b, h, q);
  }

  // ----- Preservation -----

  lemma WriterPoint(s: State, t: nat)
    requires Counters(s) && t in s.threads && HoldsWrite(s.threads[t])
    ensures s.sh.writer
  {
    AtFew(s.threads, HoldsWrite);
  }

  lemma MoveLocks(m: map<nat, Pc>, t: nat, p: Pc)
    ensures |At(m[t := p], HoldsRead)| == |At(m, HoldsRead)| + One(HoldsRead(p)) - One(t in m && HoldsRead(m[t]))
    ensures |At(m[t := p], HoldsWrite)| == |At(m, HoldsWrite)| + One(HoldsWrite(p)) - One(t in m && HoldsWrite(m[t]))
  {
    AtUpdate(m, t, p, HoldsRead);
    AtUpdate(m, t, p, HoldsWrite);
  }

  /** How the five counts change when t enters the point p. */
  lemma MoveCounts(m: map<nat, Pc>, t: nat, p: Pc)
    ensures |At(m[t := p], HoldsRead)| == |At(m, HoldsRead)| + One(HoldsRead(p)) - One(t in m && HoldsRead(m[t]))
    ensures |At(m[t := p], HoldsWrite)| == |At(m, HoldsWrite)| + One(HoldsWrite(p)) - One(t in m && HoldsWrite(m[t]))
    ensures |At(m[t := p], OnWait)| == |At(m, OnWait)| + One(OnWait(p)) - One(t in m && OnWait(m[t]))
    ensures |At(m[t := p], Counted)| == |At(m, Counted)| + One(Counted(p)) - One(t in m && Counted(m[t]))
    ensures |At(m[t := p], OnScaler)| == |At(m, OnScaler)| + One(OnScaler(p)) - One(t in m && OnScaler(m[t]))
  {
    MoveLocks(m, t, p);
    AtUpdate(m, t, p, OnWait);
    AtUpdate(m, t, p, Counted);
    AtUpdate(m, t, p, OnScaler);
  }

  lemma CountersKept(s: State, s': State, t: nat)
    requires Counters(s) && t in s.threads && t in s'.threads
    requires s'.threads == s.threads[t := s'.threads[t]]
    requires Balanced(s.sh, s'.sh, s.threads[t], s'.threads[t])
    ensures Counters(s')
  {
    MoveCounts(s.threads, t, s'.threads[t]);
  }

  lemma CountersEnter(s: State, t: nat, p: Pc)
    requires Counters(s) && t !in s.threads
    requires !HoldsRead(p) && !HoldsWrite(p) && !OnWait(p) && !Counted(p) && !OnScaler(p)
    ensures Counters(s.(threads := s.threads[t := p]))
  {
    MoveCounts(s.threads, t, p);
  }

  /** The wait group and the worker count pass from the grower to the new worker. */
  lemma CountersLaunch(s: State, t: nat)
    requires Counters(s) && t !in s.threads && Launches(s)
    ensures Counters(s.(threads := Launched(s, t)))
  {
    var w := Work(WorkSelect(s.threads[SCALER].a.ch));
    MoveCounts(s.threads, t, w);
    MoveCounts(s.threads[t := w], SCALER, Scale(ScaleWait));
  }

  lemma ConservedKept(c: Config, s: State, s': State, t: nat)
    requires Conserved(c, s) && t in s.threads && t in s'.threads
    requires s'.threads == s.threads[t := s'.threads[t]]
    requires Flows(c, s.sh, s'.sh, s.threads[t], s'.threads[t])
    ensures Conserved(c, s')
  {
    GenuineKept(c, s, s', t);
    ApartKept(c, s, s', t);
    forall i: nat | i < s'.sh.received
      ensures Held(s', i) || Ran(s'.sh, i)
    {
      if i < s.sh.received {
        StillAccounted(c, s, s', t, i);
      } else {
        assert s'.threads[t].Ticket().0 == i;
      }
    }
  }

  lemma GenuineKept(c: Config, s: State, s': State, t: nat)
    requires Conserved(c, s) && t in s.threads && t in s'.threads
    requires s'.threads == s.threads[t := s'.threads[t]]
    requires Flows(c, s.sh, s'.sh, s.threads[t], s'.threads[t])
    ensures InOrder(c, s'.sh)
    ensures forall u :: u in s'.threads && s'.threads[u].HasJob() ==> Genuine(s'.sh, s'.threads[u].Ticket())
    ensures forall k :: 0 <= k < |s'.sh.ran| ==> Genuine(s'.sh, s'.sh.ran[k])
  {
  }

  lemma ApartKept(c: Config, s: State, s': State, t: nat)
    requires Conserved(c, s) && t in s.threads && t in s'.threads
    requires s'.threads == s.threads[t := s'.threads[t]]
    requires Flows(c, s.sh, s'.sh, s.threads[t], s'.threads[t])
    ensures forall u, v :: u in s'.threads && v in s'.threads && u != v ==>
      s'.threads[u].HasJob() && s'.threads[v].HasJob() ==> s'.threads[u].Ticket().0 != s'.threads[v].Ticket().0
    ensures forall k, l :: 0 <= k < l < |s'.sh.ran| ==> s'.sh.ran[k].0 != s'.sh.ran[l].0
    ensures forall u, k :: u in s'.threads && s'.threads[u].HasJob() && 0 <= k < |s'.sh.ran| ==>
      s'.threads[u].Ticket().0 != s'.sh.ran[k].0
  {
  }

  lemma StillAccounted(c: Config, s: State, s': State, t: nat, i: nat)
    requires t in s.threads && t in s'.threads && (Held(s, i) || Ran(s.sh, i))
    requires s'.threads == s.threads[t := s'.threads[t]]
    requires Flows(c, s.sh, s'.sh, s.threads[t], s'.threads[t])
    ensures Held(s', i) || Ran(s'.sh, i)
    ensures Ran(s.sh, i) ==> Ran(s'.sh, i)
  {
    if Ran(s.sh, i) {
      var k :| 0 <= k < |s.sh.ran| && s.sh.ran[k].0 == i;
      assert s'.sh.ran[k] == s.sh.ran[k];
    } else {
      var u :| u in s.threads && s.threads[u].HasJob() && s.threads[u].Ticket().0 == i;
      if u == t {
        assert s'.sh.ran[|s.sh.ran|].0 == i;
      } else {
        assert s'.threads[u] == s.threads[u];
      }
    }
  }

  lemma ReceiptsKept(s: State, s': State, t: nat)
    requires Receipts(s) && t in s.threads && t in s'.threads
    requires s'.threads == s.threads[t := s'.threads[t]]
    requires Receives(s.sh, s'.sh, s.threads[t], s'.threads[t])
    ensures Receipts(s')
  {
    forall i: nat | i < |s'.sh.accepted| ensures Told(s', i) {
      if i < |s.sh.accepted| {
        assert Told(s, i);
        var u :| u in s.threads && s.threads[u].HasReceipt() && s.threads[u].Receipt().0 == i;
        assert s'.threads[u].HasReceipt() && s'.threads[u].Receipt().0 == i;
      } else {
        assert s'.threads[t].HasReceipt() && s'.threads[t].Receipt().0 == i;
      }
    }
  }

  /** When a closer finds the queue empty under the write lock, all is run: the workers
      are gone, no other closer drains, and no producer is between check and send. */
  lemma DrainSeals(c: Config, s: State, t: nat)
    requires Counters(s) && Conserved(c, s) && Phases(c, s)
    requires t in s.threads && s.threads[t] == Close(CloseDrain) && s.sh.queue == []
    ensures Sealed(s)
  {
    WriterPoint(s, t);
    AtFew(s.threads, HoldsRead);
    AtFew(s.threads, HoldsWrite);
    AtFew(s.threads, OnWait);
    assert CloserOk(s.sh, t, CloseDrain);
    forall i: nat | i < |s.sh.accepted| ensures Ran(s.sh, i) {
      assert i < s.sh.received;
      assert !Held(s, i);
    }
  }

  /** What Phases says of the thread that is about to act. */
  ghost predicate PhaseOk(c: Config, t: nat, h: Shared, p: Pc)
  {
    && (h.done ==> h.closed) && (h.once.Finished? ==> h.done) && h.workers <= c.maxWorkers
    && (p.Close? ==> CloserOk(h, t, p.x))
    && (p.Scale? ==> GrowerOk(c, h, p.a))
  }

  lemma ScalePhase(c: Config, t: nat, b: Branch, h: Shared, q: ScalePc)
    requires ScaleReady(h, q, b) && PhaseOk(c, t, h, Scale(q))
    ensures var (h', q') := ScaleStep(c, h, q, b);
      PhaseOk(c, t, h', Scale(q')) && Footprint(t, h, Scale(q), h', Scale(q'))
  {
  }

  lemma ClosePhase(c: Config, t: nat, b: Branch, h: Shared, q: ClosePc)
    requires CloseReady(h, q, b) && PhaseOk(c, t, h, Close(q))
    ensures var (h', q') := CloseStep(h, t, q, b);
      PhaseOk(c, t, h', Close(q')) && Footprint(t, h, Close(q), h', Close(q'))
  {
  }

  lemma OwnPhase(c: Config, t: nat, b: Branch, h: Shared, p: Pc, h': Shared, p': Pc)
    requires Acts(c, t, b, h, p, h', p') && PhaseOk(c, t, h, p)
    ensures PhaseOk(c, t, h', p') && Footprint(t, h, p, h', p')
  {
    match p
    case Sub(q) =>
    case Work(q) =>
    case Scale(q) => ScalePhase(c, t, b, h, q);
    case Close(q) => ClosePhase(c, t, b, h, q);
  }

  /** Who may change the flags and counters that the phases of other threads rely on. */
  ghost predicate Footprint(t: nat, h: Shared, p: Pc, h': Shared, p': Pc)
  {
    && (h.closed ==> h'.closed)
    && (h'.scaler == h.scaler || OnScaler(p))
    && (h'.wg == h.wg || OnWait(p) || OnScaler(p))
    && (h'.workers <= h.workers || p.Scale?)
    && (p'.Scale? <==> p.Scale?)
    && (|| h'.once == h.once
        || (h.once.Fresh? && h'.once == Running(t) && p'.Close? && p'.x.InOnce())
        || (p.Close? && p.x.InOnce() && h'.once.Finished?))
    && (p.Close? && p.x.InOnce() ==> p'.Close? && (p'.x.InOnce() || h'.once.Finished?))
  }

  lemma OtherPhase(c: Config, t: nat, h: Shared, p: Pc, h': Shared, p': Pc, u: nat, q: Pc)
    requires Footprint(t, h, p, h', p') && PhaseOk(c, t, h, p) && u != t
    requires (OnScaler(p) ==> h.scaler > 0) && (OnWait(p) ==> h.wg > 0)
    requires q.Close? ==> CloserOk(h, u, q.x)
    requires q.Scale? ==> GrowerOk(c, h, q.a) && !p.Scale?
    ensures q.Close? ==> CloserOk(h', u, q.x)
    ensures q.Scale? ==> GrowerOk(c, h', q.a)
  {
  }

  lemma PhasesKept(c: Config, s: State, s': State, t: nat, b: Branch)
    requires Counters(s) && Phases(c, s) && t in s.threads && Next(c, s, s', t, b)
    ensures Phases(c, s')
  {
    var p, p' := s.threads[t], s'.threads[t];
    AtFew(s.threads, OnScaler);
    AtFew(s.threads, OnWait);
    OwnPhase(c, t, b, s.sh, p, s'.sh, p');
    forall u | u in s'.threads
      ensures s'.threads[u].Close? ==> CloserOk(s'.sh, u, s'.threads[u].x)
      ensures s'.threads[u].Scale? ==> u == SCALER && GrowerOk(c, s'.sh, s'.threads[u].a)
    {
      if u != t {
        OtherPhase(c, t, s.sh, p, s'.sh, p', u, s.threads[u]);
      }
    }
  }

  /** A sealed pool accepts nothing more and forgets no run. */
  lemma SealKept(c: Config, s: State, s': State, t: nat, b: Branch)
    requires Sealed(s) && t in s.threads && Next(c, s, s', t, b)
    requires Flows(c, s.sh, s'.sh, s.threads[t], s'.threads[t]) && InOrder(c, s.sh)
    ensures Sealed(s')
  {
    ClosedStays(c, t, b, s.sh, s.threads[t], s'.sh, s'.threads[t]);
    forall i: nat | i < |s'.sh.accepted| ensures Ran(s'.sh, i) {
      StillAccounted(c, s, s', t, i);
    }
  }

  lemma ClosedStays(c: Config, t: nat, b: Branch, h: Shared, p: Pc, h': Shared, p': Pc)
    requires Acts(c, t, b, h, p, h', p') && h.closed
    ensures h'.closed
    ensures p'.Sub? && p'.s.SubSelect? ==> p == p'
  {
  }

  lemma DrainMove(c: Config, t: nat, b: Branch, h: Shared, p: Pc, h': Shared, p': Pc)
    requires Acts(c, t, b, h, p, h', p') && p'.Close? && p'.x.AfterDrain()
    ensures p.Close? && (p.x.AfterDrain() || (p.x.CloseDrain? && h.queue == []))
  {
  }

  lemma SealsKept(c: Config, s: State, s': State, t: nat, b: Branch)
    requires Inv(c, s) && t in s.threads && Next(c, s, s', t, b)
    requires Flows(c, s.sh, s'.sh, s.threads[t], s'.threads[t])
    ensures Sealing(s')
  {
    forall u | u in s'.threads && s'.threads[u].Close? && s'.threads[u].x.AfterDrain()
      ensures Sealed(s')
    {
      WasSealed(c, s, s', t, b, u);
      SealKept(c, s, s', t, b);
    }
  }

  lemma WasSealed(c: Config, s: State, s': State, t: nat, b: Branch, u: nat)
    requires Counters(s) && Conserved(c, s) && Phases(c, s) && Sealing(s) && t in s.threads && Next(c, s, s', t, b)
    requires u in s'.threads && s'.threads[u].Close? && s'.threads[u].x.AfterDrain()
    ensures Sealed(s)
  {
    if u == t {
      DrainStep(c, s, s', t, b);
    }
  }

  lemma DrainStep(c: Config, s: State, s': State, t: nat, b: Branch)
    requires Counters(s) && Conserved(c, s) && Phases(c, s) && Sealing(s) && t in s.threads && Next(c, s, s', t, b)
    requires s'.threads[t].Close? && s'.threads[t].x.AfterDrain()
    ensures Sealed(s)
  {
    DrainMove(c, t, b, s.sh, s.threads[t], s'.sh, s'.threads[t]);
    if s.threads[t] == Close(CloseDrain) {
      DrainSeals(c, s, t);
    }
  }

  lemma InvActs(c: Config, s: State, s': State, t: nat, b: Branch)
    requires Inv(c, s) && t in s.threads && Next(c, s, s', t, b)
    ensures Inv(c, s')
  {
    if HoldsWrite(s.threads[t]) { WriterPoint(s, t); }
    StepEffect(c, t, b, s.sh, s.threads[t], s'.sh, s'.threads[t]);
    CountersKept(s, s', t);
    ConservedKept(c, s, s', t);
    ReceiptsKept(s, s', t);
    PhasesKept(c, s, s', t, b);
    SealsKept(c, s, s', t, b);
  }

  /** A thread that enters without a job, and a grower that returns to its loop, leave
      the jobs and the seal as they are. */
  ghost predicate Quiet(s: State, s': State, t: nat)
  {
    && s'.sh == s.sh
    && s'.threads.Keys == s.threads.Keys + {t} && t !in s.threads
    && !s'.threads[t].HasJob() && !s'.threads[t].HasReceipt() && !(s'.threads[t].Sub? && s'.threads[t].s.SubSelect?)
    && !s'.threads[t].Scale? && (s'.threads[t].Close? ==> s'.threads[t].x.CloseStart?)
    && (forall u :: u in s.threads ==>
          s'.threads[u] == s.threads[u] || (u == SCALER && s.threads[u].Scale? && s'.threads[u] == Scale(ScaleWait)))
  }

  lemma EntersQuietly(c: Config, s: State, s': State, t: nat, b: Branch)
    requires t !in s.threads && Next(c, s, s', t, b)
    ensures Quiet(s, s', t)
  {
  }

  lemma QuietConserved(c: Config, s: State, s': State, t: nat)
    requires Quiet(s, s', t) && Conserved(c, s)
    ensures Conserved(c, s')
  {
    forall i: nat | i < s'.sh.received ensures Held(s', i) || Ran(s'.sh, i) {
      if Held(s, i) {
        var u :| u in s.threads && s.threads[u].HasJob() && s.threads[u].Ticket().0 == i;
        assert s'.threads[u] == s.threads[u];
      }
    }
  }

  lemma QuietReceipts(s: State, s': State, t: nat)
    requires Quiet(s, s', t) && Receipts(s)
    ensures Receipts(s')
  {
    forall i: nat | i < |s'.sh.accepted| ensures Told(s', i) {
      assert Told(s, i);
      var u :| u in s.threads && s.threads[u].HasReceipt() && s.threads[u].Receipt().0 == i;
      assert s'.threads[u] == s.threads[u];
    }
  }

  lemma QuietPhases(c: Config, s: State, s': State, t: nat)
    requires Quiet(s, s', t) && Phases(c, s)
    ensures Phases(c, s')
  {
  }

  lemma QuietSeals(s: State, s': State, t: nat)
    requires Quiet(s, s', t)
    requires forall u :: u in s.threads && s.threads[u].Close? && s.threads[u].x.AfterDrain() ==> Sealed(s)
    ensures forall u :: u in s'.threads && s'.threads[u].Close? && s'.threads[u].x.AfterDrain() ==> Sealed(s')
  {
  }

  lemma InvEnters(c: Config, s: State, s': State, t: nat, b: Branch)
    requires Inv(c, s) && t !in s.threads && Next(c, s, s', t, b)
    ensures Inv(c, s')
  {
    EntersQuietly(c, s, s', t, b);
    if b.Go? {
      CountersLaunch(s, t);
    } else {
      CountersEnter(s, t, s'.threads[t]);
    }
    QuietConserved(c, s, s', t);
    QuietReceipts(s, s', t);
    QuietPhases(c, s, s', t);
    QuietSeals(s, s', t);
  }

  lemma InvStarts(c: Config)
    requires c.Valid()
    ensures Inv(c, Init(c))
  {
    StartedCounts(c.minWorkers);
    StartedThreads(c.minWorkers);
    StartsQuiet(c, Init(c));
  }

  /** Without jobs, producers and closers all but the counters hold. */
  lemma StartsQuiet(c: Config, s: State)
    requires s.sh.accepted == [] && s.sh.queue == [] && s.sh.ran == [] && s.sh.received == 0
    requires !s.sh.done && s.sh.once.Fresh? && s.sh.workers <= c.maxWorkers
    requires forall t :: t in s.threads ==>
      (t == SCALER && s.threads[t] == Scale(ScaleWait)) || (s.threads[t].Work? && s.threads[t].w.WorkSelect?)
    ensures Conserved(c, s) && Receipts(s) && Phases(c, s) && Sealing(s)
  {
  }

  lemma {:induction false} StartedThreads(n: nat)
    ensures forall t :: t in Started(n) ==> t <= n
    ensures forall t :: t in Started(n) ==>
              if t == SCALER then Started(n)[t] == Scale(ScaleWait) else Started(n)[t] == Work(WorkSelect(t - 1))
  {
    if n > 0 {
      StartedThreads(n - 1);
    }
  }

  ghost predicate Counts(m: map<nat, Pc>, readers: int, writers: int, wg: int, workers: int, scalers: int)
  {
    && |At(m, HoldsRead)| == readers && |At(m, HoldsWrite)| == writers && |At(m, OnWait)| == wg
    && |At(m, Counted)| == workers && |At(m, OnScaler)| == scalers
  }

  lemma {:induction false} StartedCounts(n: nat)
    ensures Counts(Started(n), 0, 0, n, n, 1)
  {
    if n == 0 {
      ScalerCounts();
    } else {
      StartedCounts(n - 1);
      StartedThreads(n - 1);
      WorkerCounts(Started(n - 1), n, n - 1);
    }
  }

  lemma ScalerCounts()
    ensures Counts(Started(0), 0, 0, 0, 0, 1)
  {
    NoCounts();
    assert Started(0) == (map[])[SCALER := Scale(ScaleWait)];
    MoveCounts(map[], SCALER, Scale(ScaleWait));
  }

  lemma WorkerCounts(m: map<nat, Pc>, t: nat, n: nat)
    requires Counts(m, 0, 0, n, n, 1) && t !in m
    ensures Counts(m[t := Work(WorkSelect(n))], 0, 0, n + 1, n + 1, 1)
  {
    MoveCounts(m, t, Work(WorkSelect(n)));
  }

  lemma NoCounts()
    ensures Counts(map[], 0, 0, 0, 0, 0)
  {
    assert At<Pc>(map[], HoldsRead) == {} == At<Pc>(map[], HoldsWrite);
    assert At<Pc>(map[], OnWait) == {} == At<Pc>(map[], Counted);
    assert At<Pc>(map[], OnScaler) == {};
  }

  // ----- Main results -----

  /** Every state of every run satisfies the invariant. */
  lemma {:induction false} RunsKeepInv(c: Config, run: seq<State>, k: nat)
    requires c.Valid() && IsRun(c, run) && k < |run|
    ensures Inv(c, run[k])
  {
    if k == 0 {
      InvStarts(c);
    } else {
      RunsKeepInv(c, run, k - 1);
      assert StepAt(c, run, k);
      var t, b :| Next(c, run[k - 1], run[k], t, b);
      if t in run[k - 1].threads {
        InvActs(c, run[k - 1], run[k], t, b);
      } else {
        InvEnters(c, run[k - 1], run[k], t, b);
      }
    }
  }

  /** At every moment of every run each call of the work function was given an accepted
      job, and no accepted job was given to it twice. */
  lemma NeverTwice(c: Config, run: seq<State>, k: nat)
    requires c.Valid() && IsRun(c, run) && k < |run|
    ensures forall m :: 0 <= m < |run[k].sh.ran| ==>
              run[k].sh.ran[m].0 < |run[k].sh.accepted| && run[k].sh.accepted[run[k].sh.ran[m].0] == run[k].sh.ran[m].1
    ensures forall m, n :: 0 <= m < n < |run[k].sh.ran| ==> run[k].sh.ran[m].0 != run[k].sh.ran[n].0
    ensures 0 <= run[k].sh.workers <= c.maxWorkers
  {
    RunsKeepInv(c, run, k);
    assert forall m :: 0 <= m < |run[k].sh.ran| ==> Genuine(run[k].sh, run[k].sh.ran[m]);
  }

  /** Once any Close has returned, at that moment and ever after, the jobs the work
      function was called with are the accepted jobs, each as often as it was accepted,
      and no further job is accepted. */
  lemma {:induction false} CloseDelivers(c: Config, run: seq<State>, k: nat, m: nat, t: nat)
    requires c.Valid() && IsRun(c, run) && k <= m < |run|
    requires Returned(run[k], t)
    ensures run[m].sh.accepted == run[k].sh.accepted
    ensures multiset(Jobs(run[m].sh.ran)) == multiset(run[m].sh.accepted)
    ensures |run[m].sh.ran| == |run[m].sh.accepted|
    ensures forall i: nat :: i < |run[m].sh.accepted| ==> Ran(run[m].sh, i)
    ensures forall u :: u in run[m].threads && run[m].threads[u].HasReceipt() ==>
              run[m].threads[u].Receipt() in run[m].sh.ran
    decreases m - k
  {
    AcceptedFixed(c, run, k, m, t);
    RunsKeepInv(c, run, m);
    SealedRuns(c, run[m], t);
  }

  lemma SealedRuns(c: Config, s: State, t: nat)
    requires Inv(c, s) && Returned(s, t)
    ensures multiset(Jobs(s.sh.ran)) == multiset(s.sh.accepted) && |s.sh.ran| == |s.sh.accepted|
    ensures forall i: nat :: i < |s.sh.accepted| ==> Ran(s.sh, i)
    ensures forall u :: u in s.threads && s.threads[u].HasReceipt() ==> s.threads[u].Receipt() in s.sh.ran
  {
    assert Sealed(s);
    forall u | u in s.threads && s.threads[u].HasReceipt() ensures s.threads[u].Receipt() in s.sh.ran {
      var r := s.threads[u].Receipt();
      assert Fits(s.sh.accepted, r) && Ran(s.sh, r.0);
      var k :| 0 <= k < |s.sh.ran| && s.sh.ran[k].0 == r.0;
      assert Genuine(s.sh, s.sh.ran[k]);
      assert s.sh.ran[k] == r;
    }
    forall k | 0 <= k < |s.sh.ran| ensures Fits(s.sh.accepted, s.sh.ran[k]) {
      assert Genuine(s.sh, s.sh.ran[k]);
    }
    forall i: nat | i < |s.sh.accepted| ensures HasTicket(s.sh.ran, i) {
      assert Ran(s.sh, i);
    }
    TicketsPermute(s.sh.ran, s.sh.accepted);
  }

  ghost predicate Returned(s: State, t: nat)
  {
    t in s.threads && s.threads[t] == Close(CloseReturned)
  }

  lemma {:induction false} AcceptedFixed(c: Config, run: seq<State>, k: nat, m: nat, t: nat)
    requires c.Valid() && IsRun(c, run) && k <= m < |run| && Returned(run[k], t)
    ensures Returned(run[m], t) && run[m].sh.accepted == run[k].sh.accepted
    decreases m - k
  {
    if k < m {
      AcceptedFixed(c, run, k, m - 1, t);
      ReturnSeals(c, run, m - 1, t);
      assert StepAt(c, run, m);
      SealedStep(c, run[m - 1], run[m], t);
    }
  }

  lemma ReturnSeals(c: Config, run: seq<State>, k: nat, t: nat)
    requires c.Valid() && IsRun(c, run) && k < |run| && Returned(run[k], t)
    ensures Sealed(run[k])
  {
    RunsKeepInv(c, run, k);
  }

  lemma SealedStep(c: Config, s: State, s': State, t: nat)
    requires Sealed(s) && Steps(c, s, s') && Returned(s, t)
    ensures s'.sh.accepted == s.sh.accepted && Returned(s', t)
  {
    var u, b :| Next(c, s, s', u, b);
    if u in s.threads {
      ActAccepts(c, u, b, s.sh, s.threads[u], s'.sh, s'.threads[u]);
    }
  }

  /** Only a producer in its select adds a job, and a closer that returned stays there. */
  lemma ActAccepts(c: Config, t: nat, b: Branch, h: Shared, p: Pc, h': Shared, p': Pc)
    requires Acts(c, t, b, h, p, h', p')
    ensures p != Close(CloseReturned) && (h'.accepted == h.accepted || (p.Sub? && p.s.SubSelect?))
  {
  }

  function Jobs(ran: seq<(nat, Job)>): (r: seq<Job>)
    ensures |r| == |ran| && forall i :: 0 <= i < |ran| ==> r[i] == ran[i].1
  {
    seq(|ran|, i requires 0 <= i < |ran| => ran[i].1)
  }

  /** Tickets without repetition that cover all positions are the accepted jobs, reordered. */
  lemma {:induction false} TicketsPermute(ran: seq<(nat, Job)>, accepted: seq<Job>)
    requires forall i :: 0 <= i < |ran| ==> Fits(accepted, ran[i])
    requires forall i, j :: 0 <= i < j < |ran| ==> ran[i].0 != ran[j].0
    requires forall n: nat :: n < |accepted| ==> HasTicket(ran, n)
    ensures multiset(Jobs(ran)) == multiset(accepted) && |ran| == |accepted|
    decreases |accepted|
  {
    if accepted == [] {
      assert |ran| == 0;
    } else {
      var n := |accepted| - 1;
      assert HasTicket(ran, n);
      var k :| 0 <= k < |ran| && ran[k].0 == n;
      var less := ran[..k] + ran[k + 1..];
      WithoutTicket(ran, accepted, k);
      TicketsPermute(less, accepted[..n]);
      assert Fits(accepted, ran[k]);
      TicketBack(ran, accepted, k);
    }
  }

  lemma TicketBack(ran: seq<(nat, Job)>, accepted: seq<Job>, k: nat)
    requires k < |ran| && accepted != [] && ran[k].1 == accepted[|accepted| - 1]
    requires multiset(Jobs(ran[..k] + ran[k + 1..])) == multiset(accepted[..|accepted| - 1])
    ensures multiset(Jobs(ran)) == multiset(accepted)
  {
    JobsWithout(ran, k);
    LastOut(accepted);
  }

  lemma JobsWithout(ran: seq<(nat, Job)>, k: nat)
    requires k < |ran|
    ensures multiset(Jobs(ran)) == multiset(Jobs(ran[..k] + ran[k + 1..])) + multiset{ran[k].1}
  {
    var less := Jobs(ran[..k] + ran[k + 1..]);
    assert Jobs(ran) == less[..k] + [ran[k].1] + less[k..];
    PutIn(less, k, ran[k].1);
  }

  lemma PutIn(jobs: seq<Job>, k: nat, x: Job)
    requires k <= |jobs|
    ensures multiset(jobs[..k] + [x] + jobs[k..]) == multiset(jobs) + multiset{x}
  {
    assert jobs == jobs[..k] + jobs[k..];
  }

  lemma LastOut(jobs: seq<Job>)
    requires jobs != []
    ensures multiset(jobs) == multiset(jobs[..|jobs| - 1]) + multiset{jobs[|jobs| - 1]}
  {
    assert jobs == jobs[..|jobs| - 1] + [jobs[|jobs| - 1]];
  }

  lemma WithoutTicket(ran: seq<(nat, Job)>, accepted: seq<Job>, k: nat)
    requires forall i :: 0 <= i < |ran| ==> Fits(accepted, ran[i])
    requires forall i, j :: 0 <= i < j < |ran| ==> ran[i].0 != ran[j].0
    requires forall n: nat :: n < |accepted| ==> HasTicket(ran, n)
    requires k < |ran| && ran[k].0 == |accepted| - 1
    ensures var less, rest := ran[..k] + ran[k + 1..], accepted[..|accepted| - 1];
      && (forall i :: 0 <= i < |less| ==> Fits(rest, less[i]))
      && (forall i, j :: 0 <= i < j < |less| ==> less[i].0 != less[j].0)
      && (forall n: nat :: n < |rest| ==> HasTicket(less, n))
  {
    var less, rest := ran[..k] + ran[k + 1..], accepted[..|accepted| - 1];
    forall i | 0 <= i < |less| ensures Fits(rest, less[i]) {
      var j := if i < k then i else i + 1;
      assert less[i] == ran[j] && Fits(accepted, ran[j]) && ran[j].0 != ran[k].0;
    }
    forall n: nat | n < |rest| ensures HasTicket(less, n) {
      assert HasTicket(ran, n);
      var i :| 0 <= i < |ran| && ran[i].0 == n;
      assert less[if i < k then i else i - 1] == ran[i];
    }
  }
}
