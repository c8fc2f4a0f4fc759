/** Close and Flush get done: every pending Close and every pending Flush of every run can be
    brought to its return by the threads that are there, without any new call. */
module BatcherProgress {
  import opened Threads
  import opened Batcher

  // ----- Runs that go on without new calls -----

  predicate IsCall(b: Branch) { b.CallAdd? || b.CallFlush? || b.CallClose? }

  ghost predicate Works(c: Config, s: State, s': State)
  {
    exists t, b :: Next(c, s, s', t, b) && !IsCall(b)
  }

  ghost predicate WorksAt(c: Config, run: seq<State>, j: int)
    requires 0 < j < |run|
  {
    Works(c, run[j - 1], run[j])
  }

  /** A run in which no call starts from place k on. */
  ghost predicate GoesOn(c: Config, run: seq<State>, k: nat)
  {
    0 < k <= |run| && IsRun(c, run) && forall j :: k <= j < |run| ==> WorksAt(c, run, j)
  }

  function Last(run: seq<State>): State
    requires run != []
  {
    run[|run| - 1]
  }

  ghost predicate Extends(run: seq<State>, more: seq<State>)
  {
    |run| <= |more| && more[..|run|] == run
  }

  lemma ExtendsOn(run: seq<State>, mid: seq<State>, more: seq<State>)
    requires Extends(run, mid) && Extends(mid, more)
    ensures Extends(run, more)
  {
    assert more[..|run|] == more[..|mid|][..|run|];
  }

  lemma OneMore(c: Config, run: seq<State>, k: nat, s': State, t: nat, b: Branch) returns (more: seq<State>)
    requires GoesOn(c, run, k) && Next(c, Last(run), s', t, b) && !IsCall(b)
    ensures GoesOn(c, more, k) && Last(more) == s' && Extends(run, more)
  {
    more := run + [s'];
    assert more[..|run|] == run;
    forall j | 0 < j < |more|
      ensures StepAt(c, more, j) && (k <= j ==> WorksAt(c, more, j))
    {
      if j < |run| {
        assert more[j - 1] == run[j - 1] && more[j] == run[j];
        assert StepAt(c, run, j) && (k <= j ==> WorksAt(c, run, j));
      } else {
        assert Works(c, more[j - 1], more[j]) && Steps(c, more[j - 1], more[j]);
      }
    }
  }

  /** Thread u acts. */
  lemma Acted(c: Config, run: seq<State>, k: nat, u: nat, b: Branch, h': Shared, p': Pc) returns (more: seq<State>)
    requires GoesOn(c, run, k) && u in Last(run).threads && !IsCall(b)
    requires Acts(c, u, b, Last(run).col.ColGone?, Last(run).sh, Last(run).threads[u], h', p')
    ensures GoesOn(c, more, k) && Extends(run, more)
    ensures Last(more) == State(Last(run).threads[u := p'], Last(run).col, h')
  {
    var s' := State(Last(run).threads[u := p'], Last(run).col, h');
    assert ThreadNext(c, Last(run), s', u, b);
    more := OneMore(c, run, k, s', u, b);
  }

  /** The collector acts. */
  lemma Collected(c: Config, run: seq<State>, k: nat, b: Branch) returns (more: seq<State>)
    requires GoesOn(c, run, k) && !IsCall(b) && ColReady(Last(run).sh, Last(run).col, b)
    ensures GoesOn(c, more, k) && Extends(run, more)
    ensures var r := ColStep(c, Last(run).sh, Last(run).col, b); Last(more) == State(Last(run).threads, r.1, r.0)
  {
    var r := ColStep(c, Last(run).sh, Last(run).col, b);
    var s' := State(Last(run).threads, r.1, r.0);
    assert ColNext(c, Last(run), s', b);
    more := OneMore(c, run, k, s', 0, b);
  }

  // ----- The collector -----

  function Rank(p: ColPc): nat
  {
    match p
    case ColGone => 0
    case ColStop => 1
    case ColLast => 2
    case ColDrain => 3
    case ColSelect => 5
    case ColTick => 6
    case ColAckClose(_) => 6
    case ColAckFlush(_) => 7
    case ColAckDrain(_) => 8
    case ColFull(next) => if next.Draining? then 4 else if next.Main? then 6 else 9
  }

  function ColLeft(h: Shared, p: ColPc): nat { 10 * |h.input| + Rank(p) }

  /** What the collector does next on its way to the select, or to its end once done is set. */
  function ColBranch(h: Shared, p: ColPc): Branch
  {
    match p
    case ColSelect => Done
    case ColAckDrain(_) => if h.input == [] then Default else Receive
    case ColDrain => if h.input == [] then Default else Receive
    case _ => Go
  }

  lemma ColDown(c: Config, h: Shared, p: ColPc)
    requires !p.ColGone? && (p.ColSelect? ==> h.done)
    ensures ColReady(h, p, ColBranch(h, p))
    ensures var r := ColStep(c, h, p, ColBranch(h, p));
      && ColLeft(r.0, r.1) < ColLeft(h, p)
      && r.0.done == h.done && r.0.readers == h.readers && r.0.writer == h.writer && r.0.requests == h.requests
  {
  }

  lemma {:induction false} CollectorGoes(c: Config, run: seq<State>, k: nat) returns (more: seq<State>)
    requires GoesOn(c, run, k) && Last(run).sh.done
    ensures GoesOn(c, more, k) && Extends(run, more)
    ensures Last(more).col.ColGone? && Last(more).threads == Last(run).threads && Last(more).sh.done
    decreases ColLeft(Last(run).sh, Last(run).col)
  {
    more := run;
    if !Last(run).col.ColGone? {
      ColDown(c, Last(run).sh, Last(run).col);
      var mid := Collected(c, run, k, ColBranch(Last(run).sh, Last(run).col));
      more := CollectorGoes(c, mid, k);
      ExtendsOn(run, mid, more);
    }
  }

  // ----- Callers of Add after done -----

  function AddLeft(p: AddPc): nat
  {
    match p
    case AddStart(_) => 4
    case AddLock(_) => 3
    case AddSelect(_) => 2
    case AddLeave(_, _, _) => 1
    case AddDone(_, _, _) => 0
  }

  ghost predicate ClosersStay(s: State, s': State)
  {
    forall t :: t in s.threads && s.threads[t].Close? ==> t in s'.threads && s'.threads[t] == s.threads[t]
  }

  lemma AddTurn(c: Config, run: seq<State>, k: nat, u: nat) returns (more: seq<State>, p': AddPc)
    requires GoesOn(c, run, k) && Last(run).sh.done && u in Last(run).threads && HoldsRead(Last(run).threads[u])
    ensures GoesOn(c, more, k) && Extends(run, more)
    ensures var (s, s') := (Last(run), Last(more));
      && s'.threads == s.threads[u := Add(p')] && s'.col == s.col && AddLeft(p') < AddLeft(s.threads[u].a)
      && s'.sh.done && s'.sh.writer == s.sh.writer && (p'.AddLeave? || p'.AddDone?)
      && s'.sh.readers == s.sh.readers - (if p'.AddDone? then 1 else 0)
  {
    var h, p := Last(run).sh, Last(run).threads[u].a;
    var b := if p.AddSelect? then Done else Go;
    var r := AddStep(c, h, p, b);
    p' := r.1;
    more := Acted(c, run, k, u, b, r.0, Add(p'));
  }

  lemma {:induction false} ReaderGoes(c: Config, run: seq<State>, k: nat, u: nat) returns (more: seq<State>)
    requires GoesOn(c, run, k) && Last(run).sh.done && u in Last(run).threads && HoldsRead(Last(run).threads[u])
    ensures GoesOn(c, more, k) && Extends(run, more) && ClosersStay(Last(run), Last(more))
    ensures var (s, s') := (Last(run), Last(more));
      s'.col == s.col && s'.sh.done && s'.sh.writer == s.sh.writer && s'.sh.readers == s.sh.readers - 1
    decreases AddLeft(Last(run).threads[u].a)
  {
    var p';
    more, p' := AddTurn(c, run, k, u);
    if !p'.AddDone? {
      var mid := more;
      more := ReaderGoes(c, mid, k, u);
      ExtendsOn(run, mid, more);
    }
  }

  lemma Reader(c: Config, run: seq<State>) returns (u: nat)
    requires c.Valid() && IsRun(c, run) && Last(run).sh.readers != 0
    ensures u in Last(run).threads && HoldsRead(Last(run).threads[u]) && Last(run).sh.readers > 0
  {
    RunsKeepInv(c, run, |run| - 1);
    u := AtWitness(Last(run).threads, HoldsRead);
  }

  lemma {:induction false} ReadersGo(c: Config, run: seq<State>, k: nat) returns (more: seq<State>)
    requires c.Valid() && GoesOn(c, run, k) && Last(run).sh.done
    ensures GoesOn(c, more, k) && Extends(run, more) && ClosersStay(Last(run), Last(more))
    ensures var (s, s') := (Last(run), Last(more));
      s'.col == s.col && s'.sh.done && s'.sh.writer == s.sh.writer && s'.sh.readers == 0
    decreases if Last(run).sh.readers > 0 then Last(run).sh.readers else 0
  {
    more := run;
    if Last(run).sh.readers != 0 {
      var u := Reader(c, run);
      var mid := ReaderGoes(c, run, k, u);
      more := ReadersGo(c, mid, k);
      ExtendsOn(run, mid, more);
    }
  }

  // ----- Closers -----

  function CloseLeft(h: Shared, x: ClosePc): nat
  {
    match x
    case CloseUnlock(_) => 1
    case CloseLast(_) => 2
    case CloseDrain(_) => 3 + 3 * |h.input|
    case CloseFull(_) => 4 + 3 * |h.input|
    case _ => 0
  }

  ghost predicate Beside(s: State, s': State, u: nat)
  {
    forall t :: t in s.threads && t != u ==> t in s'.threads && s'.threads[t] == s.threads[t]
  }

  lemma DrainTurn(c: Config, run: seq<State>, k: nat, u: nat) returns (more: seq<State>, x': ClosePc)
    requires GoesOn(c, run, k) && u in Last(run).threads && HoldsWrite(Last(run).threads[u])
    ensures GoesOn(c, more, k) && Extends(run, more)
    ensures var (s, s') := (Last(run), Last(more));
      && s'.threads == s.threads[u := Close(x')] && s'.col == s.col && s'.sh.done == s.sh.done
      && CloseLeft(s'.sh, x') < CloseLeft(s.sh, s.threads[u].x) && s'.sh.readers == s.sh.readers
      && (x'.HoldsWrite() || (x'.CloseReturned? && !s'.sh.writer))
  {
    var h, x := Last(run).sh, Last(run).threads[u].x;
    var b := if x.CloseDrain? then (if h.input == [] then Default else Receive) else Go;
    var r := CloseStep(c, h, Last(run).col.ColGone?, x, b);
    x' := r.1;
    more := Acted(c, run, k, u, b, r.0, Close(x'));
  }

  ghost predicate HasReturned(s: State, t: nat)
  {
    t in s.threads && s.threads[t].Close? && s.threads[t].x.CloseReturned?
  }

  lemma {:induction false} WriterGoes(c: Config, run: seq<State>, k: nat, u: nat) returns (more: seq<State>)
    requires GoesOn(c, run, k) && u in Last(run).threads && HoldsWrite(Last(run).threads[u])
    ensures GoesOn(c, more, k) && Extends(run, more) && Beside(Last(run), Last(more), u) && HasReturned(Last(more), u)
    ensures var (s, s') := (Last(run), Last(more));
      s'.col == s.col && s'.sh.done == s.sh.done && s'.sh.readers == s.sh.readers && !s'.sh.writer
    decreases CloseLeft(Last(run).sh, Last(run).threads[u].x)
  {
    var x';
    more, x' := DrainTurn(c, run, k, u);
    if !x'.CloseReturned? {
      var mid := more;
      more := WriterGoes(c, mid, k, u);
      ExtendsOn(run, mid, more);
    }
  }

  lemma Writer(c: Config, run: seq<State>) returns (u: nat)
    requires c.Valid() && IsRun(c, run) && Last(run).sh.writer
    ensures u in Last(run).threads && HoldsWrite(Last(run).threads[u])
  {
    RunsKeepInv(c, run, |run| - 1);
    u := AtWitness(Last(run).threads, HoldsWrite);
  }

  ghost predicate Stands(s: State, t: nat, x: ClosePc) { t in s.threads && s.threads[t] == Close(x) }

  lemma CloserTurn(c: Config, run: seq<State>, k: nat, t: nat, x: ClosePc) returns (more: seq<State>)
    requires GoesOn(c, run, k) && Stands(Last(run), t, x) && CloseReady(Last(run).sh, Last(run).col.ColGone?, x, Go)
    ensures GoesOn(c, more, k) && Extends(run, more)
    ensures var r := CloseStep(c, Last(run).sh, Last(run).col.ColGone?, x, Go);
      Last(more) == State(Last(run).threads[t := Close(r.1)], Last(run).col, r.0)
  {
    var r := CloseStep(c, Last(run).sh, Last(run).col.ColGone?, x, Go);
    more := Acted(c, run, k, t, Go, r.0, Close(r.1));
  }

  lemma Known(c: Config, run: seq<State>, t: nat, x: ClosePc)
    requires c.Valid() && IsRun(c, run) && Stands(Last(run), t, x) && !x.CloseStart?
    ensures Last(run).sh.done
  {
    RunsKeepInv(c, run, |run| - 1);
    assert ThreadOk(c, t, Last(run).sh, Last(run).col.ColGone?, Last(run).threads[t]);
  }

  lemma FromWait(c: Config, run: seq<State>, k: nat, t: nat) returns (more: seq<State>)
    requires c.Valid() && GoesOn(c, run, k) && Stands(Last(run), t, CloseWait)
    ensures GoesOn(c, more, k) && Extends(run, more) && Stands(Last(more), t, CloseLock)
  {
    Known(c, run, t, CloseWait);
    var mid := CollectorGoes(c, run, k);
    more := CloserTurn(c, mid, k, t, CloseWait);
    ExtendsOn(run, mid, more);
  }

  lemma FromLock(c: Config, run: seq<State>, k: nat, t: nat) returns (more: seq<State>)
    requires c.Valid() && GoesOn(c, run, k) && Stands(Last(run), t, CloseLock)
    ensures GoesOn(c, more, k) && Extends(run, more) && HasReturned(Last(more), t)
  {
    Known(c, run, t, CloseLock);
    var a := run;
    if Last(run).sh.writer {
      var u := Writer(c, run);
      a := WriterGoes(c, run, k, u);
    }
    var b := ReadersGo(c, a, k);
    ExtendsOn(run, a, b);
    var d := CloserTurn(c, b, k, t, CloseLock);
    ExtendsOn(run, b, d);
    more := WriterGoes(c, d, k, t);
    ExtendsOn(run, d, more);
  }

  /** Every pending Close of every run can return: the run goes on, without any new call, to a
      state in which that Close has returned. */
  lemma CloseReturns(c: Config, run: seq<State>, t: nat) returns (more: seq<State>)
    requires c.Valid() && IsRun(c, run) && t in Last(run).threads && Last(run).threads[t].Close?
    ensures GoesOn(c, more, |run|) && Extends(run, more) && HasReturned(Last(more), t)
  {
    var k, x := |run|, Last(run).threads[t].x;
    assert run[..|run|] == run;
    more := run;
    if x.HoldsWrite() {
      more := WriterGoes(c, run, k, t);
    } else if !x.CloseReturned? {
      var a := run;
      if x.CloseStart? {
        a := CloserTurn(c, run, k, t, CloseStart);
      }
      var b := a;
      if !x.CloseLock? {
        b := FromWait(c, a, k, t);
      }
      ExtendsOn(run, a, b);
      more := FromLock(c, b, k, t);
      ExtendsOn(run, b, more);
    }
  }

  // ----- Flush -----

  /** The collector is at the request of thread t. */
  predicate Serves(col: ColPc, t: nat)
  {
    match col
    case ColAckDrain(a) => a == t
    case ColAckFlush(a) => a == t
    case ColAckClose(a) => a == t
    case ColFull(next) => next == Acking(t)
    case _ => false
  }

  ghost predicate Waits(p: Pc) { p.Flush? && p.f.FlushWait? }

  /** The request of a Flush that waits is in the channel, with the collector or answered. */
  ghost predicate Asked(s: State, t: nat)
  {
    t in s.sh.acks || t in s.sh.requests || Serves(s.col, t)
  }

  ghost predicate Heard(s: State)
  {
    && |s.sh.requests| <= 1
    && forall t :: t in s.threads && Waits(s.threads[t]) ==> Asked(s, t)
  }

  lemma ColAsked(c: Config, h: Shared, p: ColPc, b: Branch, m: map<nat, Pc>, t: nat)
    requires ColReady(h, p, b) && |h.requests| <= 1 && Asked(State(m, p, h), t)
    ensures var r := ColStep(c, h, p, b); |r.0.requests| <= 1 && Asked(State(m, r.1, r.0), t)
  {
  }

  lemma ColHears(c: Config, s: State, s': State, b: Branch)
    requires Heard(s) && ColNext(c, s, s', b)
    ensures Heard(s')
  {
    forall t | t in s'.threads && Waits(s'.threads[t])
      ensures Asked(s', t)
    {
      ColAsked(c, s.sh, s.col, b, s.threads, t);
    }
  }

  /** A thread that acts leaves the acknowledgements, and asks when it begins to wait. */
  ghost predicate Asks(t: nat, h: Shared, h': Shared, p: Pc, p': Pc)
  {
    && h'.acks == h.acks
    && (h'.requests == h.requests || (h.requests == [] && h'.requests == [t]))
    && (Waits(p') ==> Waits(p) || h'.requests == [t])
  }

  lemma ActAsks(c: Config, t: nat, b: Branch, stopped: bool, h: Shared, p: Pc, h': Shared, p': Pc)
    requires Acts(c, t, b, stopped, h, p, h', p')
    ensures Asks(t, h, h', p, p')
  {
    match p
    case Add(q) =>
      assert h' == AddStep(c, h, q, b).0;
    case Flush(q) =>
      assert h' == FlushStep(h, t, q, b).0;
    case Close(q) =>
      assert h' == CloseStep(c, h, stopped, q, b).0;
  }

  lemma AskedOn(s: State, s': State, t: nat, p: Pc, p': Pc, u: nat)
    requires Heard(s) && Asks(t, s.sh, s'.sh, p, p') && s'.col == s.col && t in s.threads && s.threads[t] == p
    requires s'.threads == s.threads[t := p'] && u in s'.threads && Waits(s'.threads[u])
    ensures Asked(s', u)
  {
    if u != t || Waits(p) {
      assert Asked(s, u);
    }
  }

  lemma ThreadHears(c: Config, s: State, s': State, t: nat, b: Branch)
    requires Heard(s) && ThreadNext(c, s, s', t, b)
    ensures Heard(s')
  {
    if t in s.threads {
      var p, p' := s.threads[t], s'.threads[t];
      ActAsks(c, t, b, s.col.ColGone?, s.sh, p, s'.sh, p');
      forall u | u in s'.threads && Waits(s'.threads[u])
        ensures Asked(s', u)
      {
        AskedOn(s, s', t, p, p', u);
      }
    } else {
      forall u | u in s'.threads && Waits(s'.threads[u])
        ensures Asked(s', u)
      {
        assert Asked(s, u);
      }
    }
  }

  lemma MeetHears(c: Config, s: State, s': State, t: nat)
    requires Heard(s) && MeetNext(c, s, s', t)
    ensures Heard(s')
  {
    forall u | u in s'.threads && Waits(s'.threads[u])
      ensures Asked(s', u)
    {
      assert Asked(s, u);
    }
  }

  lemma {:induction false} RunsHear(c: Config, run: seq<State>, k: nat)
    requires IsRun(c, run) && k < |run|
    ensures Heard(run[k])
  {
    if k > 0 {
      RunsHear(c, run, k - 1);
      assert StepAt(c, run, k);
      var t, b :| Next(c, run[k - 1], run[k], t, b);
      if ThreadNext(c, run[k - 1], run[k], t, b) {
        ThreadHears(c, run[k - 1], run[k], t, b);
      } else if ColNext(c, run[k - 1], run[k], b) {
        ColHears(c, run[k - 1], run[k], b);
      } else {
        MeetHears(c, run[k - 1], run[k], t);
      }
    }
  }

  /** Without done the collector gets back to its select. */
  lemma {:induction false} SelectReached(c: Config, run: seq<State>, k: nat) returns (more: seq<State>)
    requires c.Valid() && GoesOn(c, run, k) && !Last(run).sh.done
    ensures GoesOn(c, more, k) && Extends(run, more) && Last(more).col.ColSelect?
    ensures Last(more).threads == Last(run).threads && !Last(more).sh.done
    ensures Last(more).sh.requests == Last(run).sh.requests
    decreases ColLeft(Last(run).sh, Last(run).col)
  {
    more := run;
    if !Last(run).col.ColSelect? {
      RunsKeepInv(c, run, |run| - 1);
      ColDown(c, Last(run).sh, Last(run).col);
      var mid := Collected(c, run, k, ColBranch(Last(run).sh, Last(run).col));
      more := SelectReached(c, mid, k);
      ExtendsOn(run, mid, more);
    }
  }

  /** Without done the collector answers every request that was made. */
  lemma Answered(c: Config, run: seq<State>, k: nat) returns (more: seq<State>)
    requires c.Valid() && GoesOn(c, run, k) && !Last(run).sh.done
    ensures GoesOn(c, more, k) && Extends(run, more)
    ensures Last(more).threads == Last(run).threads && !Last(more).sh.done && Last(more).sh.requests == []
    ensures forall t :: t in Last(more).threads && Waits(Last(more).threads[t]) ==> t in Last(more).sh.acks
  {
    more := SelectReached(c, run, k);
    RunsHear(c, more, |more| - 1);
    if Last(more).sh.requests != [] {
      var a := more;
      var b := Collected(c, a, k, Request);
      ExtendsOn(run, a, b);
      more := SelectReached(c, b, k);
      ExtendsOn(run, b, more);
      RunsHear(c, more, |more| - 1);
    }
    forall t | t in Last(more).threads && Waits(Last(more).threads[t])
      ensures t in Last(more).sh.acks
    {
      assert Asked(Last(more), t);
    }
  }

  ghost predicate Ended(s: State, t: nat)
  {
    t in s.threads && s.threads[t].Flush? && s.threads[t].f.FlushDone?
  }

  lemma FlushTurn(c: Config, run: seq<State>, k: nat, t: nat, q: FlushPc, b: Branch) returns (more: seq<State>)
    requires GoesOn(c, run, k) && t in Last(run).threads && Last(run).threads[t] == Flush(q)
    requires FlushReady(Last(run).sh, t, q, b)
    ensures GoesOn(c, more, k) && Extends(run, more)
    ensures var r := FlushStep(Last(run).sh, t, q, b);
      Last(more) == State(Last(run).threads[t := Flush(r.1)], Last(run).col, r.0)
  {
    var r := FlushStep(Last(run).sh, t, q, b);
    more := Acted(c, run, k, t, b, r.0, Flush(r.1));
  }

  lemma FromRequest(c: Config, run: seq<State>, k: nat, t: nat) returns (more: seq<State>)
    requires c.Valid() && GoesOn(c, run, k) && !Last(run).sh.done
    requires t in Last(run).threads && Waits(Last(run).threads[t])
    ensures GoesOn(c, more, k) && Extends(run, more) && Ended(Last(more), t) && Last(more).threads[t].f.acked
  {
    var q := Last(run).threads[t].f;
    var mid := Answered(c, run, k);
    more := FlushTurn(c, mid, k, t, q, Receive);
    ExtendsOn(run, mid, more);
  }

  lemma FromCall(c: Config, run: seq<State>, k: nat, t: nat) returns (more: seq<State>)
    requires c.Valid() && GoesOn(c, run, k) && !Last(run).sh.done
    requires t in Last(run).threads && Last(run).threads[t].Flush? && Last(run).threads[t].f.FlushStart?
    ensures GoesOn(c, more, k) && Extends(run, more) && Ended(Last(more), t) && Last(more).threads[t].f.acked
  {
    var q := Last(run).threads[t].f;
    var a := Answered(c, run, k);
    var b := FlushTurn(c, a, k, t, q, Send);
    ExtendsOn(run, a, b);
    more := FromRequest(c, b, k, t);
    ExtendsOn(run, b, more);
  }

  /** Every pending Flush of every run can return: the run goes on, without any new call, to a
      state in which that Flush has ended, and before done it ends with its acknowledgement. */
  lemma FlushReturns(c: Config, run: seq<State>, t: nat) returns (more: seq<State>)
    requires c.Valid() && IsRun(c, run)
    requires t in Last(run).threads && Last(run).threads[t].Flush? && !Last(run).threads[t].f.FlushDone?
    ensures GoesOn(c, more, |run|) && Extends(run, more) && Ended(Last(more), t)
    ensures !Last(run).sh.done ==> Last(more).threads[t].f.acked
  {
    var k, q := |run|, Last(run).threads[t].f;
    assert run[..|run|] == run;
    if Last(run).sh.done {
      more := FlushTurn(c, run, k, t, q, Done);
    } else if q.FlushWait? {
      more := FromRequest(c, run, k, t);
    } else {
      more := FromCall(c, run, k, t);
    }
  }

  // ----- Add -----

  ghost predicate Adds(s: State, t: nat, p: AddPc) { t in s.threads && s.threads[t] == Add(p) }

  lemma AddGoes(c: Config, run: seq<State>, k: nat, t: nat, p: AddPc, b: Branch) returns (more: seq<State>)
    requires GoesOn(c, run, k) && Adds(Last(run), t, p) && AddReady(c, Last(run).sh, p, b) && !IsCall(b)
    ensures GoesOn(c, more, k) && Extends(run, more)
    ensures var r := AddStep(c, Last(run).sh, p, b);
      Adds(Last(more), t, r.1) && Last(more).sh == r.0 && Last(more).col == Last(run).col
  {
    var r := AddStep(c, Last(run).sh, p, b);
    more := Acted(c, run, k, t, b, r.0, Add(r.1));
  }

  /** The call of t has ended; with true while done is not set. */
  ghost predicate Told(s: State, t: nat, ok: bool, x: Item)
  {
    t in s.threads && s.threads[t].Add? && var p := s.threads[t].a; p.AddDone? && p.ok == ok && p.item == x
  }

  lemma LeaveEnds(c: Config, run: seq<State>, k: nat, t: nat, p: AddPc) returns (more: seq<State>)
    requires GoesOn(c, run, k) && Adds(Last(run), t, p) && p.AddLeave?
    ensures GoesOn(c, more, k) && Extends(run, more) && Told(Last(more), t, p.ok, p.item)
  {
    more := AddGoes(c, run, k, t, p, Go);
  }

  /** On an unbuffered channel a collector at its select takes the item at once. */
  lemma Met(c: Config, run: seq<State>, k: nat, t: nat, p: AddPc) returns (more: seq<State>, q: AddPc)
    requires GoesOn(c, run, k) && Adds(Last(run), t, p) && p.AddSelect?
    requires c.bufferCap == 0 && Last(run).col.ColSelect?
    ensures GoesOn(c, more, k) && Extends(run, more) && Adds(Last(more), t, q)
    ensures q.AddLeave? && q.ok && q.item == p.item
  {
    var s, x := Last(run), p.item;
    var (h, col) := Collect(c, s.sh.(accepted := s.sh.accepted + [x]), s.col, x);
    q := AddLeave(true, |s.sh.accepted|, x);
    var s' := State(s.threads[t := Add(q)], col, h);
    assert MeetNext(c, s, s', t);
    more := OneMore(c, run, k, s', t, Meet);
  }

  /** On a buffered one it makes room if there is none. */
  lemma Sent(c: Config, run: seq<State>, k: nat, t: nat, p: AddPc) returns (more: seq<State>, q: AddPc)
    requires c.Valid() && GoesOn(c, run, k) && Adds(Last(run), t, p) && p.AddSelect?
    requires c.bufferCap > 0 && Last(run).col.ColSelect?
    ensures GoesOn(c, more, k) && Extends(run, more) && Adds(Last(more), t, q)
    ensures q.AddLeave? && q.ok && q.item == p.item
  {
    var a := run;
    if |Last(run).sh.input| >= c.bufferCap {
      InputFits(c, run);
      a := Collected(c, run, k, Receive);
    }
    assert Extends(run, a) by {
      assert run[..|run|] == run;
    }
    q := AddStep(c, Last(a).sh, p, Send).1;
    more := AddGoes(c, a, k, t, p, Send);
    ExtendsOn(run, a, more);
  }

  lemma InputFits(c: Config, run: seq<State>)
    requires c.Valid() && IsRun(c, run)
    ensures |Last(run).sh.input| <= c.bufferCap
  {
    RunsKeepInv(c, run, |run| - 1);
  }

  lemma SelectEnds(c: Config, run: seq<State>, k: nat, t: nat, p: AddPc) returns (more: seq<State>)
    requires c.Valid() && GoesOn(c, run, k) && Adds(Last(run), t, p) && p.AddSelect?
    ensures GoesOn(c, more, k) && Extends(run, more) && Told(Last(more), t, !Last(run).sh.done, p.item)
  {
    var a, q := run, p;
    if Last(run).sh.done {
      q := AddLeave(false, 0, p.item);
      a := AddGoes(c, run, k, t, p, Done);
    } else {
      var b := SelectReached(c, run, k);
      if c.bufferCap == 0 {
        a, q := Met(c, b, k, t, p);
      } else {
        a, q := Sent(c, b, k, t, p);
      }
      ExtendsOn(run, b, a);
    }
    more := LeaveEnds(c, a, k, t, q);
    ExtendsOn(run, a, more);
  }

  lemma LockEnds(c: Config, run: seq<State>, k: nat, t: nat, p: AddPc) returns (more: seq<State>)
    requires c.Valid() && GoesOn(c, run, k) && Adds(Last(run), t, p) && p.AddLock?
    ensures GoesOn(c, more, k) && Extends(run, more) && Told(Last(more), t, !Last(run).sh.done, p.item)
  {
    var a := run;
    if Last(run).sh.writer {
      var u := Writer(c, run);
      a := WriterGoes(c, run, k, u);
    }
    assert Extends(run, a) by {
      assert run[..|run|] == run;
    }
    var b := AddGoes(c, a, k, t, p, Go);
    ExtendsOn(run, a, b);
    more := SelectEnds(c, b, k, t, AddSelect(p.item));
    ExtendsOn(run, b, more);
  }

  /** Every pending Add of every run can return without any new call: with true if done is not set,
      and with false otherwise. */
  lemma AddReturns(c: Config, run: seq<State>, t: nat, p: AddPc) returns (more: seq<State>)
    requires c.Valid() && IsRun(c, run) && Adds(Last(run), t, p) && !p.AddLeave? && !p.AddDone?
    ensures GoesOn(c, more, |run|) && Extends(run, more) && Told(Last(more), t, !Last(run).sh.done, p.item)
  {
    var k := |run|;
    match p
    case AddSelect(_) => more := SelectEnds(c, run, k, t, p);
    case AddLock(_) => more := LockEnds(c, run, k, t, p);
    case AddStart(x) =>
      more := AddGoes(c, run, k, t, p, Go);
      if !Last(run).sh.done {
        var mid := more;
        more := LockEnds(c, mid, k, t, AddLock(x));
        ExtendsOn(run, mid, more);
      }
  }
}
