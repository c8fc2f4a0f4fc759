/** What the answers of Add and Flush mean, and why a batch is handed over: read off the states
    of the run. */
module BatcherCalls {
  import opened Threads
  import opened Batcher

  // ----- What a step leaves alone -----

  /** done stays set and the log of sends only grows. */
  ghost predicate Onward(h: Shared, h': Shared)
  {
    (h.done ==> h'.done) && |h.accepted| <= |h'.accepted| && h'.accepted[..|h.accepted|] == h.accepted
  }

  lemma ActOnward(c: Config, t: nat, b: Branch, stopped: bool, h: Shared, p: Pc, h': Shared, p': Pc)
    requires Acts(c, t, b, stopped, h, p, h', p')
    ensures Onward(h, h') && (p'.Add? <==> p.Add?) && (p'.Flush? <==> p.Flush?)
  {
    match p
    case Add(q) =>
      assert h' == AddStep(c, h, q, b).0;
    case Flush(q) =>
      assert h' == FlushStep(h, t, q, b).0;
    case Close(q) =>
      assert h' == CloseStep(c, h, stopped, q, b).0;
  }

  lemma ColOnward(c: Config, h: Shared, col: ColPc, b: Branch)
    requires ColReady(h, col, b)
    ensures Onward(h, ColStep(c, h, col, b).0)
  {
  }

  lemma StepOnward(c: Config, s: State, s': State)
    requires Steps(c, s, s')
    ensures Onward(s.sh, s'.sh)
  {
    var t, b :| Next(c, s, s', t, b);
    if ThreadNext(c, s, s', t, b) {
      if t in s.threads {
        ActOnward(c, t, b, s.col.ColGone?, s.sh, s.threads[t], s'.sh, s'.threads[t]);
      }
    } else if ColNext(c, s, s', b) {
      ColOnward(c, s.sh, s.col, b);
    }
  }

  lemma OnwardOn(h: Shared, g: Shared, h': Shared)
    requires Onward(h, g) && Onward(g, h')
    ensures Onward(h, h')
  {
    assert h'.accepted[..|h.accepted|] == h'.accepted[..|g.accepted|][..|h.accepted|];
  }

  lemma {:induction false} RunOnward(c: Config, run: seq<State>, i: nat, k: nat)
    requires IsRun(c, run) && i <= k < |run|
    ensures Onward(run[i].sh, run[k].sh)
    decreases k - i
  {
    if i < k {
      RunOnward(c, run, i, k - 1);
      assert StepAt(c, run, k);
      StepOnward(c, run[k - 1], run[k]);
      OnwardOn(run[i].sh, run[k - 1].sh, run[k].sh);
    }
  }

  // ----- Add and Flush -----

  /** The call of thread t starts with the step to run[i]. */
  ghost predicate Called(run: seq<State>, i: nat, t: nat, p: Pc)
  {
    0 < i < |run| && t !in run[i - 1].threads && t in run[i].threads && run[i].threads[t] == p
  }

  ghost predicate Adds(run: seq<State>, i: nat, t: nat, x: Item) { Called(run, i, t, Add(AddStart(x))) }

  ghost predicate Flushes(run: seq<State>, i: nat, t: nat)
  {
    exists m :: Called(run, i, t, Flush(FlushStart(m)))
  }

  /** What the answer ok of an Add from run[i] to run[k] means. */
  ghost predicate Means(run: seq<State>, i: nat, k: nat, ok: bool, n: nat, x: Item)
    requires i <= k < |run|
  {
    if ok then
      !run[i].sh.done && |run[i].sh.accepted| <= n < |run[k].sh.accepted| && run[k].sh.accepted[n] == x
    else
      run[k].sh.done
  }

  /** Where the call started at run[i] stands at run[k]. */
  ghost predicate Stands(run: seq<State>, i: nat, k: nat, p: Pc, p': Pc)
    requires i <= k < |run|
  {
    match p
    case Add(a) =>
      && p'.Add? && p'.a.item == a.item
      && (p'.a.AddLock? || p'.a.AddSelect? ==> !run[i].sh.done)
      && (p'.a.AddLeave? || p'.a.AddDone? ==> Means(run, i, k, p'.a.ok, p'.a.i, a.item))
    case Flush(_) =>
      && p'.Flush? && p'.f.mark >= |run[i].sh.accepted|
      && (p'.f.FlushDone? && !p'.f.acked ==> run[k].sh.done)
    case Close(_) => true
  }

  lemma StandsOn(run: seq<State>, i: nat, k: nat, p: Pc, p': Pc)
    requires i < k < |run| && Stands(run, i, k - 1, p, p') && Onward(run[k - 1].sh, run[k].sh)
    ensures Stands(run, i, k, p, p')
  {
  }

  lemma StandsNext(c: Config, run: seq<State>, i: nat, k: nat, t: nat, b: Branch, p: Pc, q: Pc, q': Pc)
    requires i < k < |run| && Stands(run, i, k - 1, p, q) && Onward(run[i].sh, run[k - 1].sh)
    requires Acts(c, t, b, run[k - 1].col.ColGone?, run[k - 1].sh, q, run[k].sh, q')
    requires !p.Close?
    ensures Stands(run, i, k, p, q')
  {
  }

  lemma StandsMet(c: Config, run: seq<State>, i: nat, k: nat, t: nat, p: Pc)
    requires i < k < |run| && Onward(run[i].sh, run[k - 1].sh) && MeetNext(c, run[k - 1], run[k], t)
    requires Stands(run, i, k - 1, p, run[k - 1].threads[t])
    ensures Stands(run, i, k, p, run[k].threads[t])
  {
  }

  lemma CallStep(c: Config, run: seq<State>, i: nat, k: nat, t: nat, p: Pc)
    requires i < k < |run| && StepAt(c, run, k) && Onward(run[i].sh, run[k - 1].sh) && !p.Close?
    requires t in run[k - 1].threads && Stands(run, i, k - 1, p, run[k - 1].threads[t])
    ensures t in run[k].threads && Stands(run, i, k, p, run[k].threads[t])
  {
    var s, s' := run[k - 1], run[k];
    StepOnward(c, s, s');
    var u, b :| Next(c, s, s', u, b);
    if ThreadNext(c, s, s', u, b) && u == t {
      StandsNext(c, run, i, k, t, b, p, s.threads[t], s'.threads[t]);
    } else if !ThreadNext(c, s, s', u, b) && !ColNext(c, s, s', b) && u == t {
      StandsMet(c, run, i, k, t, p);
    } else {
      StandsOn(run, i, k, p, s.threads[t]);
    }
  }

  /** Every state of a call, from its start on. */
  lemma {:induction false} CallStands(c: Config, run: seq<State>, i: nat, k: nat, t: nat, p: Pc)
    requires IsRun(c, run) && Called(run, i, t, p) && i <= k < |run|
    requires (p.Add? && p.a.AddStart?) || (p.Flush? && p.f.FlushStart? && p.f.mark >= |run[i].sh.accepted|)
    ensures t in run[k].threads && Stands(run, i, k, p, run[k].threads[t])
    decreases k - i
  {
    if i < k {
      CallStands(c, run, i, k - 1, t, p);
      assert StepAt(c, run, k);
      RunOnward(c, run, i, k - 1);
      CallStep(c, run, i, k, t, p);
    }
  }

  /** Every Add and every Flush has a start. */
  lemma {:induction false} CallStarts(c: Config, run: seq<State>, k: nat, t: nat) returns (i: nat, p: Pc)
    requires IsRun(c, run) && k < |run| && t in run[k].threads && !run[k].threads[t].Close?
    ensures i <= k && Called(run, i, t, p) && Stands(run, i, k, p, run[k].threads[t])
    ensures (p.Add? && p.a.AddStart?) || (p.Flush? && p.f.FlushStart? && p.f.mark >= |run[i].sh.accepted|)
  {
    assert k > 0;
    assert StepAt(c, run, k);
    if t in run[k - 1].threads {
      StillThere(c, run[k - 1], run[k], t);
      i, p := CallStarts(c, run, k - 1, t);
      CallStands(c, run, i, k, t, p);
    } else {
      i, p := k, run[k].threads[t];
    }
  }

  /** A call stays a call of its kind. */
  lemma StillThere(c: Config, s: State, s': State, t: nat)
    requires Steps(c, s, s') && t in s.threads
    ensures t in s'.threads && (s'.threads[t].Close? <==> s.threads[t].Close?)
  {
    var u, b :| Next(c, s, s', u, b);
    if ThreadNext(c, s, s', u, b) && u == t {
      ActOnward(c, t, b, s.col.ColGone?, s.sh, s.threads[t], s'.sh, s'.threads[t]);
    }
  }

  /** Every answer of Add in every run: true means that done was not set at the call and that the
      item was sent since; false means that done is set. */
  lemma AddMeans(c: Config, run: seq<State>, k: nat, t: nat, ok: bool, n: nat, x: Item) returns (i: nat)
    requires IsRun(c, run) && k < |run| && t in run[k].threads && run[k].threads[t] == Add(AddDone(ok, n, x))
    ensures i <= k && Adds(run, i, t, x) && Means(run, i, k, ok, n, x)
  {
    var p;
    i, p := CallStarts(c, run, k, t);
  }

  /** An Add called when done is set sends nothing and can answer false only. */
  lemma AddAfterClose(c: Config, run: seq<State>, i: nat, k: nat, t: nat, x: Item)
    requires IsRun(c, run) && Adds(run, i, t, x) && run[i].sh.done && i <= k < |run|
    ensures t in run[k].threads && run[k].threads[t].Add? && !run[k].threads[t].HasReceipt()
    ensures run[k].threads[t].a.AddDone? ==> !run[k].threads[t].a.ok
  {
    CallStands(c, run, i, k, t, Add(AddStart(x)));
  }

  /** After a Close has released the lock only items of Adds called before done was set can be
      left unflushed. */
  lemma StrandedEarly(c: Config, run: seq<State>, k: nat, n: nat) returns (i: nat, t: nat)
    requires c.Valid() && IsRun(c, run) && k < |run| && run[k].sh.locked && !run[k].sh.writer
    requires |Flat(run[k].sh.flushed)| <= n < |run[k].sh.accepted|
    ensures i <= k && Adds(run, i, t, run[k].sh.accepted[n]) && !run[i].sh.done
    ensures t in run[k].threads && run[k].threads[t].HasReceipt() && run[k].threads[t].Receipt().0 == n
  {
    RunsKeepInv(c, run, k);
    assert Told(run[k].threads, n);
    t :| t in run[k].threads && run[k].threads[t].HasReceipt() && run[k].threads[t].Receipt().0 == n;
    assert ThreadOk(c, t, run[k].sh, run[k].col.ColGone?, run[k].threads[t]);
    var p;
    i, p := CallStarts(c, run, k, t);
  }

  /** Every answer of Flush in every run: acknowledged means that all that was sent at the call is
      flushed, in order; otherwise done is set. */
  lemma FlushMeans(c: Config, run: seq<State>, k: nat, t: nat, acked: bool, mark: nat) returns (i: nat)
    requires c.Valid() && IsRun(c, run) && k < |run|
    requires t in run[k].threads && run[k].threads[t] == Flush(FlushDone(acked, mark))
    ensures i <= k && Flushes(run, i, t)
    ensures if acked then Flushed(run[k].sh, run[i].sh.accepted) else run[k].sh.done
  {
    var p;
    i, p := CallStarts(c, run, k, t);
    if acked {
      FlushCovers(c, run, k, t, mark);
      RunOnward(c, run, i, k);
      var n, flat := |run[i].sh.accepted|, Flat(run[k].sh.flushed);
      assert flat[..n] == flat[..mark][..n] == run[k].sh.accepted[..mark][..n];
    }
  }

  /** The batches handed over start with the items a. */
  ghost predicate Flushed(h: Shared, a: seq<Item>)
  {
    |a| <= |Flat(h.flushed)| && Flat(h.flushed)[..|a|] == a
  }

  // ----- Why a batch is handed over -----

  /** A buffer that is to be flushed for its size is full. */
  ghost predicate FullIsFull(c: Config, s: State)
  {
    s.col.ColFull? ==> |s.sh.buf| == c.maxSize
  }

  lemma ActHands(c: Config, t: nat, b: Branch, stopped: bool, h: Shared, p: Pc, h': Shared, p': Pc)
    requires Acts(c, t, b, stopped, h, p, h', p')
    ensures h'.buf == h.buf
    ensures h'.flushed == h.flushed ||
      (p.Close? && (p.x.CloseFull? || p.x.CloseLast?) && h'.flushed == h.flushed + [h.rest])
  {
    match p
    case Add(q) =>
      assert h' == AddStep(c, h, q, b).0;
    case Flush(q) =>
      assert h' == FlushStep(h, t, q, b).0;
    case Close(q) =>
      assert h' == CloseStep(c, h, stopped, q, b).0;
  }

  lemma FullKept(c: Config, s: State, s': State)
    requires Steps(c, s, s') && FullIsFull(c, s)
    requires |s.sh.buf| <= c.maxSize && (|s.sh.buf| == c.maxSize ==> s.col.ColFull?)
    ensures FullIsFull(c, s')
  {
    var t, b :| Next(c, s, s', t, b);
    if ThreadNext(c, s, s', t, b) && t in s.threads {
      ActHands(c, t, b, s.col.ColGone?, s.sh, s.threads[t], s'.sh, s'.threads[t]);
    }
  }

  lemma ColAt(c: Config, run: seq<State>, k: nat)
    requires c.Valid() && IsRun(c, run) && k < |run|
    ensures ColOk(c, run[k].sh, run[k].col)
  {
    RunsKeepInv(c, run, k);
  }

  lemma {:induction false} RunsKeepFull(c: Config, run: seq<State>, k: nat)
    requires c.Valid() && IsRun(c, run) && k < |run|
    ensures FullIsFull(c, run[k])
  {
    if k > 0 {
      RunsKeepFull(c, run, k - 1);
      ColAt(c, run, k - 1);
      assert StepAt(c, run, k);
      FullKept(c, run[k - 1], run[k]);
    }
  }

  /** A call of Flush that the collector is serving. */
  ghost predicate Serving(s: State, t: nat)
  {
    t in s.threads && s.threads[t].Flush? && s.col == ColAckFlush(t)
  }

  ghost predicate ForRequest(s: State) { exists t :: Serving(s, t) }

  /** At run[j] the channel was empty, with all that was sent by then in the buffer or flushed. */
  ghost predicate EmptyAt(run: seq<State>, j: nat, k: nat)
    requires j <= k < |run|
  {
    run[j].sh.input == [] && run[j].sh.buf == run[k].sh.buf && run[j].sh.flushed == run[k].sh.flushed
  }

  /** Nothing was received since the collector found the channel empty. */
  ghost predicate Emptied(run: seq<State>, k: nat)
    requires k < |run|
  {
    exists j :: 0 <= j <= k && EmptyAt(run, j, k)
  }

  ghost predicate AfterEmpty(col: ColPc) { col.ColAckFlush? || col.ColLast? }

  /** Until the collector is gone no one else touches its buffer or hands over a batch. */
  lemma ThreadKeeps(c: Config, run: seq<State>, k: nat, t: nat, b: Branch)
    requires c.Valid() && IsRun(c, run) && 0 < k < |run| && ThreadNext(c, run[k - 1], run[k], t, b)
    ensures run[k].col == run[k - 1].col && run[k].sh.buf == run[k - 1].sh.buf
    ensures !run[k].col.ColGone? ==> run[k].sh.flushed == run[k - 1].sh.flushed
  {
    var s, s' := run[k - 1], run[k];
    if t in s.threads {
      ActHands(c, t, b, s.col.ColGone?, s.sh, s.threads[t], s'.sh, s'.threads[t]);
      if HoldsWrite(s.threads[t]) {
        CloserLate(c, run, k - 1, t);
      }
    }
  }

  lemma EmptiedStep(c: Config, run: seq<State>, k: nat)
    requires c.Valid() && IsRun(c, run) && 0 < k < |run| && AfterEmpty(run[k].col)
    ensures AfterEmpty(run[k - 1].col) ==>
      run[k].sh.buf == run[k - 1].sh.buf && run[k].sh.flushed == run[k - 1].sh.flushed
    ensures !AfterEmpty(run[k - 1].col) ==> EmptyAt(run, k - 1, k)
  {
    var s, s' := run[k - 1], run[k];
    assert StepAt(c, run, k);
    var t, b :| Next(c, s, s', t, b);
    if ThreadNext(c, s, s', t, b) {
      ThreadKeeps(c, run, k, t, b);
    }
  }

  lemma {:induction false} RunsEmptied(c: Config, run: seq<State>, k: nat)
    requires c.Valid() && IsRun(c, run) && k < |run| && AfterEmpty(run[k].col)
    ensures Emptied(run, k)
  {
    EmptiedStep(c, run, k);
    if AfterEmpty(run[k - 1].col) {
      RunsEmptied(c, run, k - 1);
      var j :| 0 <= j <= k - 1 && EmptyAt(run, j, k - 1);
      assert EmptyAt(run, j, k);
    } else {
      assert EmptyAt(run, k - 1, k);
    }
  }

  /** Why the collector hands its buffer over: it is full, the ticker fired, or the channel was
      found empty for a Flush or after done. */
  ghost predicate Due(c: Config, run: seq<State>, k: nat)
    requires k < |run|
  {
    || |run[k].sh.buf| == c.maxSize || run[k].col.ColTick?
    || (Emptied(run, k) && (ForRequest(run[k]) || run[k].sh.done))
  }

  lemma EmitsAreDue(c: Config, run: seq<State>, k: nat)
    requires c.Valid() && IsRun(c, run) && k < |run|
    requires var col := run[k].col; col.ColFull? || col.ColTick? || col.ColAckFlush? || col.ColLast?
    ensures Due(c, run, k)
  {
    RunsKeepFull(c, run, k);
    if AfterEmpty(run[k].col) {
      RunsEmptied(c, run, k);
      ServedOrDone(c, run, k);
    }
  }

  lemma ServedOrDone(c: Config, run: seq<State>, k: nat)
    requires c.Valid() && IsRun(c, run) && k < |run| && AfterEmpty(run[k].col)
    ensures ForRequest(run[k]) || run[k].sh.done
  {
    RunsKeepInv(c, run, k);
    if run[k].col.ColAckFlush? {
      assert Serving(run[k], run[k].col.ack);
    }
  }

  /** One step of the collector adds nothing to the log of batches, or its buffer. */
  lemma ColHands(c: Config, h: Shared, col: ColPc, b: Branch)
    requires ColReady(h, col, b)
    ensures var h' := ColStep(c, h, col, b).0;
      h'.flushed == h.flushed ||
      (h'.flushed == h.flushed + [h.buf] && (col.ColFull? || col.ColTick? || col.ColAckFlush? || col.ColLast?))
  {
  }

  /** A closer that hands over a rest that is not full has found the channel empty. */
  lemma CloserLate(c: Config, run: seq<State>, k: nat, t: nat)
    requires c.Valid() && IsRun(c, run) && k < |run| && t in run[k].threads && HoldsWrite(run[k].threads[t])
    ensures run[k].sh.done && run[k].col.ColGone?
    ensures run[k].threads[t].x.CloseLast? ==> run[k].sh.input == []
  {
    RunsKeepInv(c, run, k);
    assert ThreadOk(c, t, run[k].sh, run[k].col.ColGone?, run[k].threads[t]);
  }

  /** A closer's buffer that is to be flushed for its size is full. */
  ghost predicate RestIsFull(c: Config, s: State)
  {
    forall t :: t in s.threads && s.threads[t].Close? && s.threads[t].x.CloseFull? ==> |s.sh.rest| == c.maxSize
  }

  lemma CloserFills(c: Config, h: Shared, stopped: bool, p: ClosePc, b: Branch)
    requires CloseReady(h, stopped, p, b) && (p.CloseDrain? ==> |h.rest| < c.maxSize)
    ensures var r := CloseStep(c, h, stopped, p, b); r.1.CloseFull? ==> |r.0.rest| == c.maxSize
  {
  }

  /** A step that changes the rest is one of the closer that holds the lock. */
  lemma ActRest(c: Config, t: nat, b: Branch, stopped: bool, h: Shared, p: Pc, h': Shared, p': Pc)
    requires Acts(c, t, b, stopped, h, p, h', p')
    ensures h'.rest == h.rest || HoldsWrite(p)
    ensures p'.Close? <==> p.Close?
  {
    match p
    case Add(q) =>
      assert h' == AddStep(c, h, q, b).0;
    case Flush(q) =>
      assert h' == FlushStep(h, t, q, b).0;
    case Close(q) =>
      assert h' == CloseStep(c, h, stopped, q, b).0;
  }

  lemma RestKept(c: Config, s: State, s': State)
    requires Inv(c, s) && Steps(c, s, s') && RestIsFull(c, s)
    ensures RestIsFull(c, s')
  {
    var t, b :| Next(c, s, s', t, b);
    if ThreadNext(c, s, s', t, b) && t in s.threads {
      RestActs(c, s, s', t, b);
    }
  }

  lemma RestActs(c: Config, s: State, s': State, t: nat, b: Branch)
    requires Inv(c, s) && t in s.threads && ThreadNext(c, s, s', t, b) && RestIsFull(c, s)
    ensures RestIsFull(c, s')
  {
    ActRest(c, t, b, s.col.ColGone?, s.sh, s.threads[t], s'.sh, s'.threads[t]);
    assert ThreadOk(c, t, s.sh, s.col.ColGone?, s.threads[t]);
    if s.threads[t].Close? {
      CloserFills(c, s.sh, s.col.ColGone?, s.threads[t].x, b);
    }
    AtFew(s.threads, HoldsWrite);
  }

  lemma {:induction false} RunsKeepRest(c: Config, run: seq<State>, k: nat)
    requires c.Valid() && IsRun(c, run) && k < |run|
    ensures RestIsFull(c, run[k])
  {
    if k > 0 {
      RunsKeepRest(c, run, k - 1);
      RunsKeepInv(c, run, k - 1);
      assert StepAt(c, run, k);
      RestKept(c, run[k - 1], run[k]);
    }
  }

  /** A step hands over no batch, the collector's buffer when it is due, or after done the rest: full,
      or with nothing left in the channel. */
  ghost predicate Hands(c: Config, run: seq<State>, k: nat)
    requires 0 < k < |run|
  {
    var h, h' := run[k - 1].sh, run[k].sh;
    || h'.flushed == h.flushed
    || (h'.flushed == h.flushed + [h.buf] && Due(c, run, k - 1))
    || (h'.flushed == h.flushed + [h.rest] && h.done && (|h.rest| == c.maxSize || h.input == []))
  }

  lemma StepHands(c: Config, run: seq<State>, k: nat)
    requires c.Valid() && IsRun(c, run) && 0 < k < |run|
    ensures Hands(c, run, k)
  {
    var s, s' := run[k - 1], run[k];
    assert StepAt(c, run, k);
    var t, b :| Next(c, s, s', t, b);
    if ThreadNext(c, s, s', t, b) {
      if t in s.threads {
        ActHands(c, t, b, s.col.ColGone?, s.sh, s.threads[t], s'.sh, s'.threads[t]);
        if HoldsWrite(s.threads[t]) {
          CloserLate(c, run, k - 1, t);
          RunsKeepRest(c, run, k - 1);
        }
      }
    } else if ColNext(c, s, s', b) {
      ColHands(c, s.sh, s.col, b);
      if s'.sh.flushed != s.sh.flushed {
        EmitsAreDue(c, run, k - 1);
      }
    }
  }

  /** Every batch handed over in every run has exactly maxSize items, or it is shorter because the
      ticker fired, or because the channel was found empty for a Flush or after done. */
  lemma ShortBatch(c: Config, run: seq<State>, k: nat)
    requires c.Valid() && IsRun(c, run) && 0 < k < |run| && run[k].sh.flushed != run[k - 1].sh.flushed
    ensures |run[k].sh.flushed| == |run[k - 1].sh.flushed| + 1
    ensures run[k].sh.flushed[..|run[k - 1].sh.flushed|] == run[k - 1].sh.flushed
    ensures var s := run[k - 1];
      || |run[k].sh.flushed[|s.sh.flushed|]| == c.maxSize || s.col.ColTick?
      || (Emptied(run, k - 1) && (ForRequest(s) || s.sh.done))
  {
    StepHands(c, run, k);
    if run[k - 1].sh.input == [] {
      assert EmptyAt(run, k - 1, k - 1);
    }
  }

  /** The collector at its select has room in its buffer. */
  lemma SelectHasRoom(c: Config, run: seq<State>, k: nat)
    requires c.Valid() && IsRun(c, run) && k < |run| && run[k].col.ColSelect?
    ensures |run[k].sh.buf| < c.maxSize
  {
    ColAt(c, run, k);
  }

  lemma FlushedOn(c: Config, run: seq<State>, k: nat, a: seq<Item>)
    requires 0 < k < |run| && Hands(c, run, k) && Flushed(run[k - 1].sh, a)
    ensures Flushed(run[k].sh, a)
  {
    var h := run[k - 1].sh;
    FlatSnoc(h.flushed, h.buf);
    FlatSnoc(h.flushed, h.rest);
  }

  /** The tick is still to be served, or the items a are flushed. */
  ghost predicate Ticks(s: State, a: seq<Item>)
  {
    (s.col.ColTick? && Flat(s.sh.flushed) + s.sh.buf == a) || Flushed(s.sh, a)
  }

  lemma TickStep(c: Config, run: seq<State>, k: nat, a: seq<Item>)
    requires c.Valid() && IsRun(c, run) && 0 < k < |run| && Ticks(run[k - 1], a)
    ensures Ticks(run[k], a)
  {
    var s, s' := run[k - 1], run[k];
    StepHands(c, run, k);
    if Flushed(s.sh, a) {
      FlushedOn(c, run, k, a);
    } else {
      ColAt(c, run, k - 1);
      assert StepAt(c, run, k);
      TickServed(c, run, k);
      if !s'.col.ColTick? {
        FlatSnoc(s.sh.flushed, s.sh.buf);
      }
    }
  }

  /** From the tick the collector goes on by flushing its buffer, and no one else touches it. */
  lemma TickServed(c: Config, run: seq<State>, k: nat)
    requires c.Valid() && IsRun(c, run) && 0 < k < |run| && run[k - 1].col.ColTick?
    ensures var (s, s') := (run[k - 1], run[k]);
      if s'.col.ColTick? then s'.sh.buf == s.sh.buf && s'.sh.flushed == s.sh.flushed
      else Flat(s'.sh.flushed) == Flat(s.sh.flushed) + s.sh.buf
  {
    var s, s' := run[k - 1], run[k];
    assert StepAt(c, run, k);
    var t, b :| Next(c, s, s', t, b);
    FlatSnoc(s.sh.flushed, s.sh.buf);
    if ThreadNext(c, s, s', t, b) {
      ThreadKeeps(c, run, k, t, b);
    }
  }

  lemma {:induction false} TickStands(c: Config, run: seq<State>, i: nat, k: nat)
    requires c.Valid() && IsRun(c, run) && i <= k < |run| && run[i].col.ColTick?
    ensures Ticks(run[k], Flat(run[i].sh.flushed) + run[i].sh.buf)
    decreases k - i
  {
    if i < k {
      TickStands(c, run, i, k - 1);
      TickStep(c, run, k, Flat(run[i].sh.flushed) + run[i].sh.buf);
    }
  }

  /** A tick hands over all that the collector had buffered: once it is served, those items are
      flushed, behind what was flushed before. */
  lemma TickFlushes(c: Config, run: seq<State>, i: nat, k: nat)
    requires c.Valid() && IsRun(c, run) && i < k < |run| && run[i].col.ColTick? && !run[k].col.ColTick?
    ensures Flushed(run[k].sh, Flat(run[i].sh.flushed) + run[i].sh.buf)
  {
    TickStands(c, run, i, k);
  }

  // ----- What the collector leaves when it stops -----

  /** The collector, past its last drain, had found the channel empty after done, and what was sent
      by then is flushed or in its buffer. */
  ghost predicate Drained(run: seq<State>, j: nat, k: nat)
    requires j <= k < |run|
  {
    && run[j].sh.done && run[j].sh.input == []
    && (if run[k].col.ColLast? then Flat(run[k].sh.flushed) + run[k].sh.buf == run[j].sh.accepted
        else Flushed(run[k].sh, run[j].sh.accepted))
  }

  ghost predicate PastDrain(col: ColPc) { col.ColLast? || col.ColStop? || col.ColGone? }

  /** What one step makes of a collector that ends up past its drain. */
  ghost predicate Ends(h: Shared, col: ColPc, h': Shared, col': ColPc)
  {
    if !PastDrain(col) then
      col.ColDrain? && col'.ColLast? && h.input == [] && h'.flushed == h.flushed && h'.buf == h.buf
    else if !col.ColLast? then !col'.ColLast?
    else if col'.ColLast? then h'.flushed == h.flushed && h'.buf == h.buf
    else h'.flushed == Emit(h).flushed
  }

  lemma ColEnds(c: Config, h: Shared, col: ColPc, b: Branch)
    requires ColReady(h, col, b) && PastDrain(ColStep(c, h, col, b).1)
    ensures var r := ColStep(c, h, col, b); Ends(h, col, r.0, r.1)
  {
  }

  lemma DrainStep(c: Config, run: seq<State>, k: nat)
    requires c.Valid() && IsRun(c, run) && 0 < k < |run| && PastDrain(run[k].col)
    ensures Ends(run[k - 1].sh, run[k - 1].col, run[k].sh, run[k].col)
  {
    var s, s' := run[k - 1], run[k];
    assert StepAt(c, run, k);
    var t, b :| Next(c, s, s', t, b);
    if ThreadNext(c, s, s', t, b) {
      ThreadKeeps(c, run, k, t, b);
    } else if ColNext(c, s, s', b) {
      ColEnds(c, s.sh, s.col, b);
    }
  }

  lemma EmitFlat(h: Shared)
    ensures Flat(Emit(h).flushed) == Flat(h.flushed) + h.buf
  {
    FlatSnoc(h.flushed, h.buf);
  }

  lemma DrainedAt(c: Config, run: seq<State>, k: nat)
    requires c.Valid() && IsRun(c, run) && k < |run| && run[k].col.ColDrain? && run[k].sh.input == []
    ensures run[k].sh.done && Flat(run[k].sh.flushed) + run[k].sh.buf == run[k].sh.accepted
  {
    RunsKeepInv(c, run, k);
  }

  /** When the collector has stopped, all that was sent before it found the channel empty, after
      done, is flushed. */
  lemma {:induction false} CollectorDrains(c: Config, run: seq<State>, k: nat) returns (j: nat)
    requires c.Valid() && IsRun(c, run) && k < |run| && PastDrain(run[k].col)
    ensures j <= k && Drained(run, j, k)
  {
    DrainStep(c, run, k);
    if PastDrain(run[k - 1].col) {
      j := CollectorDrains(c, run, k - 1);
      if !run[k - 1].col.ColLast? {
        StepHands(c, run, k);
        FlushedOn(c, run, k, run[j].sh.accepted);
      } else {
        EmitFlat(run[k - 1].sh);
      }
    } else {
      j := k - 1;
      DrainedAt(c, run, j);
    }
  }
}
