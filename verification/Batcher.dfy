/** The batch coalescer as a step system: Add, Flush and Close calls and the collector
    goroutine run interleaved, one check, lock, channel operation or flush at a time. */
module Batcher {
  import opened Threads

  type Item(!new)

  datatype Config = Config(maxSize: nat, bufferCap: nat) {
    // New panics on maxSize <= 0; a capacity of 0 makes the channel unbuffered
    predicate Valid() { maxSize >= 1 }
  }

  datatype AddPc =
    | AddStart(item: Item)
    | AddLock(item: Item)                       // the fast path saw done open
    | AddSelect(item: Item)                     // read lock held
    | AddLeave(ok: bool, i: nat, item: Item)    // about to release the read lock; i is the
    | AddDone(ok: bool, i: nat, item: Item)     // item's place in the send order when ok

  datatype FlushPc =
    | FlushStart(mark: nat)                     // mark: number of sends when Flush was called
    | FlushWait(mark: nat)                      // the request is with the collector
    | FlushDone(acked: bool, mark: nat)

  datatype ClosePc =
    | CloseStart
    | CloseWait                                 // waits for the collector to stop
    | CloseLock
    | CloseDrain(mark: nat)                     // write lock held; mark: number of sends
    | CloseFull(mark: nat)                      //   when the lock was taken
    | CloseLast(mark: nat)
    | CloseUnlock(mark: nat)
    | CloseReturned(mark: nat)
  {
    predicate HoldsWrite() { CloseDrain? || CloseFull? || CloseLast? || CloseUnlock? }
    predicate AfterLock() { HoldsWrite() || CloseReturned? }
    predicate AfterCollector() { CloseLock? || AfterLock() }
  }

  datatype Pc = Add(a: AddPc) | Flush(f: FlushPc) | Close(x: ClosePc)
  {
    predicate HasReceipt() { Add? && (a.AddLeave? || a.AddDone?) && a.ok }

    function Receipt(): (nat, Item)
      requires HasReceipt()
    {
      (a.i, a.item)
    }
  }

  // Where the collector goes on after a flush forced by a full buffer.
  datatype Loop = Main | Draining | Acking(ack: nat)

  datatype ColPc =
    | ColSelect
    | ColFull(next: Loop)
    | ColTick
    | ColAckDrain(ack: nat)
    | ColAckFlush(ack: nat)
    | ColAckClose(ack: nat)
    | ColDrain
    | ColLast
    | ColStop
    | ColGone
  {
    predicate Receiving() { ColSelect? || ColAckDrain? || ColDrain? }
  }

  /** Shared state and the two local buffers: buf is the collector's, rest the buffer of
      the closer that holds the write lock. accepted logs the items in send order; flushed
      logs the batches handed to the callback. A Flush call's ack channel has the number
      of its thread. */
  datatype Shared = Shared(
    input: seq<Item>, readers: int, writer: bool, done: bool,
    requests: seq<nat>, acks: set<nat>,
    buf: seq<Item>, rest: seq<Item>,
    accepted: seq<Item>, flushed: seq<seq<Item>>,
    locked: bool, lockMark: nat)

  datatype State = State(threads: map<nat, Pc>, col: ColPc, sh: Shared)

  datatype Branch =
    | Go | Send | Done | Default | Receive | Tick | Request | Meet
    | CallAdd(item: Item) | CallFlush | CallClose

  predicate HoldsRead(p: Pc) { p.Add? && (p.a.AddSelect? || p.a.AddLeave?) }
  predicate HoldsWrite(p: Pc) { p.Close? && p.x.HoldsWrite() }

  ghost function Init(): State
  {
    State(map[], ColSelect, Shared([], 0, false, false, [], {}, [], [], [], [], false, 0))
  }

  ghost function Flat(batches: seq<seq<Item>>): seq<Item>
  {
    if batches == [] then [] else Flat(batches[..|batches| - 1]) + batches[|batches| - 1]
  }

  // ----- Add, Flush and Close -----

  ghost predicate AddReady(c: Config, h: Shared, p: AddPc, b: Branch)
  {
    match p
    case AddStart(_) => b.Go?
    case AddLock(_) => b.Go? && !h.writer
    case AddSelect(_) => (b.Send? && |h.input| < c.bufferCap) || (b.Done? && h.done)
    case AddLeave(_, _, _) => b.Go?
    case _ => false
  }

  ghost function AddStep(c: Config, h: Shared, p: AddPc, b: Branch): (Shared, AddPc)
    requires AddReady(c, h, p, b)
  {
    match p
    case AddStart(x) => (h, if h.done then AddDone(false, 0, x) else AddLock(x))
    case AddLock(x) => (h.(readers := h.readers + 1), AddSelect(x))
    case AddSelect(x) =>
      if b.Send? then (h.(input := h.input + [x], accepted := h.accepted + [x]), AddLeave(true, |h.accepted|, x))
      else (h, AddLeave(false, 0, x))
    case AddLeave(ok, i, x) => (h.(readers := h.readers - 1), AddDone(ok, i, x))
  }

  ghost predicate FlushReady(h: Shared, t: nat, p: FlushPc, b: Branch)
  {
    match p
    case FlushStart(_) => (b.Send? && |h.requests| < 1) || (b.Done? && h.done)
    case FlushWait(_) => (b.Receive? && t in h.acks) || (b.Done? && h.done)
    case _ => false
  }

  ghost function FlushStep(h: Shared, t: nat, p: FlushPc, b: Branch): (Shared, FlushPc)
    requires FlushReady(h, t, p, b)
  {
    match p
    case FlushStart(m) => if b.Send? then (h.(requests := h.requests + [t]), FlushWait(m)) else (h, FlushDone(false, m))
    case FlushWait(m) => (h, FlushDone(b.Receive?, m))
  }

  ghost predicate CloseReady(h: Shared, stopped: bool, p: ClosePc, b: Branch)
  {
    match p
    case CloseStart => b.Go?
    case CloseWait => b.Go? && stopped
    case CloseLock => b.Go? && !h.writer && h.readers == 0
    case CloseDrain(_) => (b.Receive? && h.input != []) || (b.Default? && h.input == [])
    case CloseFull(_) => b.Go?
    case CloseLast(_) => b.Go?
    case CloseUnlock(_) => b.Go?
    case _ => false
  }

  ghost function CloseStep(c: Config, h: Shared, stopped: bool, p: ClosePc, b: Branch): (Shared, ClosePc)
    requires CloseReady(h, stopped, p, b)
  {
    match p
    case CloseStart => (h.(done := true), CloseWait)
    case CloseWait => (h, CloseLock)
    case CloseLock => (h.(writer := true, locked := true, lockMark := |h.accepted|), CloseDrain(|h.accepted|))
    case CloseDrain(m) =>
      if b.Receive? then
        var rest := h.rest + [h.input[0]];
        (h.(rest := rest, input := h.input[1..]), if |rest| >= c.maxSize then CloseFull(m) else CloseDrain(m))
      else (h, if h.rest != [] then CloseLast(m) else CloseUnlock(m))
    case CloseFull(m) => (h.(flushed := h.flushed + [h.rest], rest := []), CloseDrain(m))
    case CloseLast(m) => (h.(flushed := h.flushed + [h.rest], rest := []), CloseUnlock(m))
    case CloseUnlock(m) => (h.(writer := false), CloseReturned(m))
  }

  ghost predicate Acts(c: Config, t: nat, b: Branch, stopped: bool, h: Shared, p: Pc, h': Shared, p': Pc)
  {
    match p
    case Add(q) => AddReady(c, h, q, b) && var (g, q') := AddStep(c, h, q, b); h' == g && p' == Add(q')
    case Flush(q) => FlushReady(h, t, q, b) && var (g, q') := FlushStep(h, t, q, b); h' == g && p' == Flush(q')
    case Close(q) =>
      CloseReady(h, stopped, q, b) && var (g, q') := CloseStep(c, h, stopped, q, b); h' == g && p' == Close(q')
  }

  // ----- The collector -----

  /** flush(): nothing when the buffer is empty. */
  ghost function Emit(h: Shared): Shared
  {
    if h.buf == [] then h else h.(flushed := h.flushed + [h.buf], buf := [])
  }

  ghost function LoopOf(p: ColPc): Loop
    requires p.Receiving()
  {
    match p
    case ColSelect => Main
    case ColAckDrain(a) => Acking(a)
    case ColDrain => Draining
  }

  ghost function LoopPc(l: Loop): ColPc
  {
    match l
    case Main => ColSelect
    case Draining => ColDrain
    case Acking(a) => ColAckDrain(a)
  }

  /** addAndMaybeFlush: append the item; a full buffer is flushed next. */
  ghost function Collect(c: Config, h: Shared, p: ColPc, x: Item): (Shared, ColPc)
    requires p.Receiving()
  {
    (h.(buf := h.buf + [x]), if |h.buf| + 1 >= c.maxSize then ColFull(LoopOf(p)) else p)
  }

  ghost predicate ColReady(h: Shared, p: ColPc, b: Branch)
  {
    match p
    case ColSelect =>
      || (b.Done? && h.done) || (b.Receive? && h.input != []) || b.Tick? || (b.Request? && h.requests != [])
    case ColFull(_) => b.Go?
    case ColTick => b.Go?
    case ColAckDrain(_) => (b.Receive? && h.input != []) || (b.Default? && h.input == [])
    case ColAckFlush(_) => b.Go?
    case ColAckClose(_) => b.Go?
    case ColDrain => (b.Receive? && h.input != []) || (b.Default? && h.input == [])
    case ColLast => b.Go?
    case ColStop => b.Go?
    case ColGone => false
  }

  ghost function ColStep(c: Config, h: Shared, p: ColPc, b: Branch): (Shared, ColPc)
    requires ColReady(h, p, b)
  {
    if b.Receive? then Collect(c, h.(input := h.input[1..]), p, h.input[0])
    else
      match p
      case ColSelect => (
        match b
        case Done => (h, ColDrain)
        case Tick => (h, ColTick)
        case Request => (h.(requests := h.requests[1..]), ColAckDrain(h.requests[0])))
      case ColFull(l) => (Emit(h), LoopPc(l))
      case ColTick => (Emit(h), ColSelect)
      case ColAckDrain(a) => (h, ColAckFlush(a))
      case ColAckFlush(a) => (Emit(h), ColAckClose(a))
      case ColAckClose(a) => (h.(acks := h.acks + {a}), ColSelect)
      case ColDrain => (h, ColLast)
      case ColLast => (Emit(h), ColStop)
      case ColStop => (h, ColGone)
  }

  // ----- Steps and runs -----

  /** Thread t acts or starts a call. */
  ghost predicate ThreadNext(c: Config, s: State, s': State, t: nat, b: Branch)
  {
    if t in s.threads then
      && t in s'.threads && s'.threads == s.threads[t := s'.threads[t]] && s'.col == s.col
      && Acts(c, t, b, s.col.ColGone?, s.sh, s.threads[t], s'.sh, s'.threads[t])
    else
      match b
      case CallAdd(x) => s' == s.(threads := s.threads[t := Add(AddStart(x))])
      case CallFlush => s' == s.(threads := s.threads[t := Flush(FlushStart(|s.sh.accepted|))])
      case CallClose => s' == s.(threads := s.threads[t := Close(CloseStart)])
      case _ => false
  }

  ghost predicate ColNext(c: Config, s: State, s': State, b: Branch)
  {
    && s'.threads == s.threads
    && ColReady(s.sh, s.col, b)
    && (s'.sh, s'.col) == ColStep(c, s.sh, s.col, b)
  }

  /** On an unbuffered channel a send and the collector's receive are one step. */
  ghost predicate MeetNext(c: Config, s: State, s': State, t: nat)
  {
    && c.bufferCap == 0 && s.col.Receiving()
    && t in s.threads && s.threads[t].Add? && s.threads[t].a.AddSelect?
    && var x := s.threads[t].a.item;
       var (h, col) := Collect(c, s.sh.(accepted := s.sh.accepted + [x]), s.col, x);
       s' == State(s.threads[t := Add(AddLeave(true, |s.sh.accepted|, x))], col, h)
  }

  ghost predicate Next(c: Config, s: State, s': State, t: nat, b: Branch)
  {
    ThreadNext(c, s, s', t, b) || ColNext(c, s, s', b) || (b.Meet? && MeetNext(c, s, s', t))
  }

  ghost predicate Steps(c: Config, s: State, s': State)
  {
    exists t, b :: Next(c, s, s', t, b)
  }

  ghost predicate StepAt(c: Config, run: seq<State>, k: int)
    requires 0 < k < |run|
  {
    Steps(c, run[k - 1], run[k])
  }

  ghost predicate IsRun(c: Config, run: seq<State>)
  {
    && run != []
    && run[0] == Init()
    && forall k :: 0 < k < |run| ==> StepAt(c, run, k)
  }

  // ----- What every step keeps -----

  ghost predicate Counters(s: State)
  {
    && s.sh.readers == |At(s.threads, HoldsRead)|
    && (if s.sh.writer then 1 else 0) == |At(s.threads, HoldsWrite)|
    && (s.sh.writer ==> s.sh.readers == 0)
  }

  /** What was flushed, then what is buffered, then what is in the channel, is what was
      sent, in order; batches have 1 to maxSize items. */
  ghost predicate Ordered(c: Config, h: Shared)
  {
    && Flat(h.flushed) + h.buf + h.rest + h.input == h.accepted
    && |h.input| <= c.bufferCap
    && (forall k :: 0 <= k < |h.flushed| ==> 1 <= |h.flushed[k]| <= c.maxSize)
  }

  ghost predicate ColOk(c: Config, h: Shared, col: ColPc)
  {
    && |h.buf| <= c.maxSize && (|h.buf| == c.maxSize ==> col.ColFull?)
    && (col.ColStop? || col.ColGone? ==> h.buf == [])
    && (!col.ColGone? ==> h.rest == [] && !h.locked)
    && (h.writer ==> h.locked)
    && (!h.writer ==> h.rest == [] && (h.locked ==> |Flat(h.flushed)| == h.lockMark))
    && (h.writer ==> |h.accepted| == h.lockMark)
    && (col.ColGone? ==> h.done)
    && (col.ColDrain? || col.ColLast? || col.ColStop? || (col.ColFull? && col.next.Draining?) ==> h.done)
  }

  /** What holds of the thread t at p. */
  ghost predicate ThreadOk(c: Config, t: nat, h: Shared, gone: bool, p: Pc)
  {
    match p
    case Add(a) => p.HasReceipt() ==> p.Receipt().0 < |h.accepted| && h.accepted[p.Receipt().0] == p.Receipt().1
    case Flush(f) =>
      && f.mark <= |h.accepted|
      && (t in h.acks ==> f.mark <= |Flat(h.flushed)|)
      && (f.FlushDone? && f.acked ==> t in h.acks)
    case Close(x) =>
      && (!x.CloseStart? ==> h.done)
      && (x.AfterCollector() ==> gone)
      && (x.CloseDrain? ==> |h.rest| < c.maxSize)
      && (x.CloseFull? || x.CloseLast? ==> 1 <= |h.rest| <= c.maxSize)
      && (x.CloseLast? || x.CloseUnlock? ==> h.input == [])
      && (x.CloseUnlock? ==> h.rest == [])
      && (x.HoldsWrite() ==> x.mark == h.lockMark)
      && (x.CloseReturned? ==> x.mark <= |Flat(h.flushed)|)
  }

  /** A Flush request on its way is for a Flush call, and is acknowledged only after what
      was sent before the call is flushed. */
  ghost predicate AckOk(m: map<nat, Pc>, h: Shared, col: ColPc)
  {
    && (forall k :: 0 <= k < |h.requests| ==> h.requests[k] in m && m[h.requests[k]].Flush?)
    && (forall a :: a in h.acks ==> a in m)
    && (col.ColAckDrain? || col.ColAckFlush? || col.ColAckClose? ==> col.ack in m && m[col.ack].Flush?)
    && (col.ColFull? && col.next.Acking? ==> col.next.ack in m && m[col.next.ack].Flush?)
    && (col.ColAckFlush? ==> m[col.ack].f.mark <= |Flat(h.flushed)| + |h.buf|)
    && (col.ColAckClose? ==> m[col.ack].f.mark <= |Flat(h.flushed)|)
  }

  /** Every place in the send order belongs to exactly one Add call that sent. */
  ghost predicate Receipts(m: map<nat, Pc>, h: Shared)
  {
    && (forall t :: t in m && m[t].HasReceipt() ==> m[t].Receipt().0 < |h.accepted|)
    && (forall t, u :: t in m && u in m && t != u ==>
          m[t].HasReceipt() && m[u].HasReceipt() ==> m[t].Receipt().0 != m[u].Receipt().0)
    && (forall i: nat :: i < |h.accepted| ==> Told(m, i))
  }

  ghost predicate Told(m: map<nat, Pc>, i: nat)
  {
    exists t :: t in m && m[t].HasReceipt() && m[t].Receipt().0 == i
  }

  ghost predicate Inv(c: Config, s: State)
  {
    && Counters(s)
    && Ordered(c, s.sh)
    && ColOk(c, s.sh, s.col)
    && AllOk(c, s.threads, s.sh, s.col.ColGone?)
    && AckOk(s.threads, s.sh, s.col)
    && Receipts(s.threads, s.sh)
  }

  // ----- Preservation: a thread acts -----

  function One(b: bool): int { if b then 1 else 0 }

  lemma FlatSnoc(batches: seq<seq<Item>>, b: seq<Item>)
    ensures Flat(batches + [b]) == Flat(batches) + b
  {
    assert (batches + [b])[..|batches|] == batches;
  }

  ghost predicate Balanced(h: Shared, h': Shared, p: Pc, p': Pc)
  {
    && h'.readers - h.readers == One(HoldsRead(p')) - One(HoldsRead(p))
    && One(h'.writer) - One(h.writer) == One(HoldsWrite(p')) - One(HoldsWrite(p))
    && (HoldsRead(p') && !HoldsRead(p) ==> !h.writer)
    && (HoldsWrite(p') && !HoldsWrite(p) ==> h.readers == 0)
  }

  /** The logs only grow, and only the holder of a lock touches the channel. */
  ghost predicate Grows(h: Shared, h': Shared)
  {
    && |h.accepted| <= |h'.accepted| && h'.accepted[..|h.accepted|] == h.accepted
    && |Flat(h.flushed)| <= |Flat(h'.flushed)|
    && h.acks == h'.acks && (h.done ==> h'.done)
  }

  ghost predicate SameDrain(h: Shared, h': Shared)
  {
    h'.rest == h.rest && h'.input == h.input && h'.lockMark == h.lockMark
  }

  ghost predicate Receives(h: Shared, h': Shared, p: Pc, p': Pc)
  {
    if p.HasReceipt() then p'.HasReceipt() && p'.Receipt() == p.Receipt() && h'.accepted == h.accepted
    else if p'.HasReceipt() then p'.Receipt().0 == |h.accepted| && h'.accepted == h.accepted + [p'.Receipt().1]
    else h'.accepted == h.accepted
  }

  /** The locks the actor holds are the ones the shared state shows. */
  ghost predicate LocksOk(h: Shared, p: Pc)
  {
    (HoldsWrite(p) ==> h.writer) && (HoldsRead(p) ==> !h.writer)
  }

  ghost predicate Effect(c: Config, t: nat, gone: bool, col: ColPc, h: Shared, p: Pc, h': Shared, p': Pc)
  {
    && Balanced(h, h', p, p')
    && Grows(h, h') && Receives(h, h', p, p')
    && (SameDrain(h, h') || HoldsRead(p) || HoldsWrite(p) || HoldsWrite(p'))
    && Ordered(c, h') && ColOk(c, h', col) && h'.buf == h.buf
    && ThreadOk(c, t, h', gone, p')
    && (h'.requests == h.requests || (p.Flush? && h'.requests == h.requests + [t]))
    && (p'.Flush? <==> p.Flush?) && (p.Flush? ==> p'.f.mark == p.f.mark)
  }

  lemma AddEffect(c: Config, t: nat, b: Branch, col: ColPc, h: Shared, q: AddPc)
    requires c.Valid() && AddReady(c, h, q, b) && LocksOk(h, Add(q)) && Ordered(c, h) && ColOk(c, h, col)
    requires ThreadOk(c, t, h, col.ColGone?, Add(q))
    ensures var (h', q') := AddStep(c, h, q, b); Effect(c, t, col.ColGone?, col, h, Add(q), h', Add(q'))
  {
    var (h', q') := AddStep(c, h, q, b);
    if b.Send? {
      assert Flat(h.flushed) + h.buf + h.rest + h'.input == Flat(h.flushed) + h.buf + h.rest + h.input + [q.item];
    }
  }

  lemma FlushEffect(c: Config, t: nat, b: Branch, col: ColPc, h: Shared, q: FlushPc)
    requires c.Valid() && FlushReady(h, t, q, b) && Ordered(c, h) && ColOk(c, h, col)
    requires ThreadOk(c, t, h, col.ColGone?, Flush(q))
    ensures var (h', q') := FlushStep(h, t, q, b); Effect(c, t, col.ColGone?, col, h, Flush(q), h', Flush(q'))
  {
  }

  /** Moving the head of the channel to a buffer, or a buffer into the log, keeps the order. */
  lemma Shift(a: seq<Item>, buf: seq<Item>, rest: seq<Item>, input: seq<Item>)
    requires input != []
    ensures a + buf + (rest + [input[0]]) + input[1..] == a + buf + rest + input
    ensures rest == [] ==> a + (buf + [input[0]]) + rest + input[1..] == a + buf + rest + input
  {
    assert [input[0]] + input[1..] == input;
  }

  lemma EmitBuf(flushed: seq<seq<Item>>, buf: seq<Item>, rest: seq<Item>, input: seq<Item>)
    ensures Flat(flushed + [buf]) + [] + rest + input == Flat(flushed) + buf + rest + input
  {
    FlatSnoc(flushed, buf);
    assert Flat(flushed) + buf + [] == Flat(flushed) + buf;
  }

  lemma EmitRest(flushed: seq<seq<Item>>, rest: seq<Item>, input: seq<Item>)
    ensures Flat(flushed + [rest]) + [] + [] + input == Flat(flushed) + [] + rest + input
  {
    FlatSnoc(flushed, rest);
    assert Flat(flushed) + rest + [] + [] == Flat(flushed) + [] + rest;
  }

  lemma CloseEffect(c: Config, t: nat, b: Branch, col: ColPc, h: Shared, q: ClosePc)
    requires c.Valid() && CloseReady(h, col.ColGone?, q, b) && LocksOk(h, Close(q)) && Ordered(c, h) && ColOk(c, h, col)
    requires ThreadOk(c, t, h, col.ColGone?, Close(q))
    ensures var (h', q') := CloseStep(c, h, col.ColGone?, q, b);
      Effect(c, t, col.ColGone?, col, h, Close(q), h', Close(q'))
  {
    match q
    case CloseStart => StartEffect(c, t, col, h);
    case CloseWait => WaitEffect(c, t, col, h);
    case CloseLock => LockEffect(c, t, col, h);
    case CloseDrain(m) => DrainEffect(c, t, b, col, h, m);
    case CloseFull(m) => FullEffect(c, t, col, h, m);
    case CloseLast(m) => LastEffect(c, t, col, h, m);
    case CloseUnlock(m) => UnlockEffect(c, t, col, h, m);
  }

  lemma StartEffect(c: Config, t: nat, col: ColPc, h: Shared)
    requires Ordered(c, h) && ColOk(c, h, col)
    ensures Effect(c, t, col.ColGone?, col, h, Close(CloseStart), h.(done := true), Close(CloseWait))
  {
  }

  lemma WaitEffect(c: Config, t: nat, col: ColPc, h: Shared)
    requires Ordered(c, h) && ColOk(c, h, col) && col.ColGone? && ThreadOk(c, t, h, true, Close(CloseWait))
    ensures Effect(c, t, true, col, h, Close(CloseWait), h, Close(CloseLock))
  {
  }

  lemma LockEffect(c: Config, t: nat, col: ColPc, h: Shared)
    requires c.Valid() && Ordered(c, h) && ColOk(c, h, col) && ThreadOk(c, t, h, col.ColGone?, Close(CloseLock))
    requires !h.writer && h.readers == 0
    ensures var h' := h.(writer := true, locked := true, lockMark := |h.accepted|);
      Effect(c, t, col.ColGone?, col, h, Close(CloseLock), h', Close(CloseDrain(|h.accepted|)))
  {
  }

  lemma UnlockEffect(c: Config, t: nat, col: ColPc, h: Shared, m: nat)
    requires Ordered(c, h) && ColOk(c, h, col) && h.writer && ThreadOk(c, t, h, col.ColGone?, Close(CloseUnlock(m)))
    ensures Effect(c, t, col.ColGone?, col, h, Close(CloseUnlock(m)), h.(writer := false), Close(CloseReturned(m)))
  {
    assert Flat(h.flushed) + [] + [] + [] == Flat(h.flushed);
  }

  lemma DrainEffect(c: Config, t: nat, b: Branch, col: ColPc, h: Shared, m: nat)
    requires c.Valid() && CloseReady(h, col.ColGone?, CloseDrain(m), b) && h.writer && Ordered(c, h) && ColOk(c, h, col)
    requires ThreadOk(c, t, h, col.ColGone?, Close(CloseDrain(m)))
    ensures var (h', q') := CloseStep(c, h, col.ColGone?, CloseDrain(m), b);
            Effect(c, t, col.ColGone?, col, h, Close(CloseDrain(m)), h', Close(q'))
  {
    if b.Receive? {
      Shift(Flat(h.flushed), h.buf, h.rest, h.input);
    }
  }

  lemma FullEffect(c: Config, t: nat, col: ColPc, h: Shared, m: nat)
    requires c.Valid() && h.writer && Ordered(c, h) && ColOk(c, h, col)
    requires ThreadOk(c, t, h, col.ColGone?, Close(CloseFull(m)))
    ensures var h' := h.(flushed := h.flushed + [h.rest], rest := []);
            Effect(c, t, col.ColGone?, col, h, Close(CloseFull(m)), h', Close(CloseDrain(m)))
  {
    RestOrdered(c, h);
    FlatSnoc(h.flushed, h.rest);
  }

  lemma LastEffect(c: Config, t: nat, col: ColPc, h: Shared, m: nat)
    requires c.Valid() && h.writer && Ordered(c, h) && ColOk(c, h, col)
    requires ThreadOk(c, t, h, col.ColGone?, Close(CloseLast(m)))
    ensures var h' := h.(flushed := h.flushed + [h.rest], rest := []);
            Effect(c, t, col.ColGone?, col, h, Close(CloseLast(m)), h', Close(CloseUnlock(m)))
  {
    RestOrdered(c, h);
    FlatSnoc(h.flushed, h.rest);
  }

  lemma RestOrdered(c: Config, h: Shared)
    requires Ordered(c, h) && h.buf == [] && 1 <= |h.rest| <= c.maxSize
    ensures Ordered(c, h.(flushed := h.flushed + [h.rest], rest := []))
  {
    EmitRest(h.flushed, h.rest, h.input);
  }

  lemma StepEffect(c: Config, t: nat, b: Branch, col: ColPc, h: Shared, p: Pc, h': Shared, p': Pc)
    requires c.Valid() && Acts(c, t, b, col.ColGone?, h, p, h', p')
    requires LocksOk(h, p) && Ordered(c, h) && ColOk(c, h, col) && ThreadOk(c, t, h, col.ColGone?, p)
    ensures Effect(c, t, col.ColGone?, col, h, p, h', p')
  {
    match p
    case Add(q) => AddEffect(c, t, b, col, h, q);
    case Flush(q) => FlushEffect(c, t, b, col, h, q);
    case Close(q) => CloseEffect(c, t, b, col, h, q);
  }

  lemma OtherOk(c: Config, gone: bool, h: Shared, h': Shared, u: nat, q: Pc)
    requires ThreadOk(c, u, h, gone, q) && Grows(h, h') && (HoldsWrite(q) ==> SameDrain(h, h'))
    ensures ThreadOk(c, u, h', gone, q)
  {
    if q.HasReceipt() {
      assert h'.accepted[..|h.accepted|][q.Receipt().0] == h.accepted[q.Receipt().0];
    }
  }

  lemma ReceiptsKept(m: map<nat, Pc>, t: nat, h: Shared, p': Pc, h': Shared)
    requires Receipts(m, h) && t in m && Receives(h, h', m[t], p')
    ensures Receipts(m[t := p'], h')
  {
    var m' := m[t := p'];
    forall i: nat | i < |h'.accepted| ensures Told(m', i) {
      if i < |h.accepted| {
        assert Told(m, i);
        var u :| u in m && m[u].HasReceipt() && m[u].Receipt().0 == i;
        assert m'[u].HasReceipt() && m'[u].Receipt().0 == i;
      } else {
        assert m'[t].HasReceipt() && m'[t].Receipt().0 == i;
      }
    }
  }

  lemma AcksKept(c: Config, m: map<nat, Pc>, t: nat, gone: bool, col: ColPc, h: Shared, p': Pc, h': Shared)
    requires AckOk(m, h, col) && t in m && Effect(c, t, gone, col, h, m[t], h', p')
    ensures AckOk(m[t := p'], h', col)
  {
    var m' := m[t := p'];
    assert forall a :: a in m && m[a].Flush? ==> a in m' && m'[a].Flush? && m'[a].f.mark == m[a].f.mark;
    forall k | 0 <= k < |h'.requests| ensures h'.requests[k] in m' && m'[h'.requests[k]].Flush? {
      if k < |h.requests| {
        assert h'.requests[k] == h.requests[k];
      }
    }
  }

  lemma LocksAgree(s: State, t: nat)
    requires Counters(s) && t in s.threads
    ensures LocksOk(s.sh, s.threads[t])
    ensures forall u :: u in s.threads && u != t && HoldsWrite(s.threads[u]) ==>
              !HoldsWrite(s.threads[t]) && !HoldsRead(s.threads[t]) && s.sh.writer
  {
    AtFew(s.threads, HoldsWrite);
    AtFew(s.threads, HoldsRead);
  }

  lemma CountersKept(s: State, s': State, t: nat)
    requires Counters(s) && t in s.threads && t in s'.threads
    requires s'.threads == s.threads[t := s'.threads[t]]
    requires Balanced(s.sh, s'.sh, s.threads[t], s'.threads[t])
    ensures Counters(s')
  {
    AtUpdate(s.threads, t, s'.threads[t], HoldsRead);
    AtUpdate(s.threads, t, s'.threads[t], HoldsWrite);
  }

  lemma InvActs(c: Config, s: State, s': State, t: nat, b: Branch)
    requires c.Valid() && Inv(c, s) && t in s.threads && ThreadNext(c, s, s', t, b)
    ensures Inv(c, s')
  {
    var p, p' := s.threads[t], s'.threads[t];
    LocksAgree(s, t);
    StepEffect(c, t, b, s.col, s.sh, p, s'.sh, p');
    CountersKept(s, s', t);
    AcksKept(c, s.threads, t, s.col.ColGone?, s.col, s.sh, p', s'.sh);
    ReceiptsKept(s.threads, t, s.sh, p', s'.sh);
    OthersKept(c, s, s', t);
  }

  lemma OthersKept(c: Config, s: State, s': State, t: nat)
    requires t in s.threads && t in s'.threads && s'.threads == s.threads[t := s'.threads[t]] && s'.col == s.col
    requires forall u :: u in s.threads ==> ThreadOk(c, u, s.sh, s.col.ColGone?, s.threads[u])
    requires forall u :: u in s.threads && u != t && HoldsWrite(s.threads[u]) ==>
              !HoldsWrite(s.threads[t]) && !HoldsRead(s.threads[t]) && s.sh.writer
    requires Effect(c, t, s.col.ColGone?, s.col, s.sh, s.threads[t], s'.sh, s'.threads[t])
    ensures forall u :: u in s'.threads ==> ThreadOk(c, u, s'.sh, s'.col.ColGone?, s'.threads[u])
  {
    forall u | u in s'.threads ensures ThreadOk(c, u, s'.sh, s'.col.ColGone?, s'.threads[u]) {
      if u != t {
        OtherOk(c, s.col.ColGone?, s.sh, s'.sh, u, s.threads[u]);
      }
    }
  }

  /** A thread that starts a call. */
  ghost predicate NewCall(h: Shared, p: Pc)
  {
    match p
    case Add(a) => a.AddStart?
    case Flush(f) => f == FlushStart(|h.accepted|)
    case Close(x) => x.CloseStart?
  }

  lemma CallIs(c: Config, s: State, s': State, t: nat, b: Branch)
    requires t !in s.threads && ThreadNext(c, s, s', t, b)
    ensures t in s'.threads && s' == s.(threads := s.threads[t := s'.threads[t]]) && NewCall(s.sh, s'.threads[t])
  {
  }

  lemma CallCounts(m: map<nat, Pc>, t: nat, h: Shared, p: Pc)
    requires t !in m && NewCall(h, p)
    ensures |At(m[t := p], HoldsRead)| == |At(m, HoldsRead)| && |At(m[t := p], HoldsWrite)| == |At(m, HoldsWrite)|
  {
    AtUpdate(m, t, p, HoldsRead);
    AtUpdate(m, t, p, HoldsWrite);
  }

  lemma CallOk(c: Config, t: nat, h: Shared, gone: bool, p: Pc)
    requires NewCall(h, p) && t !in h.acks
    ensures ThreadOk(c, t, h, gone, p) && !p.HasReceipt()
  {
  }

  lemma InvCalls(c: Config, s: State, s': State, t: nat, b: Branch)
    requires Inv(c, s) && t !in s.threads && ThreadNext(c, s, s', t, b)
    ensures Inv(c, s')
  {
    CallIs(c, s, s', t, b);
    var p := s'.threads[t];
    CallCounts(s.threads, t, s.sh, p);
    CallOk(c, t, s.sh, s.col.ColGone?, p);
    ReceiptsStay(s.threads, t, p, s.sh);
    AcksStay(s.threads, t, p, s.sh, s.col);
    CallThreads(c, s.threads, t, s.sh, s.col.ColGone?, p);
  }

  lemma CallThreads(c: Config, m: map<nat, Pc>, t: nat, h: Shared, gone: bool, p: Pc)
    requires ThreadOk(c, t, h, gone, p) && AllOk(c, m, h, gone)
    ensures AllOk(c, m[t := p], h, gone)
  {
  }

  ghost predicate AllOk(c: Config, m: map<nat, Pc>, h: Shared, gone: bool)
  {
    forall u :: u in m ==> ThreadOk(c, u, h, gone, m[u])
  }

  lemma ReceiptsStay(m: map<nat, Pc>, t: nat, p: Pc, h: Shared)
    requires t !in m && Receipts(m, h) && !p.HasReceipt()
    ensures Receipts(m[t := p], h)
  {
    var m' := m[t := p];
    forall i: nat | i < |h.accepted| ensures Told(m', i) {
      assert Told(m, i);
      var u :| u in m && m[u].HasReceipt() && m[u].Receipt().0 == i;
      assert m'[u] == m[u];
    }
  }

  lemma AcksStay(m: map<nat, Pc>, t: nat, p: Pc, h: Shared, col: ColPc)
    requires t !in m && AckOk(m, h, col)
    ensures AckOk(m[t := p], h, col)
  {
  }

  // ----- Preservation: the collector acts -----

  /** Emit hands the whole buffer over, so what was sent before is flushed. */
  lemma EmitEffect(c: Config, h: Shared)
    requires Ordered(c, h) && |h.buf| <= c.maxSize
    ensures Ordered(c, Emit(h)) && Emit(h).buf == []
    ensures |Flat(Emit(h).flushed)| == |Flat(h.flushed)| + |h.buf|
  {
    if h.buf != [] {
      FlatSnoc(h.flushed, h.buf);
      EmitBuf(h.flushed, h.buf, h.rest, h.input);
    }
  }

  ghost predicate ColEffect(c: Config, h: Shared, col: ColPc, h': Shared, col': ColPc)
  {
    && Ordered(c, h') && ColOk(c, h', col')
    && h'.readers == h.readers && h'.writer == h.writer && h'.done == h.done && h'.accepted == h.accepted
    && |Flat(h.flushed)| <= |Flat(h'.flushed)|
    && (h'.acks == h.acks || (col.ColAckClose? && h'.acks == h.acks + {col.ack}))
  }

  lemma ReceiveEffect(c: Config, h: Shared, col: ColPc)
    requires c.Valid() && h.input != [] && col.Receiving() && Ordered(c, h) && ColOk(c, h, col)
    ensures var (h', col') := ColStep(c, h, col, Receive); ColEffect(c, h, col, h', col')
  {
    Shift(Flat(h.flushed), h.buf, h.rest, h.input);
  }

  lemma OtherEffect(c: Config, h: Shared, col: ColPc, b: Branch)
    requires c.Valid() && !b.Receive? && ColReady(h, col, b) && Ordered(c, h) && ColOk(c, h, col)
    ensures var (h', col') := ColStep(c, h, col, b); ColEffect(c, h, col, h', col')
  {
    if col.ColFull? || col.ColTick? || col.ColAckFlush? || col.ColLast? {
      EmitKeeps(c, h, col, b);
    }
  }

  lemma EmitKeeps(c: Config, h: Shared, col: ColPc, b: Branch)
    requires c.Valid() && (col.ColFull? || col.ColTick? || col.ColAckFlush? || col.ColLast?)
    requires ColReady(h, col, b) && !b.Receive? && Ordered(c, h) && ColOk(c, h, col)
    ensures var (h', col') := ColStep(c, h, col, b); ColEffect(c, h, col, h', col')
  {
    EmitEffect(c, h);
  }

  lemma ColStepEffect(c: Config, h: Shared, col: ColPc, b: Branch)
    requires c.Valid() && ColReady(h, col, b) && Ordered(c, h) && ColOk(c, h, col)
    ensures var (h', col') := ColStep(c, h, col, b); ColEffect(c, h, col, h', col')
  {
    if b.Receive? {
      ReceiveEffect(c, h, col);
    } else {
      OtherEffect(c, h, col, b);
    }
  }

  /** When the channel is seen empty, everything sent before is flushed or in the buffer. */
  lemma ColAcks(c: Config, m: map<nat, Pc>, h: Shared, col: ColPc, b: Branch)
    requires ColReady(h, col, b) && ColOk(c, h, col) && AckOk(m, h, col) && Ordered(c, h)
    requires forall a :: a in m && m[a].Flush? ==> m[a].f.mark <= |h.accepted|
    ensures var (h', col') := ColStep(c, h, col, b); AckOk(m, h', col')
  {
    if b.Receive? {
      ReceiveAcks(c, m, h, col);
    } else if col.ColAckDrain? {
      assert Flat(h.flushed) + h.buf + h.rest + h.input == h.accepted;
    } else if col.ColAckFlush? {
      EmitEffect(c, h);
    } else if col.ColAckClose? {
      assert ColStep(c, h, col, b) == (h.(acks := h.acks + {col.ack}), ColSelect);
    } else if col.ColSelect? && b.Request? {
      assert forall k :: 0 <= k < |h.requests[1..]| ==> h.requests[1..][k] == h.requests[k + 1];
    } else {
      EmitAcks(c, m, h, col, b);
    }
  }

  lemma ReceiveAcks(c: Config, m: map<nat, Pc>, h: Shared, col: ColPc)
    requires ColReady(h, col, Receive) && ColOk(c, h, col) && AckOk(m, h, col)
    ensures var (h', col') := ColStep(c, h, col, Receive); AckOk(m, h', col')
  {
  }

  lemma EmitAcks(c: Config, m: map<nat, Pc>, h: Shared, col: ColPc, b: Branch)
    requires ColReady(h, col, b) && AckOk(m, h, col) && !b.Receive? && !b.Request?
    requires !col.ColAckDrain? && !col.ColAckFlush? && !col.ColAckClose?
    ensures var (h', col') := ColStep(c, h, col, b); AckOk(m, h', col')
  {
  }

  lemma ColOthers(c: Config, u: nat, h: Shared, col: ColPc, h': Shared, col': ColPc, q: Pc)
    requires ThreadOk(c, u, h, false, q) && ColEffect(c, h, col, h', col')
    requires u in h'.acks && q.Flush? ==> q.f.mark <= |Flat(h'.flushed)|
    ensures ThreadOk(c, u, h', col'.ColGone?, q)
  {
  }

  lemma InvCollects(c: Config, s: State, s': State, b: Branch)
    requires c.Valid() && Inv(c, s) && ColNext(c, s, s', b)
    ensures Inv(c, s')
  {
    ColStepEffect(c, s.sh, s.col, b);
    forall a | a in s.threads && s.threads[a].Flush? ensures s.threads[a].f.mark <= |s.sh.accepted| {
      assert ThreadOk(c, a, s.sh, s.col.ColGone?, s.threads[a]);
    }
    ColAcks(c, s.threads, s.sh, s.col, b);
    forall u | u in s'.threads ensures ThreadOk(c, u, s'.sh, s'.col.ColGone?, s'.threads[u]) {
      ColOthers(c, u, s.sh, s.col, s'.sh, s'.col, s.threads[u]);
    }
  }

  /** An unbuffered send puts the item at the end of the collector's buffer. */
  lemma InvMeets(c: Config, s: State, s': State, t: nat)
    requires c.Valid() && Inv(c, s) && MeetNext(c, s, s', t)
    ensures Inv(c, s')
  {
    LocksAgree(s, t);
    MeetShared(c, s.sh, s.col, s.threads[t].a.item);
    CountersKept(s, s', t);
    ReceiptsKept(s.threads, t, s.sh, s'.threads[t], s'.sh);
    MeetAcks(c, s, s', t);
    MeetOthers(c, s, s', t);
  }

  /** What the meeting makes of the shared state. */
  lemma MeetShared(c: Config, h: Shared, col: ColPc, x: Item)
    requires c.Valid() && Ordered(c, h) && ColOk(c, h, col) && c.bufferCap == 0 && col.Receiving()
    ensures var (h', col') := Collect(c, h.(accepted := h.accepted + [x]), col, x);
      Ordered(c, h') && ColOk(c, h', col') && !col'.ColGone?
  {
    assert Flat(h.flushed) + (h.buf + [x]) + [] + [] == Flat(h.flushed) + h.buf + [] + [] + [x];
  }

  lemma MeetAcks(c: Config, s: State, s': State, t: nat)
    requires AckOk(s.threads, s.sh, s.col) && MeetNext(c, s, s', t)
    ensures AckOk(s'.threads, s'.sh, s'.col)
  {
  }

  lemma MeetOthers(c: Config, s: State, s': State, t: nat)
    requires MeetNext(c, s, s', t)
    requires forall u :: u in s.threads ==> ThreadOk(c, u, s.sh, s.col.ColGone?, s.threads[u])
    requires forall u :: u in s.threads && u != t && HoldsWrite(s.threads[u]) ==> !HoldsRead(s.threads[t])
    ensures forall u :: u in s'.threads ==> ThreadOk(c, u, s'.sh, s'.col.ColGone?, s'.threads[u])
  {
    forall u | u in s'.threads ensures ThreadOk(c, u, s'.sh, s'.col.ColGone?, s'.threads[u]) {
      if u != t {
        OtherOk(c, false, s.sh, s'.sh, u, s.threads[u]);
      }
    }
  }

  // ----- Main results -----

  lemma {:induction false} RunsKeepInv(c: Config, run: seq<State>, k: nat)
    requires c.Valid() && IsRun(c, run) && k < |run|
    ensures Inv(c, run[k])
  {
    if k == 0 {
      assert At(Init().threads, HoldsRead) == {} == At(Init().threads, HoldsWrite);
    } else {
      RunsKeepInv(c, run, k - 1);
      assert StepAt(c, run, k);
      InvKept(c, run[k - 1], run[k]);
    }
  }

  lemma InvKept(c: Config, s: State, s': State)
    requires c.Valid() && Inv(c, s) && Steps(c, s, s')
    ensures Inv(c, s')
  {
    var t, b :| Next(c, s, s', t, b);
    if ColNext(c, s, s', b) {
      InvCollects(c, s, s', b);
    } else if b.Meet? && MeetNext(c, s, s', t) {
      InvMeets(c, s, s', t);
    } else if t in s.threads {
      InvActs(c, s, s', t, b);
    } else {
      InvCalls(c, s, s', t, b);
    }
  }

  /** At every moment of every run the batches handed to the callback, then the pending
      buffers, then the channel, are the sent items in send order, every batch has 1 to
      maxSize items, and the Add calls that sent own the places of the send order one to one. */
  lemma SendOrderKept(c: Config, run: seq<State>, k: nat)
    requires c.Valid() && IsRun(c, run) && k < |run|
    ensures var h := run[k].sh;
      && Flat(h.flushed) + h.buf + h.rest + h.input == h.accepted
      && (forall j :: 0 <= j < |h.flushed| ==> 1 <= |h.flushed[j]| <= c.maxSize)
    ensures forall i: nat :: i < |run[k].sh.accepted| ==> Told(run[k].threads, i)
    ensures forall t, u :: t in run[k].threads && u in run[k].threads && t != u ==>
      run[k].threads[t].HasReceipt() && run[k].threads[u].HasReceipt() ==>
      run[k].threads[t].Receipt().0 != run[k].threads[u].Receipt().0
    ensures forall t :: t in run[k].threads && run[k].threads[t].HasReceipt() ==>
      var (i, x) := run[k].threads[t].Receipt();
      i < |run[k].sh.accepted| && run[k].sh.accepted[i] == x
  {
    RunsKeepInv(c, run, k);
    forall t | t in run[k].threads && run[k].threads[t].HasReceipt()
      ensures var (i, x) := run[k].threads[t].Receipt();
              i < |run[k].sh.accepted| && run[k].sh.accepted[i] == x
    {
      assert ThreadOk(c, t, run[k].sh, run[k].col.ColGone?, run[k].threads[t]);
    }
  }

  lemma FlatIsPrefix(c: Config, h: Shared, m: nat)
    requires Ordered(c, h) && m <= |Flat(h.flushed)|
    ensures |Flat(h.flushed)| <= |h.accepted|
    ensures h.accepted[..|Flat(h.flushed)|] == Flat(h.flushed)
    ensures h.accepted[..m] == Flat(h.flushed)[..m]
  {
    assert h.accepted == Flat(h.flushed) + (h.buf + h.rest + h.input);
  }

  /** A Flush that returned through its ack: everything sent before the call was flushed,
      once and in order. */
  lemma FlushCovers(c: Config, run: seq<State>, k: nat, t: nat, mark: nat)
    requires c.Valid() && IsRun(c, run) && k < |run|
    requires t in run[k].threads && run[k].threads[t] == Flush(FlushDone(true, mark))
    ensures mark <= |Flat(run[k].sh.flushed)| <= |run[k].sh.accepted|
    ensures Flat(run[k].sh.flushed)[..mark] == run[k].sh.accepted[..mark]
  {
    RunsKeepInv(c, run, k);
    assert ThreadOk(c, t, run[k].sh, run[k].col.ColGone?, run[k].threads[t]);
    FlatIsPrefix(c, run[k].sh, mark);
  }

  /** A Close that returned: everything sent before it took the write lock was flushed,
      once and in order. */
  lemma CloseCovers(c: Config, run: seq<State>, k: nat, t: nat, mark: nat)
    requires c.Valid() && IsRun(c, run) && k < |run|
    requires t in run[k].threads && run[k].threads[t] == Close(CloseReturned(mark))
    ensures mark <= |Flat(run[k].sh.flushed)| <= |run[k].sh.accepted|
    ensures Flat(run[k].sh.flushed)[..mark] == run[k].sh.accepted[..mark]
  {
    RunsKeepInv(c, run, k);
    assert ThreadOk(c, t, run[k].sh, run[k].col.ColGone?, run[k].threads[t]);
    FlatIsPrefix(c, run[k].sh, mark);
  }

  /** After a Close, with no other Close draining, an item is flushed exactly when it was
      sent before a Close last took the write lock: an Add told "true" is delivered if and
      only if its send came first. */
  lemma FlushedIffSentBeforeLock(c: Config, run: seq<State>, k: nat)
    requires c.Valid() && IsRun(c, run) && k < |run| && run[k].sh.locked && !run[k].sh.writer
    ensures run[k].sh.lockMark <= |run[k].sh.accepted|
    ensures Flat(run[k].sh.flushed) == run[k].sh.accepted[..run[k].sh.lockMark]
    ensures forall t :: t in run[k].threads && run[k].threads[t].HasReceipt() ==>
      (run[k].threads[t].Receipt().0 < |Flat(run[k].sh.flushed)| <==>
       run[k].threads[t].Receipt().0 < run[k].sh.lockMark)
  {
    RunsKeepInv(c, run, k);
    FlatIsPrefix(c, run[k].sh, 0);
  }

  /** An Add that answered true before a Close was called: when that Close has returned, the
      item is flushed, in its place. */
  lemma AddBeforeCloseIsFlushed(c: Config, run: seq<State>, i: nat, k: nat, t: nat, u: nat, p: nat, x: Item, mark: nat)
    requires c.Valid() && IsRun(c, run) && i <= k < |run|
    requires t in run[i].threads && run[i].threads[t] == Add(AddDone(true, p, x)) && u !in run[i].threads
    requires u in run[k].threads && run[k].threads[u] == Close(CloseReturned(mark))
    ensures p < |Flat(run[k].sh.flushed)| && Flat(run[k].sh.flushed)[p] == x
  {
    RunsKeepInv(c, run, i);
    assert ThreadOk(c, t, run[i].sh, run[i].col.ColGone?, run[i].threads[t]);
    LockedLater(c, run, i, k, u);
    CloseCovers(c, run, k, u, mark);
    assert run[k].sh.accepted[..|run[i].sh.accepted|][p] == x;
    assert Flat(run[k].sh.flushed)[..mark][p] == run[k].sh.accepted[..mark][p];
  }

  /** The send order has grown from what it was at from, and if u holds or held the write lock
      it took it after that. */
  ghost predicate Since(s: State, u: nat, from: seq<Item>)
  {
    && |from| <= |s.sh.accepted| && s.sh.accepted[..|from|] == from
    && (u in s.threads && s.threads[u].Close? && s.threads[u].x.AfterLock() ==> s.threads[u].x.mark >= |from|)
  }

  lemma {:induction false} LockedLater(c: Config, run: seq<State>, i: nat, k: nat, u: nat)
    requires c.Valid() && IsRun(c, run) && i <= k < |run| && u !in run[i].threads
    ensures Since(run[k], u, run[i].sh.accepted)
    decreases k
  {
    if i < k {
      LockedLater(c, run, i, k - 1, u);
      assert StepAt(c, run, k);
      SinceKept(c, run[k - 1], run[k], u, run[i].sh.accepted);
    } else {
      assert run[i].sh.accepted[..|run[i].sh.accepted|] == run[i].sh.accepted;
    }
  }

  lemma SinceKept(c: Config, s: State, s': State, u: nat, from: seq<Item>)
    requires Steps(c, s, s') && Since(s, u, from)
    ensures Since(s', u, from)
  {
    var t, b :| Next(c, s, s', t, b);
    AcceptedGrows(c, s, s', t, b);
    GrownPrefix(s.sh.accepted, s'.sh.accepted, from);
    if u in s'.threads && s'.threads[u].Close? && s'.threads[u].x.AfterLock() {
      MarkSince(c, s, s', t, b, u);
    }
  }

  lemma AcceptedGrows(c: Config, s: State, s': State, t: nat, b: Branch)
    requires Next(c, s, s', t, b)
    ensures |s.sh.accepted| <= |s'.sh.accepted| && s'.sh.accepted[..|s.sh.accepted|] == s.sh.accepted
  {
    if ColNext(c, s, s', b) {
      ColSends(c, s.sh, s.col, b);
    } else if t in s.threads && !b.Meet? {
      ActSends(c, t, b, s.col.ColGone?, s.sh, s.threads[t], s'.sh, s'.threads[t]);
    }
  }

  lemma ColSends(c: Config, h: Shared, col: ColPc, b: Branch)
    requires ColReady(h, col, b)
    ensures ColStep(c, h, col, b).0.accepted == h.accepted
  {
  }

  lemma ActSends(c: Config, t: nat, b: Branch, gone: bool, h: Shared, p: Pc, h': Shared, p': Pc)
    requires Acts(c, t, b, gone, h, p, h', p')
    ensures h'.accepted == h.accepted || (p.Add? && h'.accepted == h.accepted + [p.a.item])
  {
  }

  lemma MarkSince(c: Config, s: State, s': State, t: nat, b: Branch, u: nat)
    requires Next(c, s, s', t, b) && u in s'.threads && s'.threads[u].Close? && s'.threads[u].x.AfterLock()
    ensures u in s.threads && s.threads[u].Close?
    ensures s'.threads[u].x.mark == |s.sh.accepted|
      || (s.threads[u].x.AfterLock() && s'.threads[u].x.mark == s.threads[u].x.mark)
  {
    if ThreadNext(c, s, s', t, b) && t == u && u in s.threads {
      MarkKept(c, b, s.col.ColGone?, s.sh, s.threads[u], s'.sh, s'.threads[u], t);
    }
  }

  lemma GrownPrefix(a: seq<Item>, b: seq<Item>, from: seq<Item>)
    requires |from| <= |a| <= |b| && a[..|from|] == from && b[..|a|] == a
    ensures b[..|from|] == from
  {
    assert b[..|from|] == b[..|a|][..|from|];
  }

  lemma MarkKept(c: Config, b: Branch, gone: bool, h: Shared, p: Pc, h': Shared, p': Pc, t: nat)
    requires Acts(c, t, b, gone, h, p, h', p')
    ensures p'.Close? && p'.x.AfterLock() ==>
      p.Close? && (p'.x.mark == |h.accepted| || (p.x.AfterLock() && p'.x.mark == p.x.mark))
  {
  }

  // ----- The item of a late Add is left in the channel -----

  lemma Extend(c: Config, run: seq<State>, s': State, t: nat, b: Branch) returns (longer: seq<State>)
    requires IsRun(c, run) && Next(c, run[|run| - 1], s', t, b)
    ensures IsRun(c, longer) && longer == run + [s']
  {
    longer := run + [s'];
    forall k | 0 < k < |longer| ensures StepAt(c, longer, k) {
      if k < |run| {
        assert StepAt(c, run, k);
        assert longer[k - 1] == run[k - 1] && longer[k] == run[k];
      } else {
        assert Steps(c, run[k - 1], s');
      }
    }
  }

  const TINY: Config := Config(1, 1)

  lemma LateAddStarts(x: Item) returns (run: seq<State>, s: State)
    ensures IsRun(TINY, run) && s == run[|run| - 1]
    ensures s == State(map[0 := Add(AddLock(x)), 1 := Close(CloseWait)], ColSelect, Init().sh.(done := true))
  {
    s := Init();
    run := [s];
    s := s.(threads := map[0 := Add(AddStart(x))]);
    run := Extend(TINY, run, s, 0, CallAdd(x));
    s := s.(threads := map[0 := Add(AddLock(x))]);
    run := Extend(TINY, run, s, 0, Go);
    s := s.(threads := map[0 := Add(AddLock(x)), 1 := Close(CloseStart)]);
    run := Extend(TINY, run, s, 1, CallClose);
    s := s.(threads := map[0 := Add(AddLock(x)), 1 := Close(CloseWait)], sh := s.sh.(done := true));
    run := Extend(TINY, run, s, 1, Go);
  }

  lemma LateAddStops(x: Item) returns (run: seq<State>, s: State)
    ensures IsRun(TINY, run) && s == run[|run| - 1]
    ensures s == State(map[0 := Add(AddLock(x)), 1 := Close(CloseWait)], ColGone, Init().sh.(done := true))
  {
    run, s := LateAddStarts(x);
    s := s.(col := ColDrain);
    run := Extend(TINY, run, s, 0, Done);
    s := s.(col := ColLast);
    run := Extend(TINY, run, s, 0, Default);
    s := s.(col := ColStop);
    run := Extend(TINY, run, s, 0, Go);
    s := s.(col := ColGone);
    run := Extend(TINY, run, s, 0, Go);
  }

  lemma LateAddCloses(x: Item) returns (run: seq<State>, s: State)
    ensures IsRun(TINY, run) && s == run[|run| - 1]
    ensures s == State(map[0 := Add(AddLock(x)), 1 := Close(CloseReturned(0))],
        ColGone, Init().sh.(done := true, locked := true))
  {
    run, s := LateAddStops(x);
    s := s.(threads := map[0 := Add(AddLock(x)), 1 := Close(CloseLock)]);
    run := Extend(TINY, run, s, 1, Go);
    s := s.(threads := map[0 := Add(AddLock(x)), 1 := Close(CloseDrain(0))],
        sh := s.sh.(writer := true, locked := true));
    run := Extend(TINY, run, s, 1, Go);
    s := s.(threads := map[0 := Add(AddLock(x)), 1 := Close(CloseUnlock(0))]);
    run := Extend(TINY, run, s, 1, Default);
    s := s.(threads := map[0 := Add(AddLock(x)), 1 := Close(CloseReturned(0))], sh := s.sh.(writer := false));
    run := Extend(TINY, run, s, 1, Go);
  }

  /** The promise "true means flushed" fails for an Add that passed the fast path before
      Close and sends after Close let the lock go: there is such a run. */
  lemma LateAddIsStranded(x: Item) returns (run: seq<State>, s: State)
    ensures TINY.Valid() && IsRun(TINY, run) && s == run[|run| - 1]
    ensures s.threads == map[0 := Add(AddDone(true, 0, x)), 1 := Close(CloseReturned(0))]
    ensures s.sh.accepted == [x] && Flat(s.sh.flushed) == [] && s.col.ColGone?
  {
    run, s := LateAddCloses(x);
    s := s.(threads := map[0 := Add(AddSelect(x)), 1 := Close(CloseReturned(0))], sh := s.sh.(readers := 1));
    run := Extend(TINY, run, s, 0, Go);
    s := s.(threads := map[0 := Add(AddLeave(true, 0, x)), 1 := Close(CloseReturned(0))],
            sh := s.sh.(input := [x], accepted := [x]));
    run := Extend(TINY, run, s, 0, Send);
    s := s.(threads := map[0 := Add(AddDone(true, 0, x)), 1 := Close(CloseReturned(0))], sh := s.sh.(readers := 0));
    run := Extend(TINY, run, s, 0, Go);
  }
}
