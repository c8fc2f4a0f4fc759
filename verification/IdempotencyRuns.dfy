/** The cache as a step system: Do calls run interleaved, each a locked section that enters,
    the work outside the lock, and a locked section that finishes. */
module IdempotencyRuns {
  import opened Idempotency
  import opened Sets
  import opened Arith

  datatype Role = Led | Followed | Cached

  datatype Pc =
    | Calling(key: string, now: int)          // the clock was read, the lock is not yet taken
    | Leading(key: string, e: nat)            // fn runs
    | Waiting(key: string, e: nat)            // waits on the entry's done
    | Returned(key: string, e: nat, role: Role, r: Result)
    | Cancelled

  /** One execution of fn, logged beside the entry that stands for it. */
  datatype Exec = Exec(key: string, leader: nat, startedAt: int, finishedAt: int)

  /** peak logs the largest number of entries that were in flight after a call entered. */
  datatype State = State(sh: Shared, log: seq<Exec>, threads: map<nat, Pc>, time: int, peak: nat)

  datatype Step = Call(key: string) | Enter(found: Entered) | Finish(result: Result) | Wake | Cancel | Tick(time: int)

  ghost predicate Init(s: State)
  {
    s.sh == Shared(map[], []) && s.log == [] && s.threads == map[] && s.peak == 0
  }

  ghost function Flying(h: Shared): set<string>
    requires h.Valid()
  {
    set k | k in h.entries && InFlight(h, k)
  }

  // ----- Steps -----

  ghost predicate EnterNext(c: Config, s: State, s': State, t: nat, r: Entered)
    requires s.sh.Valid() && t in s.threads && s.threads[t].Calling?
  {
    var p := s.threads[t];
    && s'.sh.Valid() && Enters(c, s.sh, s'.sh, p.key, p.now, r)
    && s'.log == (if r.Lead? then s.log + [Exec(p.key, t, s.time, s.time)] else s.log)
    && s'.peak == Max(s.peak, |Flying(s'.sh)|)
    && match r
       case Hit(e) =>
         && e < |s.sh.store| && s.sh.store[e].Completed()
         && s'.threads == s.threads[t := Returned(p.key, e, Cached, s.sh.store[e].result.value)]
       case Follow(e) => s'.threads == s.threads[t := Waiting(p.key, e)]
       case Lead(e) => s'.threads == s.threads[t := Leading(p.key, e)]
  }

  /** The call of thread t enters and finds r. */
  ghost predicate Entering(c: Config, s: State, s': State, t: nat, r: Entered)
  {
    && s.sh.Valid() && t in s.threads && s.threads[t].Calling?
    && s'.time == s.time && EnterNext(c, s, s', t, r)
  }

  ghost predicate FinishNext(c: Config, s: State, s': State, t: nat, r: Result)
    requires t in s.threads && s.threads[t].Leading?
  {
    var p := s.threads[t];
    && p.e < |s.sh.store| && p.e < |s.log|
    && s'.sh == Finished(c, s.sh, p.e, p.key, r, s.time)
    && s'.log == s.log[p.e := s.log[p.e].(finishedAt := s.time)]
    && s'.threads == s.threads[t := Returned(p.key, p.e, Led, r)]
    && s'.peak == s.peak
  }

  ghost predicate WakeNext(s: State, s': State, t: nat)
    requires t in s.threads && s.threads[t].Waiting?
  {
    var p := s.threads[t];
    && p.e < |s.sh.store| && s.sh.store[p.e].closes > 0 && s.sh.store[p.e].result.Some?
    && s' == s.(threads := s.threads[t := Returned(p.key, p.e, Followed, s.sh.store[p.e].result.value)])
  }

  ghost predicate Next(c: Config, s: State, s': State, t: nat, step: Step)
  {
    match step
    case Call(key) => t !in s.threads && s' == s.(threads := s.threads[t := Calling(key, s.time)])
    case Enter(r) => Entering(c, s, s', t, r)
    case Finish(r) => t in s.threads && s.threads[t].Leading? && s'.time == s.time && FinishNext(c, s, s', t, r)
    case Wake => t in s.threads && s.threads[t].Waiting? && WakeNext(s, s', t)
    case Cancel => t in s.threads && s.threads[t].Waiting? && s' == s.(threads := s.threads[t := Cancelled])
    case Tick(time) => time >= s.time && s' == s.(time := time)
  }

  ghost predicate Steps(c: Config, s: State, s': State)
  {
    exists t, step :: Next(c, s, s', t, step)
  }

  ghost predicate StepAt(c: Config, run: seq<State>, k: int)
    requires 0 < k < |run|
  {
    Steps(c, run[k - 1], run[k])
  }

  ghost predicate IsRun(c: Config, run: seq<State>)
  {
    && run != [] && Init(run[0])
    && forall k :: 0 < k < |run| ==> StepAt(c, run, k)
  }

  // ----- What every step keeps -----

  ghost predicate Keyed(s: State)
  {
    && |s.log| == |s.sh.store| && s.sh.Valid()
    && forall k :: k in s.sh.entries ==> s.log[s.sh.entries[k]].key == k
  }

  /** An entry is in the map while its leader runs; done was closed once if it is completed,
      never before; and the leader returned the result that the entry holds. */
  ghost predicate EntryOk(s: State, e: nat)
    requires e < |s.log| == |s.sh.store|
  {
    var x, y := s.log[e], s.sh.store[e];
    && x.leader in s.threads
    && (if y.Completed() then y.closes == 1 && s.threads[x.leader] == Returned(x.key, e, Led, y.result.value)
        else
          && y == UNFINISHED && s.threads[x.leader] == Leading(x.key, e)
          && x.key in s.sh.entries && s.sh.entries[x.key] == e)
  }

  ghost predicate ThreadOk(s: State, t: nat, p: Pc)
    requires |s.log| == |s.sh.store|
  {
    match p
    case Calling(_, now) => now <= s.time
    case Leading(key, e) => e < |s.log| && s.log[e].leader == t && s.log[e].key == key && !s.sh.store[e].Completed()
    case Waiting(key, e) => e < |s.log| && s.log[e].key == key
    case Returned(key, e, role, r) =>
      && e < |s.log| && s.log[e].key == key && s.sh.store[e].result == Some(r)
      && (role == Led ==> s.log[e].leader == t)
    case Cancelled => true
  }

  ghost predicate Inv(s: State)
  {
    && Keyed(s)
    && (forall e: nat :: e < |s.log| ==> EntryOk(s, e))
    && (forall t :: t in s.threads ==> ThreadOk(s, t, s.threads[t]))
  }

  lemma InvEnters(c: Config, s: State, s': State, t: nat, r: Entered)
    requires Inv(s) && Entering(c, s, s', t, r)
    ensures Inv(s')
  {
    if r.Lead? {
      InvLeads(c, s, s', t, r);
    } else {
      forall e: nat | e < |s'.log|
        ensures EntryOk(s', e)
      {
        assert EntryOk(s, e);
      }
      forall u | u in s'.threads
        ensures ThreadOk(s', u, s'.threads[u])
      {
        assert u != t ==> ThreadOk(s, u, s.threads[u]);
      }
    }
  }

  lemma InvLeads(c: Config, s: State, s': State, t: nat, r: Entered)
    requires Inv(s) && Entering(c, s, s', t, r) && r.Lead?
    ensures Inv(s')
  {
    var key, n := s.threads[t].key, |s.log|;
    var m := s.sh.entries[key := n];
    assert s'.sh.store[n] == UNFINISHED;
    forall e: nat | e < |s'.log|
      ensures EntryOk(s', e)
    {
      if e < n {
        assert EntryOk(s, e);
        assert s'.sh.store[e] == s.sh.store[e];
        var k := s.log[e].key;
        if !s.sh.store[e].Completed() {
          assert k != key && m[k] == e && !Dropped(m, s'.sh.entries, k);
        }
      } else {
        assert !Dropped(m, s'.sh.entries, key);
      }
    }
    forall u | u in s'.threads
      ensures ThreadOk(s', u, s'.threads[u])
    {
      assert u != t ==> ThreadOk(s, u, s.threads[u]);
    }
  }

  lemma InvFinishes(c: Config, s: State, s': State, t: nat, r: Result)
    requires Inv(s) && t in s.threads && s.threads[t].Leading? && s'.time == s.time && FinishNext(c, s, s', t, r)
    ensures Inv(s')
  {
    var p := s.threads[t];
    assert ThreadOk(s, t, p) && EntryOk(s, p.e);
    forall e: nat | e < |s'.log|
      ensures EntryOk(s', e)
    {
      assert EntryOk(s, e);
    }
    forall u | u in s'.threads
      ensures ThreadOk(s', u, s'.threads[u])
    {
      assert u != t ==> ThreadOk(s, u, s.threads[u]);
      if u != t && s.threads[u].Leading? {
        assert s.threads[u].e != p.e;
      }
    }
  }

  /** A step that moves one thread, which leads nothing before or after. */
  lemma InvMoves(s: State, s': State, t: nat, p: Pc)
    requires Inv(s) && s' == s.(threads := s.threads[t := p])
    requires t in s.threads ==> s.threads[t].Waiting?
    requires ThreadOk(s, t, p)
    ensures Inv(s')
  {
    forall e: nat | e < |s'.log|
      ensures EntryOk(s', e)
    {
      assert EntryOk(s, e);
    }
    forall u | u in s'.threads
      ensures ThreadOk(s', u, s'.threads[u])
    {
      assert u != t ==> ThreadOk(s, u, s.threads[u]);
    }
  }

  lemma InvTicks(s: State, s': State)
    requires Inv(s) && s'.time >= s.time && s' == s.(time := s'.time)
    ensures Inv(s')
  {
    forall e: nat | e < |s'.log|
      ensures EntryOk(s', e)
    {
      assert EntryOk(s, e);
    }
    forall u | u in s'.threads
      ensures ThreadOk(s', u, s'.threads[u])
    {
      assert ThreadOk(s, u, s.threads[u]);
    }
  }

  lemma InvKept(c: Config, s: State, s': State, t: nat, step: Step)
    requires Inv(s) && Next(c, s, s', t, step)
    ensures Inv(s')
  {
    match step
    case Call(key) => InvMoves(s, s', t, Calling(key, s.time));
    case Enter(r) => InvEnters(c, s, s', t, r);
    case Finish(r) => InvFinishes(c, s, s', t, r);
    case Wake =>
      assert ThreadOk(s, t, s.threads[t]);
      InvMoves(s, s', t, s'.threads[t]);
    case Cancel => InvMoves(s, s', t, Cancelled);
    case Tick(time) => InvTicks(s, s');
  }

  lemma {:induction false} RunsKeepInv(c: Config, run: seq<State>, k: nat)
    requires IsRun(c, run) && k < |run|
    ensures Inv(run[k])
  {
    if k > 0 {
      RunsKeepInv(c, run, k - 1);
      assert StepAt(c, run, k);
      var t, step :| Next(c, run[k - 1], run[k], t, step);
      InvKept(c, run[k - 1], run[k], t, step);
    }
  }

  // ----- Execution times -----

  ghost predicate Same(s: State, i: nat, j: nat)
  {
    i < j < |s.log| && s.log[i].key == s.log[j].key
  }

  ghost predicate Kept(c: Config, s: State, e: nat)
  {
    e < |s.sh.store| && s.sh.store[e].Completed() && c.Keeps(s.sh.store[e].result.value)
  }

  /** The moment has passed at which the result of e stops being served. */
  predicate After(c: Config, x: Exec, time: int) { c.ttl > 0 && time > x.finishedAt + c.ttl }

  /** With no cap a kept result stays in the map until it has expired. */
  ghost predicate Serves(c: Config, s: State, e: nat)
    requires e < |s.log| == |s.sh.store|
  {
    && s.sh.store[e].expiresAt == (if c.ttl > 0 then Some(s.log[e].finishedAt + c.ttl) else None)
    && (After(c, s.log[e], s.time) || (s.log[e].key in s.sh.entries && s.sh.entries[s.log[e].key] == e))
  }

  /** Executions of one key do not overlap, in the order of their starts. */
  ghost predicate Serial(s: State)
    requires |s.log| == |s.sh.store|
  {
    && (forall e: nat :: e < |s.log| ==> s.log[e].startedAt <= s.log[e].finishedAt <= s.time)
    && (forall i: nat, j: nat :: Same(s, i, j) ==>
      s.sh.store[i].Completed() && s.log[i].finishedAt <= s.log[j].startedAt)
  }

  ghost predicate Timed(c: Config, s: State)
    requires |s.log| == |s.sh.store|
  {
    && (forall e: nat :: Kept(c, s, e) ==> Serves(c, s, e))
    && (forall i: nat, j: nat :: Kept(c, s, i) && Same(s, i, j) ==> After(c, s.log[i], s.log[j].startedAt))
  }

  ghost predicate AllTimed(c: Config, s: State)
  {
    |s.log| == |s.sh.store| && Serial(s) && (c.maxEntries <= 0 ==> Timed(c, s))
  }

  lemma SerialLeads(c: Config, s: State, s': State, t: nat, r: Entered)
    requires Inv(s) && Serial(s)
    requires Entering(c, s, s', t, r) && r.Lead?
    ensures |s'.log| == |s'.sh.store| && Serial(s')
  {
    var n := |s.log|;
    forall i: nat, j: nat | Same(s', i, j)
      ensures s'.sh.store[i].Completed() && s'.log[i].finishedAt <= s'.log[j].startedAt
    {
      assert s'.sh.store[i] == s.sh.store[i] && s'.log[i] == s.log[i] && EntryOk(s, i);
      if j < n {
        assert Same(s, i, j);
      }
    }
  }

  /** A new leader finds the results of its key expired. */
  lemma KeptLeads(c: Config, s: State, s': State, t: nat, r: Entered, e: nat)
    requires Inv(s) && Timed(c, s) && c.maxEntries <= 0 && Kept(c, s', e)
    requires Entering(c, s, s', t, r) && r.Lead?
    ensures e < |s.log| && s'.log[e] == s.log[e] && Kept(c, s, e) && Serves(c, s', e)
    ensures s.log[e].key == s.threads[t].key ==> After(c, s.log[e], s.time)
  {
    var n, p := |s.log|, s.threads[t];
    assert ThreadOk(s, t, p);
    assert s'.sh.store[n] == UNFINISHED;
    assert s'.sh.store[e] == s.sh.store[e] && s'.log[e] == s.log[e];
    assert Kept(c, s, e) && Serves(c, s, e);
  }

  lemma TimedLeads(c: Config, s: State, s': State, t: nat, r: Entered)
    requires Inv(s) && Timed(c, s) && c.maxEntries <= 0
    requires Entering(c, s, s', t, r) && r.Lead?
    ensures |s'.log| == |s'.sh.store| && Timed(c, s')
  {
    forall e: nat | Kept(c, s', e)
      ensures Serves(c, s', e)
    {
      KeptLeads(c, s, s', t, r, e);
    }
    forall i: nat, j: nat | Kept(c, s', i) && Same(s', i, j)
      ensures After(c, s'.log[i], s'.log[j].startedAt)
    {
      KeptLeads(c, s, s', t, r, i);
      if j < |s.log| {
        assert Same(s, i, j);
      }
    }
  }

  lemma TimedFinishes(c: Config, s: State, s': State, t: nat, r: Result)
    requires Inv(s) && AllTimed(c, s)
    requires t in s.threads && s.threads[t].Leading? && s'.time == s.time && FinishNext(c, s, s', t, r)
    ensures AllTimed(c, s')
  {
    var n := s.threads[t].e;
    assert ThreadOk(s, t, s.threads[t]) && EntryOk(s, n);
    forall i: nat, j: nat | Same(s', i, j)
      ensures Same(s, i, j) && i != n
    {
      assert Same(s, i, j);
    }
    if c.maxEntries <= 0 {
      forall e: nat | Kept(c, s', e)
        ensures Serves(c, s', e)
      {
        if e != n {
          assert Kept(c, s, e) && Serves(c, s, e);
        }
      }
      forall i: nat, j: nat | Kept(c, s', i) && Same(s', i, j)
        ensures After(c, s'.log[i], s'.log[j].startedAt)
      {
        assert Same(s, i, j) && Kept(c, s, i);
      }
    }
  }

  /** Steps that change neither the entries nor the log. */
  lemma TimedIdles(c: Config, s: State, s': State)
    requires AllTimed(c, s) && s'.sh == s.sh && s'.log == s.log && s'.time >= s.time
    ensures AllTimed(c, s')
  {
    forall i: nat, j: nat | Same(s', i, j)
      ensures Same(s, i, j)
    {
    }
    if c.maxEntries <= 0 {
      forall e: nat | Kept(c, s', e)
        ensures Kept(c, s, e) && Serves(c, s', e)
      {
        assert Kept(c, s, e) && Serves(c, s, e);
      }
    }
  }

  lemma TimedKept(c: Config, s: State, s': State, t: nat, step: Step)
    requires Inv(s) && AllTimed(c, s) && Next(c, s, s', t, step)
    ensures AllTimed(c, s')
  {
    match step
    case Enter(r) =>
      if r.Lead? {
        SerialLeads(c, s, s', t, r);
        if c.maxEntries <= 0 {
          TimedLeads(c, s, s', t, r);
        }
      } else {
        TimedIdles(c, s, s');
      }
    case Finish(r) => TimedFinishes(c, s, s', t, r);
    case _ => TimedIdles(c, s, s');
  }

  lemma {:induction false} RunsKeepTimes(c: Config, run: seq<State>, k: nat)
    requires IsRun(c, run) && k < |run|
    ensures AllTimed(c, run[k])
  {
    if k > 0 {
      RunsKeepInv(c, run, k - 1);
      RunsKeepTimes(c, run, k - 1);
      assert StepAt(c, run, k);
      var t, step :| Next(c, run[k - 1], run[k], t, step);
      TimedKept(c, run[k - 1], run[k], t, step);
    }
  }

  // ----- Size -----

  ghost predicate Sized(c: Config, s: State)
  {
    c.maxEntries > 0 ==> |s.sh.entries| <= Max(c.maxEntries, s.peak)
  }

  lemma SizedKept(c: Config, s: State, s': State, t: nat, step: Step)
    requires Inv(s) && Sized(c, s) && Next(c, s, s', t, step)
    ensures Sized(c, s')
  {
    match step
    case Enter(r) =>
      var h := s'.sh;
      if c.maxEntries > 0 && r.Lead? && |h.entries| > c.maxEntries {
        assert forall k :: k in h.entries ==> !h.store[h.entries[k]].Completed();
        assert Flying(h) == h.entries.Keys;
      }
    case Finish(r) =>
      SubsetSize(s'.sh.entries.Keys, s.sh.entries.Keys);
      assert |s'.sh.entries| == |s'.sh.entries.Keys| && |s.sh.entries| == |s.sh.entries.Keys|;
    case _ =>
  }

  lemma {:induction false} RunsKeepSize(c: Config, run: seq<State>, k: nat)
    requires IsRun(c, run) && k < |run|
    ensures Sized(c, run[k])
  {
    if k > 0 {
      RunsKeepInv(c, run, k - 1);
      RunsKeepSize(c, run, k - 1);
      assert StepAt(c, run, k);
      var t, step :| Next(c, run[k - 1], run[k], t, step);
      SizedKept(c, run[k - 1], run[k], t, step);
    }
  }

  // ----- Main results -----

  /** A key has a running leader exactly when its map entry is in flight, the entry is that
      leader's, and no other call runs fn for the key. */
  lemma OneLeader(c: Config, run: seq<State>, k: nat, key: string)
    requires IsRun(c, run) && k < |run|
    ensures Inv(run[k])
    ensures var s := run[k];
      && (InFlight(s.sh, key) <==> exists t :: t in s.threads && s.threads[t].Leading? && s.threads[t].key == key)
      && (forall t :: t in s.threads && s.threads[t].Leading? && s.threads[t].key == key
            ==> s.threads[t].e == s.sh.entries[key] && s.log[s.sh.entries[key]].leader == t)
  {
    RunsKeepInv(c, run, k);
    var s := run[k];
    if InFlight(s.sh, key) {
      assert EntryOk(s, s.sh.entries[key]);
    }
    forall t | t in s.threads && s.threads[t].Leading? && s.threads[t].key == key
      ensures InFlight(s.sh, key) && s.threads[t].e == s.sh.entries[key] && s.log[s.sh.entries[key]].leader == t
    {
      assert ThreadOk(s, t, s.threads[t]) && EntryOk(s, s.threads[t].e);
    }
  }

  /** Every entry's done is closed once when it is completed, and not before, however its fn
      ended. */
  lemma ClosedOnce(c: Config, run: seq<State>, k: nat, e: nat)
    requires IsRun(c, run) && k < |run| && e < |run[k].sh.store|
    ensures run[k].sh.store[e].closes == if run[k].sh.store[e].Completed() then 1 else 0
  {
    RunsKeepInv(c, run, k);
    assert EntryOk(run[k], e);
  }

  /** A call that followed, or was served from the cache, returned what the leader of its own
      entry returned, for the same key. */
  lemma SameResult(c: Config, run: seq<State>, k: nat, t: nat)
    requires IsRun(c, run) && k < |run| && t in run[k].threads && run[k].threads[t].Returned?
    ensures var s, p := run[k], run[k].threads[t];
      exists u :: u in s.threads && s.threads[u] == Returned(p.key, p.e, Led, p.r)
  {
    RunsKeepInv(c, run, k);
    var s, p := run[k], run[k].threads[t];
    assert ThreadOk(s, t, p) && EntryOk(s, p.e);
    assert s.threads[s.log[p.e].leader] == Returned(p.key, p.e, Led, p.r);
  }

  ghost predicate CanWake(s: State, t: nat)
    requires t in s.threads && s.threads[t].Waiting?
  {
    exists s' :: WakeNext(s, s', t)
  }

  /** No follower hangs: it can return, or its leader still runs, and then however fn ends
      the follower can return. */
  lemma NoFollowerHangs(c: Config, run: seq<State>, k: nat, t: nat)
    requires IsRun(c, run) && k < |run| && t in run[k].threads && run[k].threads[t].Waiting?
    ensures var s, p := run[k], run[k].threads[t];
      || CanWake(s, t)
      || exists u :: u in s.threads && s.threads[u] == Leading(p.key, p.e)
           && forall s', r :: Next(c, s, s', u, Finish(r)) ==> s'.threads[t] == p && CanWake(s', t)
  {
    RunsKeepInv(c, run, k);
    var s, p := run[k], run[k].threads[t];
    assert ThreadOk(s, t, p) && EntryOk(s, p.e);
    if s.sh.store[p.e].Completed() {
      var q := Returned(p.key, p.e, Followed, s.sh.store[p.e].result.value);
      assert WakeNext(s, s.(threads := s.threads[t := q]), t);
    } else {
      var u := s.log[p.e].leader;
      forall s', r | Next(c, s, s', u, Finish(r))
        ensures s'.threads[t] == p && CanWake(s', t)
      {
        assert WakeNext(s', s'.(threads := s'.threads[t := Returned(p.key, p.e, Followed, r)]), t);
      }
    }
  }

  /** Executions for one key never overlap; with unbounded entries, one that follows a kept
      result starts only after that result's finish time plus the TTL, and with no TTL there
      is none. */
  lemma NotRerunBeforeExpiry(c: Config, run: seq<State>, k: nat, i: nat, j: nat)
    requires IsRun(c, run) && k < |run| && i < j < |run[k].log|
    requires run[k].log[i].key == run[k].log[j].key
    ensures |run[k].sh.store| == |run[k].log| && run[k].sh.store[i].Completed()
    ensures run[k].log[i].finishedAt <= run[k].log[j].startedAt
    ensures c.maxEntries <= 0 && (run[k].sh.store[i].result.value.err.None? || c.cacheErrors) ==>
      c.ttl > 0 && run[k].log[j].startedAt > run[k].log[i].finishedAt + c.ttl
  {
    RunsKeepTimes(c, run, k);
    assert Same(run[k], i, j);
    assert c.Keeps(run[k].sh.store[i].result.value) ==> Kept(c, run[k], i);
  }

  /** With a cap the map never holds more keys than the cap or the most calls that were ever
      in flight at once, whichever is larger. */
  lemma MapBounded(c: Config, run: seq<State>, k: nat)
    requires IsRun(c, run) && k < |run| && c.maxEntries > 0
    ensures |run[k].sh.entries| <= Max(c.maxEntries, run[k].peak)
  {
    RunsKeepSize(c, run, k);
  }
}
