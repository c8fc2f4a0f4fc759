/** What the cache serves: which results a call is given without running fn, and when it runs fn. */
module IdempotencyServes {
  import opened Idempotency
  import opened IdempotencyRuns
  import opened Sets

  // ----- What the map holds -----

  /** The result of execution e is within its TTL at the reading. */
  predicate Within(c: Config, x: Exec, reading: int) { c.ttl > 0 ==> reading <= x.finishedAt + c.ttl }

  /** A completed entry of the map holds a result that is kept, and expires a TTL after its fn
      finished. */
  ghost predicate Holds(c: Config, s: State, e: nat)
    requires e < |s.log| == |s.sh.store|
  {
    s.sh.store[e].Completed() ==>
      && c.Keeps(s.sh.store[e].result.value)
      && s.sh.store[e].expiresAt == (if c.ttl > 0 then Some(s.log[e].finishedAt + c.ttl) else None)
  }

  ghost predicate MapHolds(c: Config, s: State)
    requires Keyed(s)
  {
    forall k :: k in s.sh.entries ==> Holds(c, s, s.sh.entries[k])
  }

  lemma HoldsLeads(c: Config, s: State, s': State, t: nat, r: Entered)
    requires Keyed(s) && Keyed(s') && MapHolds(c, s) && Entering(c, s, s', t, r)
    ensures MapHolds(c, s')
  {
    forall k | k in s'.sh.entries
      ensures Holds(c, s', s'.sh.entries[k])
    {
      KeptOrNew(c, s, s', t, r, k);
    }
  }

  /** An entry of the map was there before, as it is, or is the new leader's. */
  lemma KeptOrNew(c: Config, s: State, s': State, t: nat, r: Entered, k: string)
    requires Keyed(s) && Keyed(s') && MapHolds(c, s) && Entering(c, s, s', t, r) && k in s'.sh.entries
    ensures Holds(c, s', s'.sh.entries[k])
  {
    var e := s'.sh.entries[k];
    EntryFrom(c, s.sh, s'.sh, s.threads[t].key, s.threads[t].now, r, k);
    if e < |s.log| {
      assert Holds(c, s, e) && s'.log[e] == s.log[e];
    }
  }

  lemma EntryFrom(c: Config, h: Shared, h': Shared, key: string, now: int, r: Entered, k: string)
    requires h.Valid() && h'.Valid() && Enters(c, h, h', key, now, r) && k in h'.entries
    ensures var e := h'.entries[k];
      if e < |h.store| then k in h.entries && h.entries[k] == e && h'.store[e] == h.store[e]
      else h'.store[e] == UNFINISHED
  {
    if r.Lead? {
      assert Submap(h'.entries, h.entries[key := |h.store|]);
    }
  }

  lemma HoldsFinishes(c: Config, s: State, s': State, t: nat, r: Result)
    requires Inv(s) && Inv(s') && MapHolds(c, s)
    requires t in s.threads && s.threads[t].Leading? && FinishNext(c, s, s', t, r)
    ensures MapHolds(c, s')
  {
    var p := s.threads[t];
    assert ThreadOk(s, t, p) && EntryOk(s, p.e);
    forall k | k in s'.sh.entries
      ensures Holds(c, s', s'.sh.entries[k])
    {
      var e := s.sh.entries[k];
      assert Holds(c, s, e) && s.log[e].key == k;
    }
  }

  lemma {:induction false} RunsHold(c: Config, run: seq<State>, k: nat)
    requires IsRun(c, run) && k < |run|
    ensures Held(c, run[k])
  {
    if k > 0 {
      RunsHold(c, run, k - 1);
      assert StepAt(c, run, k);
      HeldKept(c, run[k - 1], run[k]);
    }
  }

  ghost predicate Held(c: Config, s: State) { Inv(s) && MapHolds(c, s) }

  lemma HeldKept(c: Config, s: State, s': State)
    requires Held(c, s) && Steps(c, s, s')
    ensures Held(c, s')
  {
    var t, step :| Next(c, s, s', t, step);
    InvKept(c, s, s', t, step);
    HoldsKept(c, s, s');
  }

  lemma HoldsKept(c: Config, s: State, s': State)
    requires Inv(s) && Inv(s') && MapHolds(c, s) && Steps(c, s, s')
    ensures MapHolds(c, s')
  {
    var t, step :| Next(c, s, s', t, step);
    match step
    case Enter(r) => HoldsLeads(c, s, s', t, r);
    case Finish(r) => HoldsFinishes(c, s, s', t, r);
    case _ =>
      assert s'.sh == s.sh && s'.log == s.log;
      forall k | k in s'.sh.entries
        ensures Holds(c, s', s'.sh.entries[k])
      {
        assert Holds(c, s, s.sh.entries[k]);
      }
  }

  // ----- What a call finds -----

  /** An execution of fn for the key is under way. */
  ghost predicate Runs(s: State, key: string)
    requires |s.log| == |s.sh.store|
  {
    exists e: nat :: e < |s.log| && s.log[e].key == key && !s.sh.store[e].Completed()
  }

  /** Execution e, for the key, has ended, with a value or with an error that is kept. */
  ghost predicate Keeping(c: Config, s: State, e: nat, key: string)
  {
    && e < |s.log| && e < |s.sh.store| && s.log[e].key == key && s.sh.store[e].Completed()
    && (s.sh.store[e].result.value.err.None? || c.cacheErrors)
  }

  /** Some execution of the key left a result that is kept and within its TTL at the reading. */
  ghost predicate Fresh(c: Config, s: State, key: string, reading: int)
  {
    exists e: nat :: Keeping(c, s, e, key) && Within(c, s.log[e], reading)
  }

  /** A new execution, and t is its leader. */
  ghost predicate Leads(s: State, s': State, t: nat, key: string)
  {
    s'.log == s.log + [Exec(key, t, s.time, s.time)] && s'.threads == s.threads[t := Leading(key, |s.log|)]
  }

  /** What becomes of a call that gets the lock, in every state of every run. It waits exactly when
      fn runs for its key. Otherwise it is served a kept result of its key that is within its TTL
      at the call's own reading, or it runs fn: it does when there is no such result, and with
      unbounded entries it does not while a kept result has not expired. */
  lemma EnterMeans(c: Config, run: seq<State>, k: nat, s': State, t: nat, r: Entered)
    requires IsRun(c, run) && k < |run| && Entering(c, run[k], s', t, r)
    ensures Inv(run[k])
    ensures var s, p := run[k], run[k].threads[t];
      && (r.Follow? <==> Runs(s, p.key))
      && (r.Follow? ==> r.e < |s.log| && s.log[r.e].key == p.key && s'.threads == s.threads[t := Waiting(p.key, r.e)])
      && (r.Hit? ==>
            && Keeping(c, s, r.e, p.key) && Within(c, s.log[r.e], p.now)
            && s'.threads == s.threads[t := Returned(p.key, r.e, Cached, s.sh.store[r.e].result.value)])
      && (r.Lead? <==> Leads(s, s', t, p.key))
      && (!Runs(s, p.key) && !Fresh(c, s, p.key, p.now) ==> r.Lead?)
      && (c.maxEntries <= 0 && !Runs(s, p.key) && Fresh(c, s, p.key, s.time) ==> r.Hit?)
  {
    RunsHold(c, run, k);
    RunsKeepTimes(c, run, k);
    EnterFinds(c, run[k], s', t, r);
    if c.maxEntries <= 0 && r.Lead? {
      NothingFresh(c, run[k], s', t, r);
    }
  }

  lemma EnterFinds(c: Config, s: State, s': State, t: nat, r: Entered)
    requires Inv(s) && MapHolds(c, s) && Entering(c, s, s', t, r)
    ensures var p := s.threads[t];
      && (r.Follow? <==> Runs(s, p.key))
      && (r.Follow? ==> r.e < |s.log| && s.log[r.e].key == p.key)
      && (r.Hit? ==> Keeping(c, s, r.e, p.key) && Within(c, s.log[r.e], p.now))
  {
    var p := s.threads[t];
    if Runs(s, p.key) {
      var e: nat :| e < |s.log| && s.log[e].key == p.key && !s.sh.store[e].Completed();
      assert EntryOk(s, e);
    }
    if p.key in s.sh.entries {
      assert Holds(c, s, s.sh.entries[p.key]);
    }
  }

  lemma NothingFresh(c: Config, s: State, s': State, t: nat, r: Entered)
    requires Inv(s) && Timed(c, s) && c.maxEntries <= 0 && Entering(c, s, s', t, r) && r.Lead?
    ensures !Fresh(c, s, s.threads[t].key, s.time)
  {
    forall e: nat | Keeping(c, s, e, s.threads[t].key)
      ensures !Within(c, s.log[e], s.time)
    {
      assert s'.sh.store[e] == s.sh.store[e];
      KeptLeads(c, s, s', t, r, e);
    }
  }

  // ----- What was served -----

  /** The call of thread t for the key starts with the step to run[i], which reads the clock. */
  ghost predicate Called(run: seq<State>, i: nat, t: nat, key: string)
  {
    && 0 < i < |run| && t !in run[i - 1].threads && t in run[i].threads
    && run[i].threads[t] == Calling(key, run[i].time)
  }

  /** Where a call that read the clock at reading stands. */
  ghost predicate Stands(c: Config, s: State, p: Pc, key: string, reading: int)
  {
    match p
    case Calling(k, now) => k == key && now == reading
    case Leading(k, _) => k == key
    case Waiting(k, _) => k == key
    case Returned(k, e, role, r) =>
      && k == key
      && (role.Cached? ==> c.Keeps(r) && e < |s.log| && Within(c, s.log[e], reading) && s.log[e].finishedAt <= s.time)
    case Cancelled => true
  }

  /** The call itself acts. */
  lemma StandsActs(c: Config, s: State, s': State, t: nat, step: Step, key: string, reading: int)
    requires Held(c, s) && AllTimed(c, s) && t in s.threads && Next(c, s, s', t, step)
    requires Stands(c, s, s.threads[t], key, reading)
    ensures t in s'.threads && Stands(c, s', s'.threads[t], key, reading)
  {
    assert ThreadOk(s, t, s.threads[t]);
    match step
    case Enter(r) => EnterFinds(c, s, s', t, r);
    case _ =>
  }

  /** Another call acts: no execution that finished changes. */
  lemma StandsBy(c: Config, s: State, s': State, u: nat, step: Step, t: nat, key: string, reading: int)
    requires Inv(s) && t in s.threads && u != t && Next(c, s, s', u, step)
    requires Stands(c, s, s.threads[t], key, reading)
    ensures t in s'.threads && Stands(c, s', s'.threads[t], key, reading)
  {
    assert ThreadOk(s, t, s.threads[t]);
    if step.Finish? {
      assert ThreadOk(s, u, s.threads[u]) && EntryOk(s, s.threads[u].e);
    }
  }

  lemma StandsNext(c: Config, s: State, s': State, t: nat, key: string, reading: int)
    requires Held(c, s) && AllTimed(c, s) && Steps(c, s, s')
    requires t in s.threads && Stands(c, s, s.threads[t], key, reading)
    ensures t in s'.threads && Stands(c, s', s'.threads[t], key, reading)
  {
    var u, step :| Next(c, s, s', u, step);
    if u == t {
      StandsActs(c, s, s', t, step, key, reading);
    } else {
      StandsBy(c, s, s', u, step, t, key, reading);
    }
  }

  lemma {:induction false} CallStands(c: Config, run: seq<State>, i: nat, k: nat, t: nat, key: string)
    requires IsRun(c, run) && Called(run, i, t, key) && i <= k < |run|
    ensures t in run[k].threads && Stands(c, run[k], run[k].threads[t], key, run[i].time)
    decreases k - i
  {
    if i < k {
      CallStands(c, run, i, k - 1, t, key);
      StandsStep(c, run, k, t, key, run[i].time);
    }
  }

  lemma StandsStep(c: Config, run: seq<State>, k: nat, t: nat, key: string, reading: int)
    requires IsRun(c, run) && 0 < k < |run|
    requires t in run[k - 1].threads && Stands(c, run[k - 1], run[k - 1].threads[t], key, reading)
    ensures t in run[k].threads && Stands(c, run[k], run[k].threads[t], key, reading)
  {
    var s, s' := run[k - 1], run[k];
    assert Steps(c, s, s') by {
      assert StepAt(c, run, k);
    }
    assert Held(c, s) && AllTimed(c, s) by {
      RunsHold(c, run, k - 1);
      RunsKeepTimes(c, run, k - 1);
    }
    StandsNext(c, s, s', t, key, reading);
  }

  lemma {:induction false} CallStarts(c: Config, run: seq<State>, k: nat, t: nat) returns (i: nat, key: string)
    requires IsRun(c, run) && k < |run| && t in run[k].threads
    ensures i <= k && Called(run, i, t, key) && Stands(c, run[k], run[k].threads[t], key, run[i].time)
  {
    assert k > 0;
    assert StepAt(c, run, k);
    if t in run[k - 1].threads {
      i, key := CallStarts(c, run, k - 1, t);
    } else {
      i, key := k, run[k].threads[t].key;
    }
    CallStands(c, run, i, k, t, key);
  }

  /** Every result that was served from the cache is one that is kept, of the call's own key, and
      was within its TTL when the call read the clock. */
  lemma ServedMeans(c: Config, run: seq<State>, k: nat, t: nat, key: string, e: nat, r: Result) returns (i: nat)
    requires IsRun(c, run) && k < |run| && t in run[k].threads && run[k].threads[t] == Returned(key, e, Cached, r)
    ensures i <= k && Called(run, i, t, key) && e < |run[k].log| && run[k].log[e].key == key
    ensures (r.err.None? || c.cacheErrors) && (c.ttl > 0 ==> run[i].time <= run[k].log[e].finishedAt + c.ttl)
  {
    var key';
    i, key' := CallStarts(c, run, k, t);
    RunsKeepInv(c, run, k);
    assert ThreadOk(run[k], t, run[k].threads[t]);
  }
}
