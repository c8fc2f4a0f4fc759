/** The singleflight result cache: what Do does under its lock, and eviction. */
module Idempotency {
  import opened Sets

  type Value(!new)
  type Error(!new)

  /** What fn gave: a value and perhaps an error. A panic gives the zero value and an error. */
  datatype Result = Result(val: Value, err: Option<Error>)

  /** result is present when completed is set; expiresAt is absent when it is the zero time;
      closes counts the calls of close(done). */
  datatype Entry = Entry(result: Option<Result>, expiresAt: Option<int>, closes: nat)
  {
    predicate Completed() { result.Some? }
    predicate Expired(now: int) { expiresAt.Some? && now > expiresAt.value }
    predicate Stale(now: int) { Completed() && Expired(now) }
  }

  // the zero time is before every other
  predicate Before(a: Option<int>, b: Option<int>)
  {
    b.Some? && (a.None? || a.value < b.value)
  }

  datatype Config = Config(ttl: int, maxEntries: int, cacheErrors: bool)
  {
    predicate Keeps(r: Result) { r.err.None? || cacheErrors }
  }

  /** An entry is known by its place in the store, which stands for its address. */
  datatype Shared = Shared(entries: map<string, nat>, store: seq<Entry>)
  {
    predicate Valid() { Placed(entries, store) }
  }

  predicate Placed(m: map<string, nat>, store: seq<Entry>)
  {
    forall k :: k in m ==> m[k] < |store|
  }

  // ----- Eviction -----

  ghost predicate Submap(m': map<string, nat>, m: map<string, nat>)
  {
    forall k :: k in m' ==> k in m && m'[k] == m[k]
  }

  ghost predicate Dropped(m: map<string, nat>, m': map<string, nat>, k: string)
  {
    k in m && k !in m'
  }

  /** No entry that stays is older than an unexpired entry that was dropped. */
  ghost predicate OldestFirst(m: map<string, nat>, m': map<string, nat>, store: seq<Entry>, now: int)
    requires Placed(m, store) && Placed(m', store)
  {
    forall k, j :: Dropped(m, m', k) && j in m' && !store[m[k]].Stale(now) && store[m'[j]].Completed()
      ==> !Before(store[m'[j]].expiresAt, store[m[k]].expiresAt)
  }

  /** What eviction may leave of m when the cap is cap: it depends on the order in which the
      map is scanned. */
  ghost predicate EvictedTo(cap: int, m: map<string, nat>, m': map<string, nat>, store: seq<Entry>, now: int)
    requires Placed(m, store)
  {
    && Submap(m', m)
    && (cap <= 0 || |m| <= cap ==> m' == m)
    && (forall k :: Dropped(m, m', k) ==> store[m[k]].Completed())
    && (0 < cap < |m| ==>
          && (|m'| <= cap || forall k :: k in m' ==> !store[m'[k]].Completed())
          && (forall k :: k in m' ==> !store[m'[k]].Stale(now))
          && ((exists k :: Dropped(m, m', k) && !store[m[k]].Stale(now)) ==> |m'| >= cap)
          && OldestFirst(m, m', store, now))
  }

  // ----- What a call finds under the lock, and what a leader leaves -----

  datatype Entered = Hit(e: nat) | Follow(e: nat) | Lead(e: nat)

  predicate IsHit(h: Shared, key: string, now: int)
    requires h.Valid()
  {
    key in h.entries && h.store[h.entries[key]].Completed() && !h.store[h.entries[key]].Expired(now)
  }

  predicate InFlight(h: Shared, key: string)
    requires h.Valid()
  {
    key in h.entries && !h.store[h.entries[key]].Completed()
  }

  const UNFINISHED: Entry := Entry(None, None, 0)

  ghost predicate Enters(c: Config, h: Shared, h': Shared, key: string, now: int, r: Entered)
    requires h.Valid()
  {
    if IsHit(h, key, now) then h' == h && r == Hit(h.entries[key])
    else if InFlight(h, key) then h' == h && r == Follow(h.entries[key])
    else
      && r == Lead(|h.store|) && h'.store == h.store + [UNFINISHED]
      && EvictedTo(c.maxEntries, h.entries[key := |h.store|], h'.entries, h'.store, now)
  }

  /** finishLocked at the given clock reading. */
  function Finished(c: Config, h: Shared, e: nat, key: string, r: Result, clock: int): Shared
    requires e < |h.store|
  {
    var expiry := if c.Keeps(r) && c.ttl > 0 then Some(clock + c.ttl) else h.store[e].expiresAt;
    Shared(
      if c.Keeps(r) then h.entries else h.entries - {key},
      h.store[e := Entry(Some(r), expiry, h.store[e].closes + 1)])
  }

  class Cache {
    const c: Config
    var entries: map<string, nat>
    var store: seq<Entry>

    constructor (c: Config)
      ensures Here() == Shared(map[], []) && this.c == c
    {
      this.c := c;
      entries, store := map[], [];
    }

    function Here(): Shared
      reads this
    {
      Shared(entries, store)
    }

    /** The locked section at the start of Do. */
    method Enter(key: string, now: int) returns (r: Entered)
      requires Here().Valid()
      modifies this
      ensures Here().Valid() && Enters(c, old(Here()), Here(), key, now, r)
    {
      if key in entries {
        var e := entries[key];
        if store[e].Completed() && !store[e].Expired(now) {
          return Hit(e);
        }
        if !store[e].Completed() {
          return Follow(e);
        }
      }
      r := Lead(|store|);
      entries := entries[key := |store|];
      store := store + [UNFINISHED];
      EvictLocked(now);
    }

    method FinishLocked(e: nat, key: string, r: Result, clock: int)
      requires Here().Valid() && e < |store|
      modifies this
      ensures Here().Valid() && Here() == Finished(c, old(Here()), e, key, r, clock)
    {
      store := store[e := store[e].(result := Some(r))];
      var keep := r.err.None? || c.cacheErrors;
      if keep && c.ttl > 0 {
        store := store[e := store[e].(expiresAt := Some(clock + c.ttl))];
      }
      if !keep {
        entries := entries - {key};
      }
      store := store[e := store[e].(closes := store[e].closes + 1)];
    }

    method EvictLocked(now: int)
      requires Here().Valid()
      modifies this`entries
      ensures Here().Valid() && EvictedTo(c.maxEntries, old(entries), entries, store, now)
    {
      if c.maxEntries <= 0 || |entries| <= c.maxEntries {
        return;
      }
      DropExpired(now);
      ghost var live := entries;
      DropOldest();
      EvictedInTwo(c.maxEntries, old(entries), live, entries, store, now);
    }

    /** Second pass: drops the oldest completed entry until the map fits. */
    method DropOldest()
      requires Here().Valid()
      modifies this`entries
      ensures Here().Valid() && Thinned(c.maxEntries, old(entries), entries, store)
      ensures |entries| <= c.maxEntries || forall k :: k in entries ==> !store[entries[k]].Completed()
    {
      while |entries| > c.maxEntries
        invariant Here().Valid() && Thinned(c.maxEntries, old(entries), entries, store)
        decreases |entries|
      {
        var found, oldest := FindOldest();
        if !found {
          break;
        }
        ThinnedStep(c.maxEntries, old(entries), entries, store, oldest);
        entries := entries - {oldest};
      }
    }

    /** First pass over the map, in any order. */
    method DropExpired(now: int)
      requires Here().Valid()
      modifies this`entries
      ensures Submap(entries, old(entries))
      ensures forall k :: k in old(entries) ==> (k in entries <==> !store[old(entries)[k]].Stale(now))
    {
      var rest := entries.Keys;
      while rest != {}
        invariant rest <= entries.Keys && Submap(entries, old(entries))
        invariant forall k :: k in old(entries) && k !in rest ==> (k in entries <==> !store[old(entries)[k]].Stale(now))
        decreases rest
      {
        var k :| k in rest;
        if store[entries[k]].Completed() && store[entries[k]].Expired(now) {
          entries := entries - {k};
        }
        rest := rest - {k};
      }
    }

    /** A completed entry that no completed entry is older than. */
    method FindOldest() returns (found: bool, oldest: string)
      requires Here().Valid()
      ensures found ==> Oldest(entries, store, oldest)
      ensures !found ==> forall k :: k in entries ==> !store[entries[k]].Completed()
    {
      var rest := entries.Keys;
      var t: Option<int> := None;
      found, oldest := false, "";
      while rest != {}
        invariant rest <= entries.Keys
        invariant found ==>
          oldest in entries && store[entries[oldest]].Completed() && t == store[entries[oldest]].expiresAt
        invariant forall k ::
          k in entries && k !in rest && store[entries[k]].Completed() ==>
            found && !Before(store[entries[k]].expiresAt, t)
        decreases rest
      {
        var k :| k in rest;
        rest := rest - {k};
        var e := store[entries[k]];
        if e.Completed() && (!found || Before(e.expiresAt, t)) {
          oldest, t, found := k, e.expiresAt, true;
        }
      }
    }
  }

  ghost predicate Oldest(m: map<string, nat>, store: seq<Entry>, k: string)
    requires Placed(m, store)
  {
    && k in m && store[m[k]].Completed()
    && forall j :: j in m && store[m[j]].Completed() ==> !Before(store[m[j]].expiresAt, store[m[k]].expiresAt)
  }

  /** What the second pass has left of live so far. */
  ghost predicate Thinned(cap: int, live: map<string, nat>, m: map<string, nat>, store: seq<Entry>)
    requires Placed(live, store)
  {
    && Submap(m, live) && (|m| >= cap || m == live)
    && (forall k :: Dropped(live, m, k) ==> store[live[k]].Completed())
    && (forall k, j :: Dropped(live, m, k) && j in m && store[m[j]].Completed()
          ==> !Before(store[m[j]].expiresAt, store[live[k]].expiresAt))
  }

  lemma ThinnedStep(cap: int, live: map<string, nat>, m: map<string, nat>, store: seq<Entry>, k: string)
    requires Placed(live, store) && Placed(m, store) && Thinned(cap, live, m, store) && |m| > cap && Oldest(m, store, k)
    ensures Thinned(cap, live, m - {k}, store) && |m - {k}| == |m| - 1
  {
    var less := m - {k};
    assert less.Keys == m.Keys - {k};
    forall i, j | Dropped(live, less, i) && j in less && store[less[j]].Completed()
      ensures !Before(store[less[j]].expiresAt, store[live[i]].expiresAt)
    {
      assert i == k || Dropped(live, m, i);
    }
    forall i | Dropped(live, less, i)
      ensures store[live[i]].Completed()
    {
      assert i == k || Dropped(live, m, i);
    }
  }

  /** The two passes together. */
  lemma EvictedInTwo(cap: int, m: map<string, nat>, live: map<string, nat>, m': map<string, nat>,
      store: seq<Entry>, now: int)
    requires Placed(m, store) && 0 < cap < |m| && Submap(live, m)
    requires forall k :: k in m ==> (k in live <==> !store[m[k]].Stale(now))
    requires Placed(live, store) && Placed(m', store) && Thinned(cap, live, m', store)
    requires |m'| <= cap || forall k :: k in m' ==> !store[m'[k]].Completed()
    ensures EvictedTo(cap, m, m', store, now)
  {
    forall k | Dropped(m, m', k)
      ensures store[m[k]].Stale(now) || Dropped(live, m', k)
    {
    }
  }
}
