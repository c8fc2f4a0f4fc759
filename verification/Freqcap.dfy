/** The per-key sliding-window event counter, over the slices and backing arrays that its
    trimming shifts in place. */
module Freqcap {

  // ----- What trimming does to a slice -----

  /** Index of the first element that is not before cutoff. */
  function First(ts: seq<int>, cutoff: int): (i: nat)
    ensures i <= |ts|
    ensures forall j :: 0 <= j < i ==> ts[j] < cutoff
    ensures i < |ts| ==> ts[i] >= cutoff
  {
    if ts == [] || ts[0] >= cutoff then 0 else 1 + First(ts[1..], cutoff)
  }

  /** The slice trimBefore returns. */
  function Trimmed(ts: seq<int>, cutoff: int): seq<int> { ts[First(ts, cutoff)..] }

  /** What the same backing array shows through the old, longer slice afterwards: the kept
      suffix moved to the front, and behind it the old tail, left over. */
  function Shifted(ts: seq<int>, cutoff: int): (r: seq<int>)
    ensures |r| == |ts|
  {
    var i := First(ts, cutoff);
    ts[i..] + ts[|ts| - i..]
  }

  // ----- The operations on the contents of the map -----

  type View = map<string, seq<int>>

  /** What a lookup shows: a missing key gives the nil slice. */
  function Shown(v: View, key: string): seq<int> { if key in v then v[key] else [] }

  /** evictIdleLocked: drained keys go, the slices of the others are shifted in place. */
  function Evicted(v: View, cutoff: int): View
  {
    map k | k in v && Trimmed(v[k], cutoff) != [] :: Shifted(v[k], cutoff)
  }

  datatype Limits = Limits(window: nat, maxEvents: nat, maxKeys: nat) {
    // New panics on window <= 0 or maxEvents <= 0; maxKeys 0 is unbounded
    function Cutoff(now: int): int { now - window }
    predicate Valid() { window > 0 && maxEvents > 0 }
  }

  /** Allow at now, with the cutoff window before it. */
  function Allowed(l: Limits, v: View, key: string, now: int, cutoff: int): (bool, View)
  {
    Decided(l, v, Trimmed(Shown(v, key), cutoff), key, now, cutoff)
  }

  /** What Allow does once it has trimmed the key's slice. */
  function Decided(l: Limits, v: View, trimmed: seq<int>, key: string, now: int, cutoff: int): (bool, View)
  {
    if |trimmed| >= l.maxEvents then (false, v[key := trimmed])
    else if trimmed != [] then (true, v[key := trimmed + [now]])
    else Admitted(l, Evicted(v, cutoff), key, now)
  }

  /** A key that is not live is refused when the live keys fill the map. */
  function Admitted(l: Limits, w: View, key: string, now: int): (bool, View)
  {
    if l.maxKeys > 0 && |w| >= l.maxKeys then (false, w) else (true, w[key := [now]])
  }

  /** What Count returns: the length of the key's trimmed slice. */
  function Showing(v: View, key: string, cutoff: int): nat { |Trimmed(Shown(v, key), cutoff)| }

  function Counted(v: View, key: string, cutoff: int): (nat, View)
  {
    (Showing(v, key, cutoff),
     if key !in v then v
     else if Trimmed(v[key], cutoff) == [] then v - {key}
     else v[key := Trimmed(v[key], cutoff)])
  }

  // ----- The counter over its backing arrays -----

  /** A Go slice that starts its backing array. */
  datatype Slice = Slice(arr: array<int>, len: nat)

  class Counter {
    const l: Limits
    var keys: map<string, Slice>
    ghost var view: View           // what each key's slice shows

    /** Slices fit their arrays, no two keys share one, and view is what they show. */
    ghost predicate Valid()
      reads this, Arrays()
    {
      && l.Valid() && view.Keys == keys.Keys
      && (forall k :: k in keys ==> keys[k].len <= keys[k].arr.Length && keys[k].arr[..keys[k].len] == view[k])
      && (forall k, j :: k in keys && j in keys && k != j ==> keys[k].arr != keys[j].arr)
    }

    ghost function Arrays(): set<object>
      reads this
    {
      set k | k in keys :: keys[k].arr
    }

    constructor (l: Limits)
      requires l.Valid()
      ensures Valid() && view == map[] && this.l == l
    {
      this.l := l;
      keys, view := map[], map[];
    }

    /** Trims the slice of key in its array; the map keeps the longer slice. */
    method TrimKey(key: string, cutoff: int) returns (trimmed: Slice)
      requires Valid() && key in keys
      modifies this`view, keys[key].arr
      ensures Valid() && view == old(view)[key := Shifted(old(view)[key], cutoff)]
      ensures trimmed.arr == keys[key].arr && trimmed.len <= trimmed.arr.Length
      ensures trimmed.arr[..trimmed.len] == Trimmed(old(view)[key], cutoff)
    {
      trimmed := TrimBefore(keys[key], cutoff);
      assert ValidBut(key);
      Seen(key, Shifted(view[key], cutoff));
    }

    ghost method Seen(key: string, ts: seq<int>)
      requires ValidBut(key) && key in keys
      requires keys[key].len <= keys[key].arr.Length && keys[key].arr[..keys[key].len] == ts
      modifies this`view
      ensures Valid() && view == old(view)[key := ts]
    {
      view := view[key := ts];
    }

    method Drop(key: string)
      requires Valid()
      modifies this`keys, this`view
      ensures Valid() && view == old(view) - {key} && keys == old(keys) - {key}
    {
      keys := keys - {key};
      view := view - {key};
    }

    /** keys[key] = s, where s uses the key's own array or one that no key uses. */
    method Store(key: string, s: Slice)
      requires Valid() && s.len <= s.arr.Length
      requires forall k :: k in keys && k != key ==> keys[k].arr != s.arr
      modifies this`keys, this`view
      ensures Valid() && view == old(view)[key := s.arr[..s.len]]
      ensures keys == old(keys)[key := s]
    {
      keys := keys[key := s];
      view := view[key := s.arr[..s.len]];
    }

    method EvictKey(key: string, cutoff: int)
      requires Valid() && key in keys
      modifies this`keys, this`view, keys[key].arr
      ensures Valid() && view == EvictedKey(old(view), cutoff, key)
      ensures keys == if Trimmed(old(view)[key], cutoff) == [] then old(keys) - {key} else old(keys)
    {
      var trimmed := TrimKey(key, cutoff);
      if trimmed.len == 0 {
        OverwriteDrop(old(view), key, Shifted(old(view)[key], cutoff));
        Drop(key);
      }
    }

    /** Scans the map in any order. */
    method EvictIdle(cutoff: int)
      requires Valid()
      modifies this`keys, this`view, Arrays()
      ensures Valid() && view == Evicted(old(view), cutoff)
      ensures keys.Keys <= old(keys).Keys && forall k :: k in keys ==> keys[k] == old(keys)[k]
    {
      ghost var v := view;
      var rest := keys.Keys;
      EvictStart(v, cutoff);
      while rest != {}
        invariant Valid() && rest <= keys.Keys <= old(keys).Keys
        invariant forall k :: k in keys ==> keys[k] == old(keys)[k]
        invariant view == EvictedBut(v, cutoff, rest)
        decreases rest
      {
        var k :| k in rest;
        EvictStep(v, cutoff, rest, k);
        assert keys[k].arr in old(Arrays());
        EvictKey(k, cutoff);
        rest := rest - {k};
      }
      EvictEnd(v, cutoff, rest);
    }

    /** cutoff lies one window before now. */
    method Allow(key: string, now: int, cutoff: int) returns (ok: bool)
      requires Valid() && cutoff == l.Cutoff(now)
      modifies this`keys, this`view, Arrays()
      ensures Valid() && (ok, view) == Allowed(l, old(view), key, now, cutoff)
    {
      var trimmed := Look(key, cutoff);
      LookedDecides(l, old(view), key, now, cutoff);
      ok := Decide(key, trimmed, now, cutoff);
    }

    method Decide(key: string, trimmed: Slice, now: int, cutoff: int) returns (ok: bool)
      requires Valid() && trimmed.len <= trimmed.arr.Length
      requires forall k :: k in keys && k != key ==> keys[k].arr != trimmed.arr
      modifies this`keys, this`view, Arrays(), trimmed.arr
      ensures Valid()
      ensures (ok, view) == Decided(l, old(view), old(trimmed.arr[..trimmed.len]), key, now, cutoff)
    {
      if trimmed.len >= l.maxEvents {
        Store(key, trimmed);
        ok := false;
      } else if trimmed.len > 0 {
        Record(key, trimmed, now);
        ok := true;
      } else {
        ok := Admit(key, trimmed, now, cutoff);
      }
    }

    /** Looks key up and trims what it finds. */
    method Look(key: string, cutoff: int) returns (trimmed: Slice)
      requires Valid()
      modifies this`view, Arrays()
      ensures Valid() && view == Looked(old(view), key, cutoff)
      ensures trimmed.len <= trimmed.arr.Length
      ensures trimmed.arr[..trimmed.len] == Trimmed(Shown(old(view), key), cutoff)
      ensures forall k :: k in keys && k != key ==> keys[k].arr != trimmed.arr
      ensures trimmed.arr in Arrays() || fresh(trimmed.arr)
    {
      if key in keys {
        trimmed := TrimKey(key, cutoff);
      } else {
        var empty := new int[0];
        trimmed := Slice(empty, 0);
      }
    }

    /** A key that is not live: make room first, and refuse it if there is none. */
    method Admit(key: string, trimmed: Slice, now: int, cutoff: int) returns (ok: bool)
      requires Valid() && trimmed.len == 0
      requires forall k :: k in keys && k != key ==> keys[k].arr != trimmed.arr
      modifies this`keys, this`view, Arrays(), trimmed.arr
      ensures Valid() && (ok, view) == Admitted(l, Evicted(old(view), cutoff), key, now)
    {
      EvictIdle(cutoff);
      assert |view| == |view.Keys| == |keys.Keys| == |keys|;
      if l.maxKeys > 0 && |keys| >= l.maxKeys {
        return false;
      }
      assert trimmed.arr[..trimmed.len] + [now] == [now];
      Record(key, trimmed, now);
      ok := true;
    }

    /** Appends now to the key's slice and stores it. */
    method Record(key: string, trimmed: Slice, now: int)
      requires Valid() && trimmed.len <= trimmed.arr.Length
      requires forall k :: k in keys && k != key ==> keys[k].arr != trimmed.arr
      modifies this`keys, this`view, trimmed.arr
      ensures Valid() && view == old(view)[key := old(trimmed.arr[..trimmed.len]) + [now]]
    {
      var longer := Append(trimmed, now);
      assert ValidBut(key);
      Put(key, longer);
    }

    /** Valid, but for the slice of one key. */
    ghost predicate ValidBut(key: string)
      reads this, Arrays()
    {
      && l.Valid() && view.Keys == keys.Keys
      && (forall k :: k in keys && k != key ==>
        keys[k].len <= keys[k].arr.Length && keys[k].arr[..keys[k].len] == view[k])
      && (forall k, j :: k in keys && j in keys && k != j ==> keys[k].arr != keys[j].arr)
    }

    method Put(key: string, s: Slice)
      requires ValidBut(key) && s.len <= s.arr.Length
      requires forall k :: k in keys && k != key ==> keys[k].arr != s.arr
      modifies this`keys, this`view
      ensures Valid() && view == old(view)[key := s.arr[..s.len]]
    {
      view := view[key := s.arr[..s.len]];
      keys := keys[key := s];
    }

    method Count(key: string, cutoff: int) returns (n: nat)
      requires Valid()
      modifies this`keys, this`view, Arrays()
      ensures Valid() && (n, view) == Counted(old(view), key, cutoff)
    {
      if key !in keys {
        return 0;
      }
      var trimmed := Look(key, cutoff);
      if trimmed.len == 0 {
        DrainedStays(old(view), key, cutoff);
        Drop(key);
        return 0;
      }
      LookedThenStored(old(view), key, cutoff, trimmed.arr[..trimmed.len]);
      Store(key, trimmed);
      n := trimmed.len;
    }
  }

  /** The contents halfway through a scan that still has to visit rest. */
  function EvictedBut(v: View, cutoff: int, rest: set<string>): View
  {
    map k | k in v && (k in rest || Trimmed(v[k], cutoff) != []) :: if k in rest then v[k] else Shifted(v[k], cutoff)
  }

  function EvictedKey(v: View, cutoff: int, k: string): View
    requires k in v
  {
    if Trimmed(v[k], cutoff) == [] then v - {k} else v[k := Shifted(v[k], cutoff)]
  }

  lemma OverwriteDrop(v: View, key: string, x: seq<int>)
    ensures v[key := x] - {key} == v - {key}
  {
  }

  /** The contents after a lookup has trimmed the key's array and before it stores anything. */
  function Looked(v: View, key: string, cutoff: int): View
  {
    if key in v then v[key := Shifted(v[key], cutoff)] else v
  }

  lemma LookedThenStored(v: View, key: string, cutoff: int, y: seq<int>)
    ensures Looked(v, key, cutoff)[key := y] == v[key := y]
  {
  }

  lemma EvictStart(v: View, cutoff: int)
    ensures EvictedBut(v, cutoff, v.Keys) == v
  {
  }

  lemma EvictEnd(v: View, cutoff: int, rest: set<string>)
    requires rest == {}
    ensures EvictedBut(v, cutoff, rest) == Evicted(v, cutoff)
  {
  }

  lemma EvictStep(v: View, cutoff: int, rest: set<string>, k: string)
    requires k in rest && k in v
    ensures var part := EvictedBut(v, cutoff, rest);
      k in part && part[k] == v[k] && EvictedBut(v, cutoff, rest - {k}) == EvictedKey(part, cutoff, k)
  {
    var part, next := EvictedBut(v, cutoff, rest), EvictedBut(v, cutoff, rest - {k});
    var ts, ds := Shifted(v[k], cutoff), Trimmed(v[k], cutoff);
    assert part[k] == v[k];
    assert forall j :: j != k ==> (j in next <==> j in part) && (j in next ==> next[j] == part[j]);
    assert k in next <==> ds != [];
    assert k in next ==> next[k] == ts;
    OneKey(part, next, k, ts, ds != []);
  }

  /** Maps that agree but for one key. */
  lemma OneKey(part: View, next: View, k: string, x: seq<int>, kept: bool)
    requires k in part && forall j :: j != k ==> (j in next <==> j in part) && (j in next ==> next[j] == part[j])
    requires (k in next <==> kept) && (k in next ==> next[k] == x)
    ensures next == if kept then part[k := x] else part - {k}
  {
  }

  lemma DrainedSlice(ts: seq<int>, cutoff: int)
    requires Trimmed(ts, cutoff) == []
    ensures Shifted(ts, cutoff) == ts
  {
  }

  /** Trimming a drained slice leaves its array as it was. */
  lemma DrainedStays(v: View, key: string, cutoff: int)
    requires key in v && Trimmed(v[key], cutoff) == []
    ensures Looked(v, key, cutoff) == v
  {
    var ts := v[key];
    DrainedSlice(ts, cutoff);
    var w := Looked(v, key, cutoff);
    assert w.Keys == v.Keys;
    assert forall k :: k in w ==> w[k] == v[k];
  }

  lemma LookedDecides(l: Limits, v: View, key: string, now: int, cutoff: int)
    requires l.Valid()
    ensures Decided(l, Looked(v, key, cutoff), Trimmed(Shown(v, key), cutoff), key, now, cutoff)
      == Allowed(l, v, key, now, cutoff)
  {
    var trimmed := Trimmed(Shown(v, key), cutoff);
    if trimmed == [] {
      if key in v {
        DrainedStays(v, key, cutoff);
      }
    } else {
      LookedThenStored(v, key, cutoff, trimmed);
      LookedThenStored(v, key, cutoff, trimmed + [now]);
    }
  }

  /** In place: drops the head of the slice by copying the rest down. */
  method TrimBefore(ts: Slice, cutoff: int) returns (r: Slice)
    requires ts.len <= ts.arr.Length
    modifies ts.arr
    ensures r.arr == ts.arr && r.len <= ts.len
    ensures r.arr[..r.len] == Trimmed(old(ts.arr[..ts.len]), cutoff)
    ensures ts.arr[..ts.len] == Shifted(old(ts.arr[..ts.len]), cutoff)
  {
    ghost var s := ts.arr[..ts.len];
    var i := 0;
    while i < ts.len && ts.arr[i] < cutoff
      invariant 0 <= i <= ts.len
      invariant forall j :: 0 <= j < i ==> s[j] < cutoff
    {
      i := i + 1;
    }
    FirstIs(s, cutoff, i);
    if i > 0 {
      CopyDown(ts.arr, i, ts.len);
      r := Slice(ts.arr, ts.len - i);
    } else {
      assert s[0..] + s[|s|..] == s;
      r := ts;
    }
  }

  lemma FirstIs(ts: seq<int>, cutoff: int, i: nat)
    requires i <= |ts| && (forall j :: 0 <= j < i ==> ts[j] < cutoff) && (i < |ts| ==> ts[i] >= cutoff)
    ensures First(ts, cutoff) == i
  {
  }

  /** copy(ts, ts[i:]) */
  method CopyDown(arr: array<int>, i: nat, len: nat)
    requires 0 < i <= len <= arr.Length
    modifies arr
    ensures arr[..len] == old(arr[i..len]) + old(arr[len - i..len])
  {
    var j := 0;
    while j < len - i
      invariant 0 <= j <= len - i
      invariant forall k :: 0 <= k < j ==> arr[k] == old(arr[k + i])
      invariant forall k :: j <= k < arr.Length ==> arr[k] == old(arr[k])
    {
      arr[j] := arr[j + i];
      j := j + 1;
    }
  }

  /** append(ts, v): in the spare capacity when there is some, else in a larger array. */
  method Append(ts: Slice, v: int) returns (r: Slice)
    requires ts.len <= ts.arr.Length
    modifies ts.arr
    ensures r.len == ts.len + 1 <= r.arr.Length
    ensures r.arr[..r.len] == old(ts.arr[..ts.len]) + [v]
    ensures r.arr == ts.arr || fresh(r.arr)
    ensures ts.arr[..ts.len] == old(ts.arr[..ts.len])
  {
    if ts.len < ts.arr.Length {
      ts.arr[ts.len] := v;
      r := Slice(ts.arr, ts.len + 1);
    } else {
      var bigger := new int[2 * ts.len + 1];
      var j := 0;
      while j < ts.len
        invariant 0 <= j <= ts.len
        invariant forall k :: 0 <= k < j ==> bigger[k] == ts.arr[k]
        invariant ts.arr[..] == old(ts.arr[..])
      {
        bigger[j] := ts.arr[j];
        j := j + 1;
      }
      bigger[ts.len] := v;
      r := Slice(bigger, ts.len + 1);
    }
  }
}
