/** The circuit breaker: a class over the per-second ring, specified by the plain log of
    recorded calls. */
module Breaker {
  import opened Arith

  datatype Mode = Closed | Open | HalfOpen

  /** Normalised options; window is the ring length in seconds. */
  datatype Options = Options(maxRequests: nat, minRequests: nat, failRate: real, window: nat, openDuration: nat) {
    predicate Valid() { 1 <= maxRequests < TWO_32 && 1 <= minRequests < TWO_32 && 1 <= window }
  }

  const TWO_31: nat := 0x8000_0000
  const TWO_32: nat := 0x1_0000_0000

  function Uint32(x: int): nat { x % TWO_32 }

  function Int32(x: int): int
  {
    var m := x % TWO_32;
    if m < TWO_31 then m else m - TWO_32
  }

  /** A recorded call and the second it is charged to. */
  datatype Call = Call(sec: nat, failed: bool)

  /** What the breaker means: its mode and counters, and the calls logged since the last
      recovery, of which the n seconds ending at base count. */
  datatype Abs = Abs(mode: Mode, expiry: int, count: int, succ: int, gen: nat, base: nat, log: seq<Call>)

  // ----- Counting over the log -----

  /** e is charged to a second in (lo, hi] whose ring slot is in [a, b). */
  predicate Hit(e: Call, lo: int, hi: int, n: nat, a: int, b: int, failed: bool)
    requires n > 0
  {
    lo < e.sec <= hi && a <= e.sec % n < b && (failed ==> e.failed)
  }

  function Tally(log: seq<Call>, lo: int, hi: int, n: nat, a: int, b: int, failed: bool): nat
    requires n > 0
  {
    if log == [] then 0
    else
      Tally(log[..|log| - 1], lo, hi, n, a, b, failed) +
      (if Hit(log[|log| - 1], lo, hi, n, a, b, failed) then 1 else 0)
  }

  /** The calls of the n seconds ending at base, in one slot or in all. */
  function Slot(log: seq<Call>, base: int, n: nat, i: int, failed: bool): nat
    requires n > 0
  {
    Tally(log, base - n, base, n, i, i + 1, failed)
  }

  function Window(log: seq<Call>, base: int, n: nat, failed: bool): nat
    requires n > 0
  {
    Tally(log, base - n, base, n, 0, n, failed)
  }

  ghost predicate NotAfter(log: seq<Call>, base: int)
  {
    forall k :: 0 <= k < |log| ==> log[k].sec <= base
  }

  lemma TallySnoc(log: seq<Call>, e: Call, lo: int, hi: int, n: nat, a: int, b: int, failed: bool)
    requires n > 0
    ensures Tally(log + [e], lo, hi, n, a, b, failed)
         == Tally(log, lo, hi, n, a, b, failed) + (if Hit(e, lo, hi, n, a, b, failed) then 1 else 0)
  {
    assert (log + [e])[..|log|] == log;
  }

  /** Adjacent slot ranges add up. */
  lemma {:induction false} TallySplit(log: seq<Call>, lo: int, hi: int, n: nat, a: int, b: int, c: int, failed: bool)
    requires n > 0 && a <= b <= c
    ensures Tally(log, lo, hi, n, a, b, failed) + Tally(log, lo, hi, n, b, c, failed)
      == Tally(log, lo, hi, n, a, c, failed)
  {
    if log != [] {
      TallySplit(log[..|log| - 1], lo, hi, n, a, b, c, failed);
    }
  }

  lemma {:induction false} TallyNone(log: seq<Call>, lo: int, hi: int, n: nat, a: int, b: int, failed: bool)
    requires n > 0 && (NotAfter(log, lo) || b <= a)
    ensures Tally(log, lo, hi, n, a, b, failed) == 0
  {
    if log != [] {
      TallyNone(log[..|log| - 1], lo, hi, n, a, b, failed);
    }
  }

  /** Rolling the window on by one second drops exactly what the new second's slot held. */
  lemma {:induction false} Roll(log: seq<Call>, base: nat, n: nat, j: int, failed: bool)
    requires n > 0 && NotAfter(log, base) && 0 <= j < n
    ensures Slot(log, base + 1, n, j, failed) == if j == (base + 1) % n then 0 else Slot(log, base, n, j, failed)
  {
    if log != [] {
      var e := log[|log| - 1];
      Roll(log[..|log| - 1], base, n, j, failed);
      if base - n < e.sec < base + 1 {
        if e.sec > base + 1 - n {
          ModApart(e.sec, base + 1, n);
        } else {
          ModWraps(e.sec, n);
        }
      }
    }
  }

  lemma RollWindow(log: seq<Call>, base: nat, n: nat, failed: bool)
    requires n > 0 && NotAfter(log, base)
    ensures Window(log, base + 1, n, failed)
      == Window(log, base, n, failed) - Slot(log, base, n, (base + 1) % n, failed)
  {
    var i := (base + 1) % n;
    TallySplit(log, base - n, base, n, 0, i, n, failed);
    TallySplit(log, base - n, base, n, i, i + 1, n, failed);
    TallySplit(log, base + 1 - n, base + 1, n, 0, i, n, failed);
    TallySplit(log, base + 1 - n, base + 1, n, i, i + 1, n, failed);
    RollRange(log, base, n, 0, i, failed);
    RollRange(log, base, n, i + 1, n, failed);
    Roll(log, base, n, i, failed);
  }

  lemma {:induction false} RollRange(log: seq<Call>, base: nat, n: nat, a: int, b: int, failed: bool)
    requires n > 0 && NotAfter(log, base) && 0 <= a <= b <= n && !(a <= (base + 1) % n < b)
    ensures Tally(log, base + 1 - n, base + 1, n, a, b, failed) == Tally(log, base - n, base, n, a, b, failed)
    decreases b - a
  {
    if a == b {
      TallyNone(log, base + 1 - n, base + 1, n, a, b, failed);
      TallyNone(log, base - n, base, n, a, b, failed);
    } else {
      RollRange(log, base, n, a + 1, b, failed);
      Roll(log, base, n, a, failed);
      TallySplit(log, base + 1 - n, base + 1, n, a, a + 1, b, failed);
      TallySplit(log, base - n, base, n, a, a + 1, b, failed);
    }
  }

  lemma RollAll(log: seq<Call>, base: nat, n: nat)
    requires n > 0 && NotAfter(log, base)
    ensures forall j, f :: 0 <= j < n ==>
      Slot(log, base + 1, n, j, f) == if j == (base + 1) % n then 0 else Slot(log, base, n, j, f)
    ensures forall f :: Window(log, base + 1, n, f) == Window(log, base, n, f) - Slot(log, base, n, (base + 1) % n, f)
  {
    forall j, f | 0 <= j < n
      ensures Slot(log, base + 1, n, j, f) == if j == (base + 1) % n then 0 else Slot(log, base, n, j, f)
    {
      Roll(log, base, n, j, f);
    }
    forall f ensures Window(log, base + 1, n, f) == Window(log, base, n, f) - Slot(log, base, n, (base + 1) % n, f) {
      RollWindow(log, base, n, f);
    }
  }

  /** A log that ended a full window ago counts for nothing. */
  lemma ExpireAll(log: seq<Call>, base: int, n: nat)
    requires n > 0 && NotAfter(log, base - n)
    ensures forall j, f :: 0 <= j < n ==> Slot(log, base, n, j, f) == 0
    ensures forall f :: Window(log, base, n, f) == 0
  {
    forall j, f | 0 <= j < n ensures Slot(log, base, n, j, f) == 0 {
      TallyNone(log, base - n, base, n, j, j + 1, f);
    }
    forall f ensures Window(log, base, n, f) == 0 {
      TallyNone(log, base - n, base, n, 0, n, f);
    }
  }

  /** A call charged to the newest second raises that second's slot and the sum by one. */
  lemma LogAll(log: seq<Call>, e: Call, n: nat)
    requires n > 0
    ensures forall j, f :: 0 <= j < n ==>
      Slot(log + [e], e.sec, n, j, f) == Slot(log, e.sec, n, j, f) + if j == e.sec % n && (f ==> e.failed) then 1 else 0
    ensures forall f :: Window(log + [e], e.sec, n, f) == Window(log, e.sec, n, f) + if f ==> e.failed then 1 else 0
  {
    forall j, f | 0 <= j < n
      ensures Slot(log + [e], e.sec, n, j, f)
        == Slot(log, e.sec, n, j, f) + if j == e.sec % n && (f ==> e.failed) then 1 else 0
    {
      TallySnoc(log, e, e.sec - n, e.sec, n, j, j + 1, f);
    }
    forall f ensures Window(log + [e], e.sec, n, f) == Window(log, e.sec, n, f) + if f ==> e.failed then 1 else 0 {
      TallySnoc(log, e, e.sec - n, e.sec, n, 0, n, f);
    }
  }

  /** A ring half cleared: the slots before i are zero and taken off the sum. */
  ghost predicate Cleared(log: seq<Call>, base: int, n: nat, i: nat, ring: seq<int>, sum: int, failed: bool)
    requires n > 0
  {
    && |ring| == n && i <= n
    && (forall j :: 0 <= j < i ==> ring[j] == 0)
    && (forall j :: i <= j < n ==> ring[j] == Slot(log, base, n, j, failed))
    && sum == Tally(log, base - n, base, n, i, n, failed)
  }

  lemma ClearedNext(log: seq<Call>, base: int, n: nat, i: nat, ring: seq<int>, sum: int, failed: bool)
    requires n > 0 && i < n && Cleared(log, base, n, i, ring, sum, failed)
    ensures Cleared(log, base, n, i + 1, ring[i := 0], sum - ring[i], failed)
  {
    TallySplit(log, base - n, base, n, i, i + 1, n, failed);
  }

  // ----- What each operation means, over the log -----

  /** recordWindow: the call is charged to the newest second, which never moves back. */
  function Logged(a: Abs, failed: bool, sec: nat): Abs
  {
    var base := Max(a.base, sec);
    a.(base := base, log := a.log + [Call(base, failed)])
  }

  /** The condition of maybeTrip on the calls of the window. */
  predicate Tripping(o: Options, a: Abs)
    requires o.Valid()
  {
    var total, fails := Window(a.log, a.base, o.window, false), Window(a.log, a.base, o.window, true);
    && Uint32(total) >= o.minRequests
    && if o.failRate <= 0.0 then fails > 0 else fails as real / total as real >= o.failRate
  }

  function Tripped(o: Options, a: Abs, sec: nat, nano: int): Abs
    requires o.Valid()
  {
    var b := a.(base := Max(a.base, sec));
    if Tripping(o, b) then b.(mode := Open, expiry := nano + o.openDuration) else b
  }

  function Admitted(o: Options, a: Abs, nano1: int, nano2: int): (bool, Abs)
  {
    match a.mode
    case Closed => (true, a)
    case Open => if nano1 < a.expiry then (false, a) else Entered(o, a, nano2)
    case HalfOpen =>
      if Uint32(a.count) >= o.maxRequests || a.count + 1 > Int32(o.maxRequests) then (false, a)
      else (true, a.(count := a.count + 1))
  }

  /** toHalfOpenOrReject, for a caller that saw an expired Open state; another caller may have
      moved the state since. */
  function Entered(o: Options, a: Abs, nano: int): (bool, Abs)
  {
    match a.mode
    case Closed => (false, a)
    case Open =>
      if nano < a.expiry then (false, a)
      else (true, a.(mode := HalfOpen, gen := a.gen + 1, succ := 0, count := 1))
    case HalfOpen =>
      if a.count + 1 <= Int32(o.maxRequests) then (true, a.(count := a.count + 1)) else (false, a)
  }

  function Succeeded(o: Options, a: Abs, gen: nat, sec: nat): Abs
  {
    match a.mode
    case Open => a
    case Closed => Logged(a, false, sec)
    case HalfOpen =>
      if a.gen != gen then a
      else if Uint32(a.succ + 1) >= o.maxRequests then
        a.(mode := Closed, succ := 0, count := 0, base := sec, log := [])
      else a.(succ := a.succ + 1)
  }

  function Failed(o: Options, a: Abs, gen: nat, sec1: nat, sec2: nat, nano: int): Abs
    requires o.Valid()
  {
    match a.mode
    case Open => a
    case Closed => Tripped(o, Logged(a, true, sec1), sec2, nano)
    case HalfOpen =>
      if a.gen != gen then a else a.(mode := Open, expiry := nano + o.openDuration, succ := 0, count := 0)
  }

  // ----- The breaker over its ring -----

  class Breaker {
    const o: Options
    var mode: Mode
    var expiry: int
    var counts: array<int>
    var fails: array<int>
    var base: nat
    var sumTotal: int
    var sumFail: int
    var halfOpenSuccess: int
    var halfOpenCount: int
    var halfOpenGen: nat
    ghost var log: seq<Call>      // the calls recorded since the last recovery

    /** The ring and its running sums are what counting over the log gives. */
    ghost predicate Valid()
      reads this, counts, fails
    {
      && o.Valid() && counts != fails
      && counts.Length == fails.Length == o.window
      && NotAfter(log, base)
      && RingIs(base, log)
      && sumTotal == Window(log, base, o.window, false)
      && sumFail == Window(log, base, o.window, true)
    }

    ghost predicate RingIs(base: int, log: seq<Call>)
      requires counts.Length == fails.Length == o.window > 0
      reads this, counts, fails
    {
      forall i :: 0 <= i < counts.Length ==>
        counts[i] == Slot(log, base, o.window, i, false) && fails[i] == Slot(log, base, o.window, i, true)
    }

    ghost function Abstract(): Abs
      reads this
    {
      Abs(mode, expiry, halfOpenCount, halfOpenSuccess, halfOpenGen, base, log)
    }

    constructor (o: Options, now: nat)
      requires o.Valid()
      ensures Valid() && this.o == o && fresh(counts) && fresh(fails)
      ensures Abstract() == Abs(Closed, 0, 0, 0, 0, now, [])
    {
      this.o := o;
      mode, expiry := Closed, 0;
      counts := new int[o.window](_ => 0);
      fails := new int[o.window](_ => 0);
      base, sumTotal, sumFail := now, 0, 0;
      halfOpenSuccess, halfOpenCount, halfOpenGen := 0, 0, 0;
      log := [];
    }

    /** Rolls the ring on to sec: the window moves, no live call is lost, and a clock that
        went back changes nothing. */
    method Advance(sec: nat)
      requires Valid()
      modifies this`base, this`sumTotal, this`sumFail, counts, fails
      ensures Valid() && base == Max(old(base), sec)
    {
      if sec <= base {
        return;
      }
      var n := counts.Length;
      if sec - base >= n {
        Expire(sec);
        return;
      }
      while base < sec
        invariant Valid() && base <= sec
      {
        RollAll(log, base, n);
        base := base + 1;
        var i := base % n;
        sumTotal := sumTotal - counts[i];
        sumFail := sumFail - fails[i];
        counts[i] := 0;
        fails[i] := 0;
      }
    }

    /** Every bucket has expired: they are all cleared and taken off the sums. */
    method Expire(sec: nat)
      requires Valid() && sec - base >= o.window
      modifies this`base, this`sumTotal, this`sumFail, counts, fails
      ensures Valid() && base == sec
    {
      var i, n := 0, counts.Length;
      while i < n
        invariant 0 <= i <= n
        invariant Cleared(log, base, n, i, counts[..], sumTotal, false)
        invariant Cleared(log, base, n, i, fails[..], sumFail, true)
      {
        ClearedNext(log, base, n, i, counts[..], sumTotal, false);
        ClearedNext(log, base, n, i, fails[..], sumFail, true);
        sumTotal := sumTotal - counts[i];
        sumFail := sumFail - fails[i];
        counts[i] := 0;
        fails[i] := 0;
        i := i + 1;
      }
      TallyNone(log, base - n, base, n, n, n, false);
      TallyNone(log, base - n, base, n, n, n, true);
      ExpireAll(log, sec, n);
      base := sec;
    }

    method RecordWindow(success: bool, sec: nat)
      requires Valid()
      modifies this`base, this`sumTotal, this`sumFail, this`log, counts, fails
      ensures Valid() && Abstract() == Logged(old(Abstract()), !success, sec)
    {
      Advance(sec);
      var charged := if sec < base then base else sec;
      Charge(charged % counts.Length, !success);
    }

    /** Adds one call to the newest bucket and to the sums. */
    method Charge(idx: nat, failed: bool)
      requires Valid() && idx == base % o.window
      modifies this`sumTotal, this`sumFail, this`log, counts, fails
      ensures Valid() && log == old(log) + [Call(base, failed)]
    {
      LogAll(log, Call(base, failed), o.window);
      counts[idx] := counts[idx] + 1;
      sumTotal := sumTotal + 1;
      if failed {
        fails[idx] := fails[idx] + 1;
        sumFail := sumFail + 1;
      }
      assert forall j :: 0 <= j < o.window ==> counts[j] == old(counts[j]) + if j == idx then 1 else 0;
      assert forall j :: 0 <= j < o.window ==> fails[j] == old(fails[j]) + if j == idx && failed then 1 else 0;
      log := log + [Call(base, failed)];
    }

    method MaybeTrip(sec: nat, nano: int)
      requires Valid()
      modifies this`base, this`sumTotal, this`sumFail, this`mode, this`expiry, counts, fails
      ensures Valid()
      ensures Abstract() == if old(mode).Closed? then Tripped(o, old(Abstract()), sec, nano) else old(Abstract())
    {
      if !mode.Closed? {
        return;
      }
      Advance(sec);
      if Uint32(sumTotal) < o.minRequests {
        return;
      }
      if o.failRate <= 0.0 {
        if sumFail > 0 {
          mode, expiry := Open, nano + o.openDuration;
        }
        return;
      }
      if sumFail as real / sumTotal as real >= o.failRate {
        mode, expiry := Open, nano + o.openDuration;
      }
    }

    method ToOpen(nano: int)
      requires Valid()
      modifies this`mode, this`expiry, this`halfOpenSuccess, this`halfOpenCount
      ensures Valid()
      ensures Abstract() == old(Abstract()).(mode := Open, expiry := nano + o.openDuration, succ := 0, count := 0)
    {
      mode, expiry := Open, nano + o.openDuration;
      halfOpenSuccess, halfOpenCount := 0, 0;
    }

    /** HalfOpen back to Closed, with an empty window that starts now. */
    method ToClosed(sec: nat)
      requires Valid()
      modifies this, counts, fails
      ensures Valid() && counts == old(counts) && fails == old(fails)
      ensures Abstract() ==
        if !old(mode).HalfOpen? then old(Abstract())
        else old(Abstract()).(mode := Closed, succ := 0, count := 0, base := sec, log := [])
    {
      if !mode.HalfOpen? {
        return;
      }
      var i := 0;
      while i < counts.Length
        invariant 0 <= i <= counts.Length
        invariant o.Valid() && counts.Length == fails.Length == o.window && counts != fails
        invariant counts == old(counts) && fails == old(fails) && Abstract() == old(Abstract())
        invariant forall j :: 0 <= j < i ==> counts[j] == 0 == fails[j]
      {
        counts[i] := 0;
        fails[i] := 0;
        i := i + 1;
      }
      sumTotal, sumFail := 0, 0;
      base := sec;
      halfOpenSuccess, halfOpenCount := 0, 0;
      mode := Closed;
      log := [];
    }

    method BeforeCall(nano1: int, nano2: int) returns (admitted: bool)
      requires Valid()
      modifies this`mode, this`halfOpenCount, this`halfOpenSuccess, this`halfOpenGen
      ensures Valid()
      ensures (admitted, Abstract()) == Admitted(o, old(Abstract()), nano1, nano2)
    {
      match mode
      case Closed =>
        admitted := true;
      case Open =>
        if nano1 < expiry {
          return false;
        }
        admitted := ToHalfOpenOrReject(nano2);
      case HalfOpen =>
        if Uint32(halfOpenCount) >= o.maxRequests {
          return false;
        }
        halfOpenCount := halfOpenCount + 1;
        if halfOpenCount > Int32(o.maxRequests) {
          halfOpenCount := halfOpenCount - 1;
          return false;
        }
        admitted := true;
    }

    method ToHalfOpenOrReject(nano: int) returns (admitted: bool)
      requires Valid()
      modifies this`mode, this`halfOpenCount, this`halfOpenSuccess, this`halfOpenGen
      ensures Valid()
      ensures (admitted, Abstract()) == Entered(o, old(Abstract()), nano)
    {
      if !mode.Open? {
        if mode.HalfOpen? {
          halfOpenCount := halfOpenCount + 1;
          if halfOpenCount <= Int32(o.maxRequests) {
            return true;
          }
          halfOpenCount := halfOpenCount - 1;
        }
        return false;
      }
      if nano < expiry {
        return false;
      }
      mode := HalfOpen;
      halfOpenGen := halfOpenGen + 1;
      halfOpenSuccess := 0;
      halfOpenCount := 1;
      admitted := true;
    }

    method RecordSuccess(gen: nat, sec: nat)
      requires Valid()
      modifies this, counts, fails
      ensures Valid() && counts == old(counts) && fails == old(fails)
      ensures Abstract() == Succeeded(o, old(Abstract()), gen, sec)
    {
      match mode
      case Open =>
      case Closed =>
        RecordWindow(true, sec);
      case HalfOpen =>
        if halfOpenGen == gen {
          halfOpenSuccess := halfOpenSuccess + 1;
          if Uint32(halfOpenSuccess) >= o.maxRequests {
            ToClosed(sec);
          }
        }
    }

    method RecordFailure(gen: nat, sec1: nat, sec2: nat, nano: int)
      requires Valid()
      modifies this, counts, fails
      ensures Valid() && counts == old(counts) && fails == old(fails)
      ensures Abstract() == Failed(o, old(Abstract()), gen, sec1, sec2, nano)
    {
      match mode
      case Open =>
      case Closed =>
        RecordWindow(false, sec1);
        if mode.Closed? {
          MaybeTrip(sec2, nano);
        }
      case HalfOpen =>
        if halfOpenGen == gen {
          ToOpen(nano);
        }
    }
  }
}
