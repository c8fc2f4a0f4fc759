/** Runs of a breaker under any number of overlapping calls. Admission is one step and
    recording an outcome is one step; every clock reading is arbitrary. */
module BreakerRuns {
  import opened Arith
  import opened Breaker
  import opened Threads

  /** An admitted call: the epoch it captured, and whether it runs as a half-open probe. */
  datatype Ticket = Ticket(gen: nat, probe: bool)

  datatype Event = Admission(gen: nat) | Success(gen: nat) | Failure(gen: nat)

  /** hist logs the admissions and recorded outcomes with the epoch of the call. */
  datatype Sys = Sys(a: Abs, inflight: map<nat, Ticket>, hist: seq<Event>)

  datatype Outcome = Ok | Err | Panic

  /** A call arrives; or a caller that saw an expired Open state gets the lock, whatever the
      state is by then; or the call id ends. A cancelled context ends a call with Err. */
  datatype Step =
    | Arrive(id: nat, nano1: int, nano2: int)
    | Enter(id: nat, nano: int)
    | End(id: nat, out: Outcome, sec1: nat, sec2: nat, at: int)

  ghost function Init(now: nat): Sys
  {
    Sys(Abs(Closed, 0, 0, 0, 0, now, []), map[], [])
  }

  ghost predicate Ready(s: Sys, e: Step)
  {
    match e
    case Arrive(id, _, _) => id !in s.inflight
    case Enter(id, _) => id !in s.inflight
    case End(id, _, _, _, _) => id in s.inflight
  }

  ghost function Let(s: Sys, id: nat, r: (bool, Abs)): Sys
  {
    if !r.0 then s
    else Sys(r.1, s.inflight[id := Ticket(r.1.gen, r.1.mode.HalfOpen?)], s.hist + [Admission(r.1.gen)])
  }

  ghost function Do(o: Options, s: Sys, e: Step): Sys
    requires o.Valid() && Ready(s, e)
  {
    match e
    case Arrive(id, n1, n2) => Let(s, id, Admitted(o, s.a, n1, n2))
    case Enter(id, n) => Let(s, id, Entered(o, s.a, n))
    case End(id, out, sec1, sec2, nano) =>
      var t := s.inflight[id];
      var rest := s.inflight - {id};
      match out
      case Ok => Sys(Succeeded(o, s.a, t.gen, sec1), rest, s.hist + [Success(t.gen)])
      case Err => Sys(Failed(o, s.a, t.gen, sec1, sec2, nano), rest, s.hist + [Failure(t.gen)])
      case Panic =>
        // only a call holding a half-open slot records its panic
        if t.probe then Sys(Failed(o, s.a, t.gen, sec1, sec2, nano), rest, s.hist + [Failure(t.gen)])
        else s.(inflight := rest)
  }

  /** Every step of the sequence is possible where it is taken. */
  ghost predicate Runs(o: Options, s: Sys, steps: seq<Step>)
    requires o.Valid()
    decreases |steps|
  {
    steps == [] || (Ready(s, steps[0]) && Runs(o, Do(o, s, steps[0]), steps[1..]))
  }

  ghost function Run(o: Options, s: Sys, steps: seq<Step>): Sys
    requires o.Valid() && Runs(o, s, steps)
    decreases |steps|
  {
    if steps == [] then s else Run(o, Do(o, s, steps[0]), steps[1..])
  }

  // ----- The invariant -----

  ghost function Carrying(m: map<nat, Ticket>, gen: nat): set<nat>
  {
    set id | id in m && m[id].gen == gen
  }

  function CountOf(hist: seq<Event>, e: Event): nat
  {
    if hist == [] then 0 else CountOf(hist[..|hist| - 1], e) + (if hist[|hist| - 1] == e then 1 else 0)
  }

  lemma CountSnoc(hist: seq<Event>, x: Event, e: Event)
    ensures CountOf(hist + [x], e) == CountOf(hist, e) + (if x == e then 1 else 0)
  {
    assert (hist + [x])[..|hist|] == hist;
  }

  ghost predicate FromPast(hist: seq<Event>, gen: nat)
  {
    forall k :: 0 <= k < |hist| ==> hist[k].gen <= gen
  }

  lemma {:induction false} NothingAhead(hist: seq<Event>, gen: nat, e: Event)
    requires FromPast(hist, gen) && gen < e.gen
    ensures CountOf(hist, e) == 0
  {
    if hist != [] {
      NothingAhead(hist[..|hist| - 1], gen, e);
    }
  }

  ghost predicate Inv(o: Options, s: Sys)
    requires o.Valid()
  {
    && (forall id :: id in s.inflight ==> s.inflight[id].gen <= s.a.gen)
    && FromPast(s.hist, s.a.gen)
    && (!s.a.mode.HalfOpen? ==> s.a.count == 0 && s.a.succ == 0)
    && (s.a.mode.HalfOpen? ==>
          && 0 <= s.a.succ < o.maxRequests && 1 <= s.a.count <= o.maxRequests
          && s.a.count == s.a.succ + |Carrying(s.inflight, s.a.gen)|
          && s.a.count == CountOf(s.hist, Admission(s.a.gen))
          && s.a.succ == CountOf(s.hist, Success(s.a.gen))
          && CountOf(s.hist, Failure(s.a.gen)) == 0
          && (forall id :: id in s.inflight && s.inflight[id].gen == s.a.gen ==> s.inflight[id].probe))
  }

  lemma CarryingAdd(m: map<nat, Ticket>, id: nat, t: Ticket, gen: nat)
    requires id !in m
    ensures |Carrying(m[id := t], gen)| == |Carrying(m, gen)| + (if t.gen == gen then 1 else 0)
  {
    assert Carrying(m[id := t], gen) == Carrying(m, gen) + (if t.gen == gen then {id} else {});
  }

  lemma CarryingDrop(m: map<nat, Ticket>, id: nat, gen: nat)
    requires id in m
    ensures |Carrying(m - {id}, gen)| == |Carrying(m, gen)| - (if m[id].gen == gen then 1 else 0)
  {
    assert Carrying(m - {id}, gen) == Carrying(m, gen) - {id};
  }

  /** What an admission makes of the breaker. */
  ghost predicate Admits(o: Options, a: Abs, a': Abs)
  {
    match a.mode
    case Closed => a' == a
    case Open => a' == a.(mode := HalfOpen, gen := a.gen + 1, succ := 0, count := 1)
    case HalfOpen => a' == a.(count := a.count + 1) && a'.count <= o.maxRequests
  }

  lemma AdmissionAdmits(o: Options, a: Abs, n1: int, n2: int)
    requires o.Valid() && (a.mode.HalfOpen? ==> 1 <= a.count <= o.maxRequests)
    ensures Admitted(o, a, n1, n2).0 ==> Admits(o, a, Admitted(o, a, n1, n2).1)
    ensures !Admitted(o, a, n1, n2).0 ==> Admitted(o, a, n1, n2).1 == a
    ensures Entered(o, a, n2).0 && !a.mode.Closed? ==> Admits(o, a, Entered(o, a, n2).1)
    ensures a.mode.Closed? ==> !Entered(o, a, n2).0
  {
  }

  lemma ArriveKeeps(o: Options, s: Sys, e: Step)
    requires o.Valid() && Inv(o, s) && !e.End? && Ready(s, e)
    ensures Inv(o, Do(o, s, e))
  {
    if e.Arrive? {
      AdmissionAdmits(o, s.a, e.nano1, e.nano2);
      LetKeeps(o, s, e.id, Admitted(o, s.a, e.nano1, e.nano2));
    } else {
      AdmissionAdmits(o, s.a, 0, e.nano);
      LetKeeps(o, s, e.id, Entered(o, s.a, e.nano));
    }
  }

  lemma LetKeeps(o: Options, s: Sys, id: nat, r: (bool, Abs))
    requires o.Valid() && Inv(o, s) && id !in s.inflight && (r.0 ==> Admits(o, s.a, r.1))
    ensures Inv(o, Let(s, id, r))
  {
    if r.0 {
      var a := r.1;
      CarryingAdd(s.inflight, id, Ticket(a.gen, a.mode.HalfOpen?), a.gen);
      CountSnoc(s.hist, Admission(a.gen), Admission(a.gen));
      CountSnoc(s.hist, Admission(a.gen), Success(a.gen));
      CountSnoc(s.hist, Admission(a.gen), Failure(a.gen));
      if s.a.mode.Open? {
        NewEpoch(o, s);
      }
    }
  }

  lemma NewEpoch(o: Options, s: Sys)
    requires o.Valid() && Inv(o, s)
    ensures var gen := s.a.gen + 1;
      && CountOf(s.hist, Admission(gen)) == CountOf(s.hist, Success(gen)) == CountOf(s.hist, Failure(gen)) == 0
      && Carrying(s.inflight, gen) == {}
  {
    var gen := s.a.gen + 1;
    NothingAhead(s.hist, s.a.gen, Admission(gen));
    NothingAhead(s.hist, s.a.gen, Success(gen));
    NothingAhead(s.hist, s.a.gen, Failure(gen));
  }

  lemma EndCounts(o: Options, s: Sys, id: nat, x: Event)
    requires o.Valid() && Inv(o, s) && id in s.inflight && s.inflight[id].gen == x.gen && !x.Admission?
    ensures |Carrying(s.inflight - {id}, s.a.gen)|
      == |Carrying(s.inflight, s.a.gen)| - (if x.gen == s.a.gen then 1 else 0)
    ensures CountOf(s.hist + [x], Admission(s.a.gen)) == CountOf(s.hist, Admission(s.a.gen))
    ensures CountOf(s.hist + [x], Success(s.a.gen))
      == CountOf(s.hist, Success(s.a.gen)) + (if x == Success(s.a.gen) then 1 else 0)
    ensures CountOf(s.hist + [x], Failure(s.a.gen))
      == CountOf(s.hist, Failure(s.a.gen)) + (if x == Failure(s.a.gen) then 1 else 0)
    ensures FromPast(s.hist + [x], s.a.gen)
  {
    CarryingDrop(s.inflight, id, s.a.gen);
    CountSnoc(s.hist, x, Admission(s.a.gen));
    CountSnoc(s.hist, x, Success(s.a.gen));
    CountSnoc(s.hist, x, Failure(s.a.gen));
  }

  lemma OkKeeps(o: Options, s: Sys, e: Step)
    requires o.Valid() && Inv(o, s) && e.End? && Ready(s, e) && e.out.Ok?
    ensures Inv(o, Do(o, s, e))
  {
    EndCounts(o, s, e.id, Success(s.inflight[e.id].gen));
  }

  lemma FailKeeps(o: Options, s: Sys, e: Step)
    requires o.Valid() && Inv(o, s) && e.End? && Ready(s, e) && !e.out.Ok?
    ensures Inv(o, Do(o, s, e))
  {
    EndCounts(o, s, e.id, Failure(s.inflight[e.id].gen));
  }

  lemma StepKeeps(o: Options, s: Sys, e: Step)
    requires o.Valid() && Inv(o, s) && Ready(s, e)
    ensures Inv(o, Do(o, s, e))
  {
    match e
    case Arrive(_, _, _) => ArriveKeeps(o, s, e);
    case Enter(_, _) => ArriveKeeps(o, s, e);
    case End(_, out, _, _, _) => if out.Ok? { OkKeeps(o, s, e); } else { FailKeeps(o, s, e); }
  }

  lemma {:induction false} RunsKeepInv(o: Options, s: Sys, steps: seq<Step>)
    requires o.Valid() && Inv(o, s) && Runs(o, s, steps)
    ensures Inv(o, Run(o, s, steps))
    decreases |steps|
  {
    if steps != [] {
      StepKeeps(o, s, steps[0]);
      RunsKeepInv(o, Do(o, s, steps[0]), steps[1..]);
    }
  }

  // ----- Main results -----

  /** s is where some run of a new breaker gets to. */
  ghost predicate Reachable(o: Options, s: Sys)
    requires o.Valid()
  {
    exists now, steps :: ReachedBy(o, now, steps, s)
  }

  ghost predicate ReachedBy(o: Options, now: nat, steps: seq<Step>, s: Sys)
    requires o.Valid()
  {
    Runs(o, Init(now), steps) && s == Run(o, Init(now), steps)
  }

  /** In every reachable half-open state the slots taken are this epoch's successes plus its
      calls in flight, so there is a free slot or a probe whose end frees or closes. */
  lemma SlotsAddUp(o: Options, s: Sys)
    requires o.Valid() && Reachable(o, s)
    ensures Inv(o, s)
    ensures s.a.mode.HalfOpen? ==>
      && s.a.count == s.a.succ + |Carrying(s.inflight, s.a.gen)|
      && 0 <= s.a.succ < o.maxRequests && 1 <= s.a.count <= o.maxRequests
      && (s.a.count < o.maxRequests || Carrying(s.inflight, s.a.gen) != {})
  {
    var now, steps :| ReachedBy(o, now, steps, s);
    RunsKeepInv(o, Init(now), steps);
  }

  /** What one step makes of a reachable half-open breaker. It closes exactly when a call of
      this epoch succeeds as the epoch's maxRequests-th success, and then every call admitted
      in the epoch has succeeded; it opens exactly when a call of this epoch fails or
      panics; the end of a call of an earlier epoch changes neither state nor counters. */
  lemma HalfOpenStep(o: Options, s: Sys, e: Step)
    requires o.Valid() && Reachable(o, s) && s.a.mode.HalfOpen? && Ready(s, e)
    ensures var s' := Do(o, s, e);
      var own := e.End? && s.inflight[e.id].gen == s.a.gen;
      && (s'.a.mode.Closed? <==> own && e.out.Ok? && CountOf(s'.hist, Success(s.a.gen)) == o.maxRequests)
      && (s'.a.mode.Closed? ==>
            && CountOf(s'.hist, Admission(s.a.gen)) == o.maxRequests
            && CountOf(s'.hist, Failure(s.a.gen)) == 0
            && Carrying(s'.inflight, s.a.gen) == {})
      && (s'.a.mode.Open? <==> own && !e.out.Ok?)
      && (e.End? && !own ==> s'.a == s.a)
  {
    SlotsAddUp(o, s);
    HalfOpenModes(o, s, e);
    if e.End? && e.out.Ok? {
      EndCounts(o, s, e.id, Success(s.inflight[e.id].gen));
    }
  }

  /** The state after one step, by the epoch's counter of successes. */
  lemma HalfOpenModes(o: Options, s: Sys, e: Step)
    requires o.Valid() && Inv(o, s) && s.a.mode.HalfOpen? && Ready(s, e)
    ensures var s' := Do(o, s, e);
      var own := e.End? && s.inflight[e.id].gen == s.a.gen;
      && (s'.a.mode.Closed? <==> own && e.out.Ok? && s.a.succ + 1 == o.maxRequests)
      && (s'.a.mode.Open? <==> own && !e.out.Ok?)
      && (e.End? && !own ==> s'.a == s.a)
      && (e.End? && e.out.Ok? ==>
            s'.hist == s.hist + [Success(s.inflight[e.id].gen)] && s'.inflight == s.inflight - {e.id})
  {
  }

  /** The end of a call that is recorded in Closed: everything but a panic outside a probe. */
  ghost predicate Recorded(s: Sys, e: Step)
    requires Ready(s, e)
  {
    e.End? && s.a.mode.Closed? && (e.out.Panic? ==> s.inflight[e.id].probe)
  }

  /** The newest second read and the calls recorded since the last recovery, after one step more:
      a call is charged to the newest second read so far. */
  ghost function Charged(s: Sys, e: Step, after: Mode, so: (nat, seq<Call>)): (nat, seq<Call>)
    requires Ready(s, e)
  {
    if Recorded(s, e) then
      var sec := Max(so.0, e.sec1);
      (if e.out.Ok? then sec else Max(sec, e.sec2), so.1 + [Call(sec, !e.out.Ok?)])
    else if e.End? && after.Closed? && !s.a.mode.Closed? then (e.sec1, [])
    else so
  }

  /** The same over a run, from the ends of its calls alone. */
  ghost function Endings(o: Options, s: Sys, steps: seq<Step>, so: (nat, seq<Call>)): (nat, seq<Call>)
    requires o.Valid() && Runs(o, s, steps)
    decreases |steps|
  {
    if steps == [] then so
    else
      var s' := Do(o, s, steps[0]);
      Endings(o, s', steps[1..], Charged(s, steps[0], s'.a.mode, so))
  }

  /** The window counts the ends of calls since the last recovery, in the order they came. */
  lemma {:induction false} LogIsEndings(o: Options, s: Sys, steps: seq<Step>)
    requires o.Valid() && Runs(o, s, steps)
    ensures Endings(o, s, steps, (s.a.base, s.a.log)) == (Run(o, s, steps).a.base, Run(o, s, steps).a.log)
    decreases |steps|
  {
    if steps != [] {
      StepCharges(o, s, steps[0]);
      LogIsEndings(o, Do(o, s, steps[0]), steps[1..]);
    }
  }

  lemma StepCharges(o: Options, s: Sys, e: Step)
    requires o.Valid() && Ready(s, e)
    ensures var s' := Do(o, s, e); Charged(s, e, s'.a.mode, (s.a.base, s.a.log)) == (s'.a.base, s'.a.log)
  {
  }

  /** The calls of the window that ends at base meet MinRequests and FailRate. */
  ghost predicate Meets(o: Options, base: nat, log: seq<Call>)
    requires o.Valid()
  {
    var total, fails := Window(log, base, o.window, false), Window(log, base, o.window, true);
    && Uint32(total) >= o.minRequests
    && if o.failRate <= 0.0 then fails > 0 else fails as real >= o.failRate * total as real
  }

  /** In every run a closed breaker opens exactly on a recorded failure after which the calls
      recorded since the last recovery, in the window that ends at the newest second read, meet
      MinRequests and FailRate. */
  lemma TripsExactly(o: Options, now: nat, steps: seq<Step>, e: Step)
    requires o.Valid() && Runs(o, Init(now), steps)
    requires var s := Run(o, Init(now), steps); s.a.mode.Closed? && Ready(s, e)
    ensures var s := Run(o, Init(now), steps);
      var s' := Do(o, s, e);
      var so := Charged(s, e, s'.a.mode, Endings(o, Init(now), steps, (now, [])));
      !s'.a.mode.HalfOpen? && (s'.a.mode.Open? <==> Recorded(s, e) && !e.out.Ok? && Meets(o, so.0, so.1))
  {
    LogIsEndings(o, Init(now), steps);
    var s := Run(o, Init(now), steps);
    StepCharges(o, s, e);
    StepTrips(o, s, e);
  }

  lemma StepTrips(o: Options, s: Sys, e: Step)
    requires o.Valid() && s.a.mode.Closed? && Ready(s, e)
    ensures var s' := Do(o, s, e);
      !s'.a.mode.HalfOpen? && (s'.a.mode.Open? <==> Recorded(s, e) && !e.out.Ok? && Meets(o, s'.a.base, s'.a.log))
  {
    if Recorded(s, e) && !e.out.Ok? {
      FailureTrips(o, s.a, s.inflight[e.id].gen, e);
      TrippingMeans(o, Do(o, s, e).a);
    }
  }

  lemma FailureTrips(o: Options, a: Abs, gen: nat, e: Step)
    requires o.Valid() && a.mode.Closed? && e.End?
    ensures var b := Failed(o, a, gen, e.sec1, e.sec2, e.at);
      (b.mode.Open? <==> Tripping(o, b)) && !b.mode.HalfOpen?
  {
  }

  lemma TrippingMeans(o: Options, a: Abs)
    requires o.Valid()
    ensures Tripping(o, a) <==> Meets(o, a.base, a.log)
  {
    var total, fails := Window(a.log, a.base, o.window, false), Window(a.log, a.base, o.window, true);
    if total > 0 {
      RateMeans(fails, total, o.failRate);
    }
  }

  lemma RateMeans(fails: nat, total: nat, rate: real)
    requires total > 0
    ensures fails as real / total as real >= rate <==> fails as real >= rate * total as real
  {
    var q := fails as real / total as real;
    assert q * total as real == fails as real;
    if q >= rate {
      assert (q - rate) * total as real >= 0.0;
    } else {
      assert (rate - q) * total as real > 0.0;
    }
  }

  ghost predicate CanClose(o: Options, s: Sys)
    requires o.Valid()
  {
    exists steps :: Runs(o, s, steps) && Run(o, s, steps).a.mode.Closed?
  }

  /** A reachable half-open breaker can close again if and only if MaxRequests fits an int32:
      the admission test compares the slot count with int32(MaxRequests), which is negative
      from 2^31 on, and then no second probe of an epoch is ever admitted. */
  lemma RecoversIff(o: Options, s: Sys)
    requires o.Valid() && Reachable(o, s) && s.a.mode.HalfOpen?
    ensures CanClose(o, s) <==> o.maxRequests < TWO_31
  {
    SlotsAddUp(o, s);
    if o.maxRequests < TWO_31 {
      var steps := RecoverySteps(o, s);
    } else {
      var now, steps :| ReachedBy(o, now, steps, s);
      OneProbeOnly(o, Init(now), steps);
      forall more | Runs(o, s, more) ensures !Run(o, s, more).a.mode.Closed? {
        StaysOpen(o, s, more);
      }
    }
  }

  const WIDE: Options := Options(TWO_31, 1, 0.5, 1, 0)

  /** The failing input: with MaxRequests 2^31 one failure opens the breaker, the next call is
      its probe and succeeds, and the half-open breaker has then no slot taken by a call, lets no
      call in and never changes again. */
  lemma WideIsStuck() returns (steps: seq<Step>, s: Sys)
    ensures WIDE.Valid() && ReachedBy(WIDE, 0, steps, s)
    ensures s.a.mode.HalfOpen? && s.a.succ == s.a.count == 1 && s.inflight == map[]
    ensures forall more :: Runs(WIDE, s, more) ==> Run(WIDE, s, more) == s
  {
    var o := WIDE;
    var s1 := Do(o, Init(0), Arrive(0, 0, 0));
    var s2 := WideOpens(o, s1);
    var s3 := WideProbes(o, s2);
    s := WideSucceeds(o, s3);
    steps := PrependStep(o, s3, End(1, Ok, 0, 0, 0), []);
    steps := PrependStep(o, s2, Arrive(1, 0, 0), steps);
    steps := PrependStep(o, s1, End(0, Err, 0, 0, 0), steps);
    steps := PrependStep(o, Init(0), Arrive(0, 0, 0), steps);
    forall more | Runs(o, s, more)
      ensures Run(o, s, more) == s
    {
      StuckStays(o, s, more);
    }
  }

  lemma WideOpens(o: Options, s: Sys) returns (s': Sys)
    requires o == WIDE && s.a == Init(0).a && s.inflight == map[0 := Ticket(0, false)]
    ensures s' == Do(o, s, End(0, Err, 0, 0, 0))
    ensures s'.a.mode.Open? && s'.a.expiry == 0 && s'.a.gen == 0 && s'.inflight == map[]
  {
    var e := End(0, Err, 0, 0, 0);
    s' := Do(o, s, e);
    StepTrips(o, s, e);
    StepCharges(o, s, e);
    assert Charged(s, e, s'.a.mode, (0, [])) == (0, [] + [Call(0, true)]);
    FailedOnce(o, s'.a.log);
    assert s'.inflight == map[];
  }

  lemma FailedOnce(o: Options, log: seq<Call>)
    requires o.Valid() && o.window == o.minRequests == 1 && o.failRate == 0.5 && log == [Call(0, true)]
    ensures Meets(o, 0, log)
  {
    OneFailure(log, 0, 1);
  }

  lemma WideProbes(o: Options, s: Sys) returns (s': Sys)
    requires o == WIDE && s.a.mode.Open? && s.a.expiry == 0 && s.a.gen == 0 && s.inflight == map[]
    ensures s' == Do(o, s, Arrive(1, 0, 0))
    ensures s'.a.mode.HalfOpen? && s'.a.count == 1 && s'.a.succ == 0 && s'.a.gen == 1
    ensures s'.inflight == map[1 := Ticket(1, true)]
  {
    s' := Do(o, s, Arrive(1, 0, 0));
  }

  lemma WideSucceeds(o: Options, s: Sys) returns (s': Sys)
    requires o == WIDE && s.a.mode.HalfOpen? && s.a.count == 1 && s.a.succ == 0 && s.a.gen == 1
    requires s.inflight == map[1 := Ticket(1, true)]
    ensures s' == Do(o, s, End(1, Ok, 0, 0, 0))
    ensures s'.a.mode.HalfOpen? && s'.a.succ == s'.a.count == 1 && s'.inflight == map[]
  {
    s' := Do(o, s, End(1, Ok, 0, 0, 0));
    assert s'.inflight == map[];
  }

  lemma OneFailure(log: seq<Call>, base: nat, n: nat)
    requires log == [Call(0, true)] && base == 0 && n == 1
    ensures Window(log, base, n, false) == Window(log, base, n, true) == 1
  {
    assert log[..0] == [];
    assert Tally(log[..0], base - n, base, n, 0, n, false) == Tally(log[..0], base - n, base, n, 0, n, true) == 0;
  }

  lemma {:induction false} StuckStays(o: Options, s: Sys, steps: seq<Step>)
    requires o == WIDE && Runs(o, s, steps) && s.a.mode.HalfOpen? && s.a.count == 1 && s.inflight == map[]
    ensures Run(o, s, steps) == s
    decreases |steps|
  {
    if steps != [] {
      assert Do(o, s, steps[0]) == s;
      StuckStays(o, s, steps[1..]);
    }
  }

  lemma PrependStep(o: Options, s: Sys, e: Step, rest: seq<Step>) returns (steps: seq<Step>)
    requires o.Valid() && Ready(s, e) && Runs(o, Do(o, s, e), rest)
    ensures Runs(o, s, steps) && Run(o, s, steps) == Run(o, Do(o, s, e), rest)
  {
    steps := [e] + rest;
    assert steps[1..] == rest;
  }

  /** Let the probes in flight succeed and send new ones: that closes the breaker. */
  lemma {:induction false} RecoverySteps(o: Options, s: Sys) returns (steps: seq<Step>)
    requires o.Valid() && Inv(o, s) && s.a.mode.HalfOpen? && o.maxRequests < TWO_31
    ensures Runs(o, s, steps) && Run(o, s, steps).a.mode.Closed?
    decreases o.maxRequests - s.a.succ, o.maxRequests - s.a.count
  {
    var e: Step;
    if Carrying(s.inflight, s.a.gen) != {} {
      var id :| id in Carrying(s.inflight, s.a.gen);
      e := End(id, Ok, 0, 0, 0);
    } else {
      var id := FreshId(s.inflight);
      e := Arrive(id, 0, 0);
    }
    var s' := Do(o, s, e);
    StepKeeps(o, s, e);
    var rest: seq<Step> := [];
    if !s'.a.mode.Closed? {
      rest := RecoverySteps(o, s');
    }
    steps := PrependStep(o, s, e, rest);
  }

  lemma OneProbeStep(o: Options, s: Sys, e: Step)
    requires o.Valid() && o.maxRequests >= TWO_31 && Ready(s, e) && (s.a.mode.HalfOpen? ==> s.a.count == 1)
    ensures var s' := Do(o, s, e); s'.a.mode.HalfOpen? ==> s'.a.count == 1
  {
  }

  /** With int32(MaxRequests) negative a half-open epoch has one slot. */
  lemma {:induction false} OneProbeOnly(o: Options, s: Sys, steps: seq<Step>)
    requires o.Valid() && o.maxRequests >= TWO_31 && Inv(o, s) && Runs(o, s, steps)
    requires s.a.mode.HalfOpen? ==> s.a.count == 1
    ensures var s' := Run(o, s, steps); s'.a.mode.HalfOpen? ==> s'.a.count == 1
    decreases |steps|
  {
    if steps != [] {
      StepKeeps(o, s, steps[0]);
      OneProbeStep(o, s, steps[0]);
      OneProbeOnly(o, Do(o, s, steps[0]), steps[1..]);
    }
  }

  lemma {:induction false} StaysOpen(o: Options, s: Sys, steps: seq<Step>)
    requires o.Valid() && o.maxRequests >= TWO_31 && Inv(o, s) && Runs(o, s, steps)
    requires !s.a.mode.Closed? && (s.a.mode.HalfOpen? ==> s.a.count == 1)
    ensures !Run(o, s, steps).a.mode.Closed?
    decreases |steps|
  {
    if steps != [] {
      StepKeeps(o, s, steps[0]);
      StaysOpen(o, Do(o, s, steps[0]), steps[1..]);
    }
  }
}
