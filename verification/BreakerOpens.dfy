/** Which calls a breaker lets in: how long it stays open, and how many probes it takes. */
module BreakerOpens {
  import opened Breaker
  import opened BreakerRuns

  /** The step e opens the breaker. */
  ghost predicate Opens(o: Options, s: Sys, e: Step)
    requires o.Valid()
  {
    Ready(s, e) && !s.a.mode.Open? && Do(o, s, e).a.mode.Open?
  }

  /** The breaker is open before, between and after the steps. */
  ghost predicate OpenAll(o: Options, s: Sys, steps: seq<Step>)
    requires o.Valid() && Runs(o, s, steps)
    decreases |steps|
  {
    s.a.mode.Open? && (steps == [] || OpenAll(o, Do(o, s, steps[0]), steps[1..]))
  }

  /** Only the end of a call opens the breaker, and the expiry counts from its own reading. */
  lemma OpeningIs(o: Options, s: Sys, e: Step)
    requires o.Valid() && Opens(o, s, e)
    ensures e.End? && Do(o, s, e).a.expiry == e.at + o.openDuration
  {
  }

  lemma OpenStays(o: Options, s: Sys, e: Step)
    requires o.Valid() && Ready(s, e) && s.a.mode.Open? && Do(o, s, e).a.mode.Open?
    ensures Do(o, s, e).a == s.a
  {
  }

  lemma {:induction false} OpenKeeps(o: Options, s: Sys, steps: seq<Step>)
    requires o.Valid() && Runs(o, s, steps) && OpenAll(o, s, steps)
    ensures Run(o, s, steps).a == s.a
    decreases |steps|
  {
    if steps != [] {
      OpenStays(o, s, steps[0]);
      OpenKeeps(o, Do(o, s, steps[0]), steps[1..]);
    }
  }

  /** The call id is let in, as the first probe of a new epoch. */
  ghost predicate Probes(s: Sys, s': Sys, id: nat)
  {
    var gen := s.a.gen + 1;
    && s'.a == s.a.(mode := HalfOpen, gen := gen, succ := 0, count := 1)
    && s'.inflight == s.inflight[id := Ticket(gen, true)] && s'.hist == s.hist + [Admission(gen)]
  }

  /** From the step e that opens the breaker, by a trip or by a failed probe, until the state
      changes again: for OpenDuration after e's own reading every call is rejected and changes
      nothing; from then on the first call is let in as the probe of a new epoch; and the ends of
      calls change neither state nor counters nor window. */
  lemma OpenUntil(o: Options, s: Sys, e: Step, steps: seq<Step>, x: Step)
    requires o.Valid() && Opens(o, s, e)
    requires var s1 := Do(o, s, e); Runs(o, s1, steps) && OpenAll(o, s1, steps) && Ready(Run(o, s1, steps), x)
    ensures e.End?
    ensures var s2 := Run(o, Do(o, s, e), steps);
      var s3 := Do(o, s2, x);
      match x
      case Arrive(id, first, second) =>
        if first < e.at + o.openDuration || second < e.at + o.openDuration then s3 == s2 else Probes(s2, s3, id)
      case Enter(id, reading) =>
        if reading < e.at + o.openDuration then s3 == s2 else Probes(s2, s3, id)
      case End(id, _, _, _, _) => s3.a == s2.a && s3.inflight == s2.inflight - {id}
  {
    OpeningIs(o, s, e);
    OpenKeeps(o, Do(o, s, e), steps);
  }

  /** Calls in the other two states: a closed breaker lets every call in and does not change; a
      half-open one lets a call in exactly while fewer than MaxRequests calls were admitted in its
      epoch, if MaxRequests fits an int32, and it is rejected without a trace otherwise. A caller
      that saw an expired Open state is rejected if the breaker has closed since. */
  lemma LetInIff(o: Options, s: Sys, x: Step)
    requires o.Valid() && Reachable(o, s) && !s.a.mode.Open? && Ready(s, x) && !x.End?
    ensures var s' := Do(o, s, x);
      var free := CountOf(s.hist, Admission(s.a.gen)) < o.maxRequests < TWO_31;
      var admitted := if s.a.mode.Closed? then x.Arrive? else free;
      if admitted then
        && s'.inflight == s.inflight[x.id := Ticket(s.a.gen, s.a.mode.HalfOpen?)]
        && s'.hist == s.hist + [Admission(s.a.gen)]
        && s'.a == (if s.a.mode.Closed? then s.a else s.a.(count := s.a.count + 1))
      else s' == s
  {
    SlotsAddUp(o, s);
  }
}
