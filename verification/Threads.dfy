/** Bookkeeping shared by the step systems: threads are kept in a map from thread
    number to program point, and a semaphore-like counter of the source is tied to
    the number of threads standing at the points that hold it. */
module Threads {
  import opened Sets

  /** The threads of m whose program point satisfies f. */
  ghost function At<P(!new)>(m: map<nat, P>, f: P -> bool): (r: set<nat>)
    ensures forall t :: t in r <==> t in m && f(m[t])
  {
    set t | t in m && f(m[t])
  }

  /** Moving one thread changes such a count by what that thread leaves and enters. */
  lemma AtUpdate<P(!new)>(m: map<nat, P>, t: nat, p: P, f: P -> bool)
    ensures |At(m[t := p], f)|
         == |At(m, f)| - (if t in m && f(m[t]) then 1 else 0) + (if f(p) then 1 else 0)
  {
    AtOthers(m, t, p, f);
    WithoutSize(At(m, f), t);
    WithoutSize(At(m[t := p], f), t);
  }

  lemma AtOthers<P(!new)>(m: map<nat, P>, t: nat, p: P, f: P -> bool)
    ensures At(m[t := p], f) - {t} == At(m, f) - {t}
  {
    forall u
      ensures u in At(m[t := p], f) - {t} <==> u in At(m, f) - {t}
    {
    }
  }

  /** A positive count has a thread behind it. */
  lemma AtWitness<P(!new)>(m: map<nat, P>, f: P -> bool) returns (t: nat)
    requires |At(m, f)| > 0
    ensures t in m && f(m[t])
  {
    t :| t in At(m, f);
  }

  /** A count of zero rules every thread out; a count of one makes its thread unique. */
  lemma AtFew<P(!new)>(m: map<nat, P>, f: P -> bool)
    ensures |At(m, f)| == 0 ==> forall t :: t in m ==> !f(m[t])
    ensures |At(m, f)| <= 1 ==>
      forall t, u :: t in m && u in m && f(m[t]) && f(m[u]) ==> t == u
  {
    if |At(m, f)| == 0 {
      assert At(m, f) == {};
    }
    if |At(m, f)| <= 1 {
      forall t, u | t in m && u in m && f(m[t]) && f(m[u]) ensures t == u {
        if t != u {
          assert {t, u} <= At(m, f);
          SubsetSize({t, u}, At(m, f));
        }
      }
    }
  }

  /** There is always an unused number. */
  lemma FreshId<P>(m: map<nat, P>) returns (t: nat)
    ensures t !in m
  {
    t := AboveAll(m.Keys);
  }

  lemma {:induction false} AboveAll(ids: set<nat>) returns (t: nat)
    ensures forall i :: i in ids ==> i < t
    decreases |ids|
  {
    t := 0;
    if ids != {} {
      var i :| i in ids;
      var u := AboveAll(ids - {i});
      assert ids == (ids - {i}) + {i};
      t := if i < u then u else i + 1;
    }
  }
}
