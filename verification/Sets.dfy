/** Sizes of finite sets, and the option type. */
module Sets {

  datatype Option<T> = None | Some(value: T)

  lemma SubsetSize<T>(a: set<T>, b: set<T>)
    requires a <= b
    ensures |a| <= |b|
  {
    assert b == a + (b - a);
  }

  lemma WithoutSize<T>(a: set<T>, x: T)
    ensures |a - {x}| == |a| - if x in a then 1 else 0
  {
    if x in a {
      assert a == (a - {x}) + {x};
    } else {
      assert a - {x} == a;
    }
  }

  /** The numbers among the first k of r. */
  function Firsts(r: seq<nat>, k: nat): set<nat>
    requires k <= |r|
  {
    set a | 0 <= a < k :: r[a]
  }

  ghost predicate NoRepeats(r: seq<nat>)
  {
    forall a, b :: 0 <= a < b < |r| ==> r[a] != r[b]
  }

  lemma {:induction false} FirstsSize(r: seq<nat>, k: nat)
    requires k <= |r| && NoRepeats(r)
    ensures |Firsts(r, k)| == k
  {
    if k > 0 {
      FirstsSize(r, k - 1);
      assert Firsts(r, k) == Firsts(r, k - 1) + {r[k - 1]};
    } else {
      assert Firsts(r, k) == {};
    }
  }

  /** At most n different numbers are below n. */
  lemma NoRepeatsFit(r: seq<nat>, n: nat)
    requires NoRepeats(r) && forall a :: 0 <= a < |r| ==> r[a] < n
    ensures |r| <= n
  {
    var all := seq(n, i requires 0 <= i < n => i);
    FirstsSize(r, |r|);
    FirstsSize(all, n);
    forall x | x in Firsts(r, |r|)
      ensures x in Firsts(all, n)
    {
      assert all[x] == x;
    }
    SubsetSize(Firsts(r, |r|), Firsts(all, n));
  }
}
