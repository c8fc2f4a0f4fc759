/** Rendezvous hashing: a key belongs to the node with the highest hash of id and key. */
module ConsistentHash {
  import opened Sets

  type Node(!new, ==)

  /** The caller's identity function and the hash, both arbitrary. */
  datatype Rule = Rule(id: Node -> string, hash: string -> nat)
  {
    function Score(n: Node, key: string): nat { hash(id(n) + key) }
  }

  // ----- Who owns a key -----

  /** The first node with the highest score. */
  function Owner(r: Rule, nodes: seq<Node>, key: string): (o: Option<Node>)
    ensures o.None? <==> nodes == []
  {
    if nodes == [] then None
    else
      var last, o := nodes[|nodes| - 1], Owner(r, nodes[..|nodes| - 1], key);
      if o.None? || r.Score(last, key) > r.Score(o.value, key) then Some(last) else o
  }

  lemma {:induction false} OwnerIs(r: Rule, nodes: seq<Node>, key: string)
    ensures var o := Owner(r, nodes, key);
      o.Some? ==> o.value in nodes && forall i :: 0 <= i < |nodes| ==> r.Score(nodes[i], key) <= r.Score(o.value, key)
  {
    if nodes != [] {
      OwnerIs(r, nodes[..|nodes| - 1], key);
    }
  }

  predicate Has(r: Rule, nodes: seq<Node>, id: string)
  {
    exists i :: 0 <= i < |nodes| && r.id(nodes[i]) == id
  }

  ghost predicate Distinct(r: Rule, nodes: seq<Node>)
  {
    forall i, j :: 0 <= i < j < |nodes| ==> r.id(nodes[i]) != r.id(nodes[j])
  }

  function Without(r: Rule, nodes: seq<Node>, id: string): seq<Node>
  {
    if nodes == [] then []
    else
      var rest := Without(r, nodes[..|nodes| - 1], id);
      if r.id(nodes[|nodes| - 1]) == id then rest else rest + [nodes[|nodes| - 1]]
  }

  function Appended(r: Rule, nodes: seq<Node>, more: seq<Node>): seq<Node>
  {
    if more == [] then nodes
    else
      var all := Appended(r, nodes, more[..|more| - 1]);
      if Has(r, all, r.id(more[|more| - 1])) then all else all + [more[|more| - 1]]
  }

  // ----- The map -----

  class Map {
    const r: Rule
    var nodes: seq<Node>

    ghost predicate Valid()
      reads this
    {
      Distinct(r, nodes)
    }

    constructor (r: Rule)
      ensures Valid() && this.r == r && nodes == []
    {
      this.r := r;
      nodes := [];
    }

    method ContainsLocked(id: string) returns (found: bool)
      ensures found == Has(r, nodes, id)
    {
      for i := 0 to |nodes|
        invariant forall j :: 0 <= j < i ==> r.id(nodes[j]) != id
      {
        if r.id(nodes[i]) == id {
          return true;
        }
      }
      found := false;
    }

    method Add(more: seq<Node>)
      requires Valid()
      modifies this`nodes
      ensures Valid() && nodes == Appended(r, old(nodes), more)
    {
      for i := 0 to |more|
        invariant Valid() && nodes == Appended(r, old(nodes), more[..i])
      {
        assert more[..i + 1][..i] == more[..i];
        var found := ContainsLocked(r.id(more[i]));
        if !found {
          nodes := nodes + [more[i]];
        }
      }
      assert more[..|more|] == more;
    }

    method Remove(node: Node)
      requires Valid()
      modifies this`nodes
      ensures Valid() && nodes == Without(r, old(nodes), r.id(node))
    {
      var target, out := r.id(node), [];
      for i := 0 to |nodes|
        invariant out == Without(r, nodes[..i], target)
      {
        assert nodes[..i + 1][..i] == nodes[..i];
        if r.id(nodes[i]) != target {
          out := out + [nodes[i]];
        }
      }
      assert nodes[..|nodes|] == nodes;
      WithoutMeans(r, nodes, target);
      nodes := out;
    }

    method Get(key: string) returns (best: Option<Node>)
      ensures best == Owner(r, nodes, key)
    {
      best := None;
      var bestScore := 0;
      for i := 0 to |nodes|
        invariant best == Owner(r, nodes[..i], key)
        invariant best.Some? ==> bestScore == r.Score(best.value, key)
      {
        assert nodes[..i + 1][..i] == nodes[..i];
        var score := r.Score(nodes[i], key);
        if best.None? || score > bestScore {
          bestScore, best := score, Some(nodes[i]);
        }
      }
      assert nodes[..|nodes|] == nodes;
    }

    method GetN(key: string, n: int) returns (out: seq<Node>)
      ensures |out| == if n <= 0 then 0 else if n < |nodes| then n else |nodes|
      ensures Top(r, nodes, key, out)
      ensures out != [] ==> Owner(r, nodes, key) == Some(out[0])
    {
      if |nodes| == 0 || n <= 0 {
        ChosenIsTop(r, nodes, key, nodes, 0);
        return [];
      }
      var m, all := if n > |nodes| then |nodes| else n, nodes;
      var a := new Node[|nodes|](i requires 0 <= i < |all| => all[i]);
      assert a[..] == nodes;
      Select(a, m, key);
      out := a[..m];
      ChosenIsTop(r, nodes, key, a[..], m);
    }

    /** m rounds of selection sort. */
    method Select(a: array<Node>, m: nat, key: string)
      requires m <= a.Length
      modifies a
      ensures Chosen(r, old(a[..]), key, a[..], m)
    {
      ghost var all := a[..];
      for i := 0 to m
        invariant Chosen(r, all, key, a[..], i)
      {
        var max := FindMax(a, i, key);
        ghost var before := a[..];
        a[i], a[max] := a[max], a[i];
        ChosenStep(r, all, key, before, a[..], i, max);
      }
    }

    /** First of the highest scores from i on. */
    method FindMax(a: array<Node>, i: nat, key: string) returns (max: nat)
      requires i < a.Length
      ensures FirstMax(r, a[..], key, i, max)
    {
      max := i;
      for j := i + 1 to a.Length
        invariant i <= max < j
        invariant forall k :: i <= k < j ==> r.Score(a[k], key) <= r.Score(a[max], key)
        invariant forall k :: i <= k < max ==> r.Score(a[k], key) < r.Score(a[max], key)
      {
        if r.Score(a[j], key) > r.Score(a[max], key) {
          max := j;
        }
      }
    }
  }

  // ----- Selection -----

  ghost predicate FirstMax(r: Rule, s: seq<Node>, key: string, i: nat, max: nat)
  {
    && i <= max < |s|
    && (forall k :: i <= k < |s| ==> r.Score(s[k], key) <= r.Score(s[max], key))
    && (forall k :: i <= k < max ==> r.Score(s[k], key) < r.Score(s[max], key))
  }

  /** out is a best choice of that many nodes, best first, and rest is the others. */
  ghost predicate TopWith(r: Rule, nodes: seq<Node>, key: string, out: seq<Node>, rest: seq<Node>)
  {
    && multiset(out + rest) == multiset(nodes)
    && (forall i, j :: 0 <= i < j < |out| ==> r.Score(out[i], key) >= r.Score(out[j], key))
    && (forall i, j :: 0 <= i < |out| && 0 <= j < |rest| ==> r.Score(out[i], key) >= r.Score(rest[j], key))
  }

  ghost predicate Top(r: Rule, nodes: seq<Node>, key: string, out: seq<Node>)
  {
    exists rest :: TopWith(r, nodes, key, out, rest)
  }

  /** The selection after i rounds. */
  ghost predicate Chosen(r: Rule, nodes: seq<Node>, key: string, s: seq<Node>, i: nat)
  {
    && i <= |s| == |nodes| && multiset(s) == multiset(nodes)
    && Falls(r, key, s, i)
    && (if i == 0 then s == nodes else Owner(r, nodes, key) == Some(s[0]))
  }

  lemma ChosenIsTop(r: Rule, nodes: seq<Node>, key: string, s: seq<Node>, m: nat)
    requires Chosen(r, nodes, key, s, m)
    ensures Top(r, nodes, key, s[..m])
  {
    assert s[..m] + s[m..] == s;
    assert TopWith(r, nodes, key, s[..m], s[m..]);
  }

  lemma ChosenStep(r: Rule, nodes: seq<Node>, key: string, s: seq<Node>, s': seq<Node>, i: nat, max: nat)
    requires Chosen(r, nodes, key, s, i) && i < |s| && FirstMax(r, s, key, i, max)
    requires s' == s[i := s[max]][max := s[i]]
    ensures Chosen(r, nodes, key, s', i + 1)
  {
    SwapPermutes(s, i, max);
    SwapSelects(r, key, s, s', i, max);
    if i == 0 {
      FirstOwns(r, nodes, key, max);
    }
  }

  lemma SwapPermutes(s: seq<Node>, i: nat, j: nat)
    requires i < |s| && j < |s|
    ensures multiset(s[i := s[j]][j := s[i]]) == multiset(s)
  {
  }

  ghost predicate Falls(r: Rule, key: string, s: seq<Node>, i: nat)
  {
    forall j, k :: 0 <= j < i && j < k < |s| ==> r.Score(s[j], key) >= r.Score(s[k], key)
  }

  lemma SwapSelects(r: Rule, key: string, s: seq<Node>, s': seq<Node>, i: nat, max: nat)
    requires Falls(r, key, s, i) && i < |s| && FirstMax(r, s, key, i, max)
    requires s' == s[i := s[max]][max := s[i]]
    ensures Falls(r, key, s', i + 1)
  {
  }

  lemma {:induction false} FirstOwns(r: Rule, nodes: seq<Node>, key: string, max: nat)
    requires FirstMax(r, nodes, key, 0, max)
    ensures Owner(r, nodes, key) == Some(nodes[max])
  {
    var n := |nodes| - 1;
    if max < n {
      FirstOwns(r, nodes[..n], key, max);
    } else if n > 0 {
      OwnerIs(r, nodes[..n], key);
    }
  }

  // ----- Membership changes -----

  lemma {:induction false} WithoutMeans(r: Rule, nodes: seq<Node>, id: string)
    ensures forall n :: n in Without(r, nodes, id) <==> n in nodes && r.id(n) != id
    ensures Distinct(r, nodes) ==> Distinct(r, Without(r, nodes, id))
  {
    if nodes != [] {
      var front, last := nodes[..|nodes| - 1], nodes[|nodes| - 1];
      WithoutMeans(r, front, id);
      assert nodes == front + [last];
    }
  }

  /** Removing a node changes the owner of exactly the keys that the node owned. */
  lemma RemoveMovesOwned(r: Rule, nodes: seq<Node>, id: string, key: string)
    ensures var o := Owner(r, nodes, key);
      Owner(r, Without(r, nodes, id), key) == o <==> (o.Some? ==> r.id(o.value) != id)
  {
    OwnerWithout(r, nodes, id, key);
    WithoutMeans(r, nodes, id);
    OwnerIs(r, Without(r, nodes, id), key);
  }

  lemma {:induction false} OwnerWithout(r: Rule, nodes: seq<Node>, id: string, key: string)
    ensures var o, p := Owner(r, nodes, key), Owner(r, Without(r, nodes, id), key);
      o.Some? ==> if r.id(o.value) != id then p == o else p.Some? ==> r.Score(p.value, key) <= r.Score(o.value, key)
  {
    if nodes != [] {
      var front, last := nodes[..|nodes| - 1], nodes[|nodes| - 1];
      OwnerWithout(r, front, id, key);
      var rest := Without(r, front, id);
      assert (rest + [last])[..|rest|] == rest;
    }
  }

  lemma HasMore(r: Rule, nodes: seq<Node>, extra: seq<Node>, id: string)
    requires Has(r, nodes, id)
    ensures Has(r, nodes + extra, id)
  {
    var i :| 0 <= i < |nodes| && r.id(nodes[i]) == id;
    assert (nodes + extra)[i] == nodes[i];
  }

  /** The nodes that Add really adds. */
  lemma {:induction false} AppendedMeans(r: Rule, nodes: seq<Node>, more: seq<Node>) returns (extra: seq<Node>)
    ensures Appended(r, nodes, more) == nodes + extra
    ensures forall n :: n in extra ==> n in more && !Has(r, nodes, r.id(n))
    ensures forall n :: n in more ==> Has(r, nodes + extra, r.id(n))
  {
    if more == [] {
      extra := [];
    } else {
      var front, last := more[..|more| - 1], more[|more| - 1];
      var some := AppendedMeans(r, nodes, front);
      extra := some;
      if !Has(r, nodes + some, r.id(last)) {
        extra := some + [last];
        assert nodes + extra == nodes + some + [last];
        assert Has(r, nodes + extra, r.id((nodes + extra)[|nodes + some|]));
        forall n | n in front
          ensures Has(r, nodes + extra, r.id(n))
        {
          HasMore(r, nodes + some, [last], r.id(n));
        }
        if Has(r, nodes, r.id(last)) {
          HasMore(r, nodes, some, r.id(last));
        }
      }
    }
  }

  lemma {:induction false} OwnerAppend(r: Rule, nodes: seq<Node>, extra: seq<Node>, key: string)
    ensures var o := Owner(r, nodes + extra, key);
      o == Owner(r, nodes, key) || (o.Some? && o.value in extra)
  {
    if extra == [] {
      assert nodes + extra == nodes;
    } else {
      var front := extra[..|extra| - 1];
      OwnerAppend(r, nodes, front, key);
      assert (nodes + extra)[..|nodes + extra| - 1] == nodes + front;
    }
  }

  /** Adding nodes leaves a key where it is or moves it onto a node that is new to the map. */
  lemma AddMovesToNew(r: Rule, nodes: seq<Node>, more: seq<Node>, key: string)
    ensures var o := Owner(r, Appended(r, nodes, more), key);
      o == Owner(r, nodes, key) || (o.Some? && o.value in more && !Has(r, nodes, r.id(o.value)))
  {
    var extra := AppendedMeans(r, nodes, more);
    OwnerAppend(r, nodes, extra, key);
  }

  // ----- GetN and repeated Get -----

  ghost predicate DistinctScores(r: Rule, nodes: seq<Node>, key: string)
  {
    forall i, j :: 0 <= i < j < |nodes| ==> r.Score(nodes[i], key) != r.Score(nodes[j], key)
  }

  /** Get repeated n times, each answer removed before the next. */
  function Repeated(r: Rule, nodes: seq<Node>, key: string, n: nat): seq<Node>
    decreases n
  {
    var o := Owner(r, nodes, key);
    if n == 0 || o.None? then [] else [o.value] + Repeated(r, Without(r, nodes, r.id(o.value)), key, n - 1)
  }

  /** With distinct scores GetN is repeated Get. */
  lemma {:induction false} GetNRepeatsGet(r: Rule, nodes: seq<Node>, key: string, out: seq<Node>)
    requires DistinctScores(r, nodes, key) && Top(r, nodes, key, out)
    ensures out == Repeated(r, nodes, key, |out|)
    decreases |out|
  {
    if out != [] {
      var rest :| TopWith(r, nodes, key, out, rest);
      TopIsOwner(r, nodes, key, out, rest);
      TopRest(r, nodes, key, out, rest);
      WithoutDistinct(r, nodes, r.id(out[0]), key);
      assert out == [out[0]] + out[1..];
      GetNRepeatsGet(r, Without(r, nodes, r.id(out[0])), key, out[1..]);
    }
  }

  lemma TopRest(r: Rule, nodes: seq<Node>, key: string, out: seq<Node>, rest: seq<Node>)
    requires DistinctScores(r, nodes, key) && TopWith(r, nodes, key, out, rest) && out != [] && out[0] in nodes
    ensures TopWith(r, Without(r, nodes, r.id(out[0])), key, out[1..], rest)
  {
    WithoutOne(r, nodes, out[0]);
    MultisetTail(out, rest, nodes, Without(r, nodes, r.id(out[0])));
  }

  lemma MultisetTail(out: seq<Node>, rest: seq<Node>, nodes: seq<Node>, less: seq<Node>)
    requires out != [] && multiset(out + rest) == multiset(nodes)
    requires multiset(less) == multiset(nodes) - multiset{out[0]}
    ensures multiset(out[1..] + rest) == multiset(less)
  {
    assert out + rest == [out[0]] + (out[1..] + rest);
  }

  lemma TopIsOwner(r: Rule, nodes: seq<Node>, key: string, out: seq<Node>, rest: seq<Node>)
    requires DistinctScores(r, nodes, key) && TopWith(r, nodes, key, out, rest) && out != []
    ensures out[0] in nodes && Owner(r, nodes, key) == Some(out[0])
  {
    OwnerIs(r, nodes, key);
    var o := Owner(r, nodes, key);
    assert (out + rest)[0] in multiset(nodes);
    assert o.value in multiset(out + rest);
    var k :| 0 <= k < |out + rest| && (out + rest)[k] == o.value;
    assert r.Score(out[0], key) >= r.Score(o.value, key);
  }

  /** With distinct ids removal takes out one node. */
  lemma {:induction false} WithoutOne(r: Rule, nodes: seq<Node>, o: Node)
    requires Distinct(r, nodes) && o in nodes
    ensures multiset(Without(r, nodes, r.id(o))) == multiset(nodes) - multiset{o}
  {
    var n := |nodes| - 1;
    var front, last := nodes[..n], nodes[n];
    assert nodes == front + [last];
    if last == o {
      WithoutNone(r, front, r.id(o));
    } else {
      WithoutOne(r, front, o);
    }
  }

  lemma {:induction false} WithoutDistinct(r: Rule, nodes: seq<Node>, id: string, key: string)
    requires DistinctScores(r, nodes, key)
    ensures DistinctScores(r, Without(r, nodes, id), key)
  {
    if nodes != [] {
      var front, last := nodes[..|nodes| - 1], nodes[|nodes| - 1];
      assert nodes == front + [last];
      WithoutDistinct(r, front, id, key);
      WithoutMeans(r, front, id);
      DistinctMore(r, front, Without(r, front, id), last, key);
    }
  }

  lemma DistinctMore(r: Rule, front: seq<Node>, some: seq<Node>, last: Node, key: string)
    requires DistinctScores(r, front + [last], key) && DistinctScores(r, some, key)
    requires forall n :: n in some ==> n in front
    ensures DistinctScores(r, some + [last], key)
  {
    forall i | 0 <= i < |some|
      ensures r.Score(some[i], key) != r.Score(last, key)
    {
      assert some[i] in some;
      var j :| 0 <= j < |front| && front[j] == some[i];
      assert (front + [last])[j] == some[i] && (front + [last])[|front|] == last;
    }
  }

  lemma {:induction false} WithoutNone(r: Rule, nodes: seq<Node>, id: string)
    requires !Has(r, nodes, id)
    ensures Without(r, nodes, id) == nodes
  {
    if nodes != [] {
      WithoutNone(r, nodes[..|nodes| - 1], id);
    }
  }
}
