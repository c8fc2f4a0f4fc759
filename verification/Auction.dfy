/** Second-price auction resolution: one slot and several. */
module Auction {
  import opened Sets

  type Payload(!new)

  datatype Bid = Bid(bidder: string, price: int, payload: Payload)

  datatype Result = Result(winner: Option<Bid>, clearing: int, bidCount: nat, validCount: nat)

  // ----- What the outcome should be, position by position -----

  /** A higher price wins; an equal one wins by standing earlier in the input. */
  predicate Beats(bids: seq<Bid>, i: nat, j: nat)
    requires i < |bids| && j < |bids|
  {
    Above(bids[i], i, bids[j], j)
  }

  predicate Above(x: Bid, i: nat, y: Bid, j: nat)
  {
    x.price > y.price || (x.price == y.price && i < j)
  }

  ghost function Beating(bids: seq<Bid>, w: nat): set<nat>
    requires w < |bids|
  {
    set j | 0 <= j < |bids| && Beats(bids, j, w)
  }

  /** The bid at w meets the floor and k bids beat it. */
  ghost predicate Ranks(bids: seq<Bid>, floor: int, w: nat, k: nat)
  {
    w < |bids| && bids[w].price >= floor && |Beating(bids, w)| == k
  }

  /** The highest price among the first n bids that w beats, or the floor if that is higher. */
  function Clearing(bids: seq<Bid>, floor: int, w: nat, n: nat): (c: int)
    requires w < |bids| && n <= |bids|
    ensures c >= floor
    ensures forall j :: 0 <= j < n && Beats(bids, w, j) ==> bids[j].price <= c
    ensures c == floor || exists j :: 0 <= j < n && Beats(bids, w, j) && bids[j].price == c
  {
    if n == 0 then floor
    else
      var c := Clearing(bids, floor, w, n - 1);
      if Beats(bids, w, n - 1) && bids[n - 1].price > c then bids[n - 1].price else c
  }

  /** The result of the slot that the bid at w wins. */
  function Won(bids: seq<Bid>, floor: int, w: nat): Result
    requires w < |bids|
  {
    Result(Some(bids[w]), Clearing(bids, floor, w, |bids|), |bids|, |Valid(bids, floor)|)
  }

  // ----- The sorted valid bids -----

  function Valid(bids: seq<Bid>, floor: int): (r: seq<Bid>)
  {
    if bids == [] then []
    else
      var r := Valid(bids[..|bids| - 1], floor);
      if bids[|bids| - 1].price >= floor then r + [bids[|bids| - 1]] else r
  }

  /** Where a stable descending sort puts a bid that comes last in the input. */
  function Place(s: seq<Bid>, price: int): (k: nat)
    ensures k <= |s|
    ensures k < |s| ==> s[k].price < price
    ensures forall j :: 0 <= j < k ==> s[j].price >= price
  {
    if s == [] || s[0].price < price then 0 else 1 + Place(s[1..], price)
  }

  function Splice<T>(s: seq<T>, k: nat, x: T): (r: seq<T>)
    requires k <= |s|
    ensures |r| == |s| + 1 && r[k] == x
    ensures forall a :: 0 <= a < k ==> r[a] == s[a]
    ensures forall a :: k < a < |r| ==> r[a] == s[a - 1]
  {
    s[..k] + [x] + s[k..]
  }

  /** sort.SliceStable by descending price. */
  function StableSort(s: seq<Bid>): (r: seq<Bid>)
    ensures |r| == |s|
  {
    if s == [] then []
    else
      var r := StableSort(s[..|s| - 1]);
      Splice(r, Place(r, s[|s| - 1].price), s[|s| - 1])
  }

  /** The input positions of the sorted valid bids. */
  function Order(bids: seq<Bid>, floor: int): seq<nat>
  {
    if bids == [] then []
    else
      var n := |bids| - 1;
      var (r, s) := (Order(bids[..n], floor), StableSort(Valid(bids[..n], floor)));
      var k := Place(s, bids[n].price);
      if bids[n].price < floor || k > |r| then r else Splice(r, k, n)
  }

  /** r lists the positions of all valid bids, each beating the next, and s the bids there. */
  ghost predicate Ordered(bids: seq<Bid>, floor: int, s: seq<Bid>, r: seq<nat>)
  {
    && |r| == |s|
    && (forall k :: 0 <= k < |r| ==> r[k] < |bids| && bids[r[k]] == s[k] && s[k].price >= floor)
    && (forall i :: 0 <= i < |bids| && bids[i].price >= floor ==> i in r)
    && Descends(s, r)
  }

  lemma {:induction false} OrderIsOrdered(bids: seq<Bid>, floor: int)
    ensures Ordered(bids, floor, StableSort(Valid(bids, floor)), Order(bids, floor))
  {
    if bids != [] {
      var n := |bids| - 1;
      OrderIsOrdered(bids[..n], floor);
      var v := Valid(bids[..n], floor);
      if bids[n].price >= floor {
        assert (v + [bids[n]])[..|v|] == v;
        OrderedInsert(bids, floor, StableSort(v), Order(bids[..n], floor));
      } else {
        OrderedSkip(bids, floor, StableSort(v), Order(bids[..n], floor));
      }
    }
  }

  lemma OrderedSkip(bids: seq<Bid>, floor: int, s: seq<Bid>, r: seq<nat>)
    requires bids != [] && bids[|bids| - 1].price < floor && Ordered(bids[..|bids| - 1], floor, s, r)
    ensures Ordered(bids, floor, s, r)
  {
    forall i | 0 <= i < |bids| && bids[i].price >= floor
      ensures i in r
    {
      assert bids[..|bids| - 1][i] == bids[i];
    }
  }

  lemma OrderedInsert(bids: seq<Bid>, floor: int, s: seq<Bid>, r: seq<nat>)
    requires bids != [] && bids[|bids| - 1].price >= floor && Ordered(bids[..|bids| - 1], floor, s, r)
    ensures var n := |bids| - 1; var k := Place(s, bids[n].price);
      Ordered(bids, floor, Splice(s, k, bids[n]), Splice(r, k, n))
  {
    var n := |bids| - 1;
    var k := Place(s, bids[n].price);
    assert forall i :: 0 <= i < n ==> bids[..n][i] == bids[i];
    SpliceDescends(s, r, k, bids[n], n);
    SpliceLists(bids, floor, s, r, k, n);
  }

  /** One valid bid more, listed at k. */
  lemma SpliceLists(bids: seq<Bid>, floor: int, s: seq<Bid>, r: seq<nat>, k: nat, n: nat)
    requires |bids| == n + 1 && bids[n].price >= floor && k <= |s| == |r|
    requires forall a :: 0 <= a < |r| ==> r[a] < n && bids[r[a]] == s[a] && s[a].price >= floor
    requires forall i :: 0 <= i < n && bids[i].price >= floor ==> i in r
    ensures var (s', r') := (Splice(s, k, bids[n]), Splice(r, k, n));
      && (forall a :: 0 <= a < |r'| ==> r'[a] < |bids| && bids[r'[a]] == s'[a] && s'[a].price >= floor)
      && (forall i :: 0 <= i < |bids| && bids[i].price >= floor ==> i in r')
  {
    forall i | 0 <= i < |bids| && bids[i].price >= floor
      ensures i in Splice(r, k, n)
    {
      if i < n {
        SpliceHas(r, k, n, i);
      } else {
        assert Splice(r, k, n)[k] == n;
      }
    }
  }

  lemma SpliceHas(r: seq<nat>, k: nat, n: nat, i: nat)
    requires k <= |r| && i in r
    ensures i in Splice(r, k, n)
  {
    var a :| 0 <= a < |r| && r[a] == i;
    assert Splice(r, k, n)[if a < k then a else a + 1] == i;
  }

  ghost predicate Descends(s: seq<Bid>, r: seq<nat>)
  {
    |r| == |s| && forall a, b :: 0 <= a < b < |s| ==> Above(s[a], r[a], s[b], r[b])
  }

  lemma SpliceDescends(s: seq<Bid>, r: seq<nat>, k: nat, b: Bid, n: nat)
    requires Descends(s, r) && k == Place(s, b.price) && forall a :: 0 <= a < |r| ==> r[a] < n
    ensures Descends(Splice(s, k, b), Splice(r, k, n))
  {
    var s', r' := Splice(s, k, b), Splice(r, k, n);
    forall i, j | 0 <= i < j < |s'|
      ensures Above(s'[i], r'[i], s'[j], r'[j])
    {
      if i == k {
        assert j - 1 == k || Above(s[k], r[k], s[j - 1], r[j - 1]);
      } else if j == k {
        assert s[i].price >= b.price;
      } else {
        var i', j' := if i < k then i else i - 1, if j < k then j else j - 1;
        assert Above(s[i'], r[i'], s[j'], r[j']);
      }
    }
  }

  // ----- From places in the sorted list to ranks and prices -----

  /** The price charged for place k of the sorted list. */
  function PriceAt(s: seq<Bid>, floor: int, k: nat): int
  {
    if k + 1 < |s| && s[k + 1].price > floor then s[k + 1].price else floor
  }

  /** Place k holds the bid of rank k. */
  lemma PlaceRanks(bids: seq<Bid>, floor: int, s: seq<Bid>, r: seq<nat>, k: nat)
    requires Ordered(bids, floor, s, r) && k < |r|
    ensures Ranks(bids, floor, r[k], k)
  {
    var w := r[k];
    forall j | 0 <= j < |bids|
      ensures Beats(bids, j, w) <==> exists a :: 0 <= a < k && r[a] == j
    {
      if Beats(bids, j, w) {
        assert j in r;
      }
    }
    assert Beating(bids, w) == Firsts(r, k);
    FirstsSize(r, k);
  }

  /** Below place k the next one is dearest. */
  lemma PlaceDearest(bids: seq<Bid>, floor: int, s: seq<Bid>, r: seq<nat>, k: nat, j: nat)
    requires Ordered(bids, floor, s, r) && k < |r| && j < |bids| && Beats(bids, r[k], j)
    ensures bids[j].price <= PriceAt(s, floor, k)
  {
    if bids[j].price >= floor {
      var a :| 0 <= a < |r| && r[a] == j;
      assert s[a].price == bids[j].price && s[k].price == bids[r[k]].price;
      assert a > k;
    }
  }

  lemma PlacePrice(bids: seq<Bid>, floor: int, s: seq<Bid>, r: seq<nat>, k: nat)
    requires Ordered(bids, floor, s, r) && k < |r|
    ensures Clearing(bids, floor, r[k], |bids|) == PriceAt(s, floor, k)
  {
    var w, c := r[k], Clearing(bids, floor, r[k], |bids|);
    if PriceAt(s, floor, k) != floor {
      assert Beats(bids, w, r[k + 1]);
    }
    if c != floor {
      var j :| 0 <= j < |bids| && Beats(bids, w, j) && bids[j].price == c;
      PlaceDearest(bids, floor, s, r, k, j);
    }
  }

  lemma PlaceWon(bids: seq<Bid>, floor: int, k: nat)
    requires k < |Valid(bids, floor)|
    ensures var s := StableSort(Valid(bids, floor));
      exists w ::
        Ranks(bids, floor, w, k) && Won(bids, floor, w) == Result(Some(s[k]), PriceAt(s, floor, k), |bids|, |s|)
  {
    var s, r := StableSort(Valid(bids, floor)), Order(bids, floor);
    OrderIsOrdered(bids, floor);
    PlaceRanks(bids, floor, s, r, k);
    PlacePrice(bids, floor, s, r, k);
  }

  lemma {:induction false} ValidIff(bids: seq<Bid>, floor: int)
    ensures Valid(bids, floor) == [] <==> forall i :: 0 <= i < |bids| ==> bids[i].price < floor
  {
    if bids != [] {
      var n := |bids| - 1;
      ValidIff(bids[..n], floor);
      assert forall i :: 0 <= i < n ==> bids[..n][i] == bids[i];
    }
  }

  // ----- The two resolvers -----

  method Filter(bids: seq<Bid>, floor: int) returns (valid: seq<Bid>)
    ensures valid == Valid(bids, floor)
  {
    valid := [];
    for i := 0 to |bids|
      invariant valid == Valid(bids[..i], floor)
    {
      assert bids[..i + 1][..i] == bids[..i];
      if bids[i].price >= floor {
        valid := valid + [bids[i]];
      }
    }
    assert bids[..|bids|] == bids;
  }

  ghost predicate SomeValid(bids: seq<Bid>, floor: int)
  {
    exists i :: 0 <= i < |bids| && bids[i].price >= floor
  }

  ghost predicate Awarded(bids: seq<Bid>, floor: int, k: nat, r: Result)
  {
    exists w :: Ranks(bids, floor, w, k) && r == Won(bids, floor, w)
  }

  /** ok is false exactly when no bid meets the floor; otherwise the bid that no other beats
      wins, and pays the best other bid or the floor. */
  ghost predicate Resolves(bids: seq<Bid>, floor: int, r: Result, ok: bool)
  {
    && ok == SomeValid(bids, floor)
    && if ok then Awarded(bids, floor, 0, r) else r == Result(None, 0, |bids|, 0)
  }

  /** Slot k goes to the bid of rank k, which pays the best bid it beats or the floor. */
  ghost predicate ResolvesSlots(bids: seq<Bid>, floor: int, slots: int, results: seq<Result>, ok: bool)
  {
    && ok == (slots <= 0 || SomeValid(bids, floor))
    && |results| == (if slots <= 0 then 0 else if slots < |Valid(bids, floor)| then slots else |Valid(bids, floor)|)
    && forall k :: 0 <= k < |results| ==> Awarded(bids, floor, k, results[k])
  }

  method Resolve(bids: seq<Bid>, floor: int) returns (r: Result, ok: bool)
    ensures Resolves(bids, floor, r, ok)
  {
    var valid := Filter(bids, floor);
    ValidIff(bids, floor);
    if |valid| == 0 {
      return Result(None, 0, |bids|, 0), false;
    }
    PlaceWon(bids, floor, 0);
    valid := StableSort(valid);
    var winner := valid[0];
    var clearing := floor;
    if |valid| > 1 && valid[1].price > floor {
      clearing := valid[1].price;
    }
    return Result(Some(winner), clearing, |bids|, |valid|), true;
  }

  method ResolveMultiSlot(bids: seq<Bid>, floor: int, slots: int) returns (results: seq<Result>, ok: bool)
    ensures ResolvesSlots(bids, floor, slots, results, ok)
  {
    if slots <= 0 {
      return [], true;
    }
    var valid := Filter(bids, floor);
    ValidIff(bids, floor);
    if |valid| == 0 {
      return [], false;
    }
    results := Award(StableSort(valid), floor, |bids|, if slots < |valid| then slots else |valid|);
    forall k | 0 <= k < |results|
      ensures Awarded(bids, floor, k, results[k])
    {
      PlaceWon(bids, floor, k);
    }
    ok := true;
  }

  method Award(s: seq<Bid>, floor: int, bidCount: nat, slots: nat) returns (results: seq<Result>)
    requires slots <= |s|
    ensures |results| == slots
    ensures forall k :: 0 <= k < slots ==> results[k] == Result(Some(s[k]), PriceAt(s, floor, k), bidCount, |s|)
  {
    results := [];
    for i := 0 to slots
      invariant |results| == i
      invariant forall k :: 0 <= k < i ==> results[k] == Result(Some(s[k]), PriceAt(s, floor, k), bidCount, |s|)
    {
      var clearing := floor;
      if i + 1 < |s| && s[i + 1].price > floor {
        clearing := s[i + 1].price;
      }
      results := results + [Result(Some(s[i]), clearing, bidCount, |s|)];
    }
  }

  // ----- What the outcome means -----

  /** A rank belongs to one bid, so the two predicates above fix every result. */
  lemma RankUnique(bids: seq<Bid>, floor: int, v: nat, w: nat, k: nat)
    requires Ranks(bids, floor, v, k) && Ranks(bids, floor, w, k)
    ensures v == w
  {
    RankOrder(bids, floor, v, w, k, k);
    RankOrder(bids, floor, w, v, k, k);
  }

  /** Resolve is the one-slot case. */
  lemma OneSlot(bids: seq<Bid>, floor: int, r: Result, ok: bool, results: seq<Result>, many: bool)
    requires Resolves(bids, floor, r, ok) && ResolvesSlots(bids, floor, 1, results, many)
    ensures ok == many && results == if ok then [r] else []
  {
    ValidIff(bids, floor);
    if ok {
      var v :| Ranks(bids, floor, v, 0) && r == Won(bids, floor, v);
      assert Awarded(bids, floor, 0, results[0]);
      var w :| Ranks(bids, floor, w, 0) && results[0] == Won(bids, floor, w);
      RankUnique(bids, floor, v, w, 0);
    }
  }

  /** Prices never increase from slot to slot, never fall below the floor, and no winner pays
      more than it bid. */
  lemma PricesFall(bids: seq<Bid>, floor: int, slots: int, results: seq<Result>, ok: bool, j: nat, k: nat)
    requires ResolvesSlots(bids, floor, slots, results, ok) && j <= k < |results|
    ensures results[j].winner.Some?
    ensures results[j].winner.value.price >= results[j].clearing >= results[k].clearing >= floor
  {
    assert Awarded(bids, floor, j, results[j]) && Awarded(bids, floor, k, results[k]);
    var v :| Ranks(bids, floor, v, j) && results[j] == Won(bids, floor, v);
    var w :| Ranks(bids, floor, w, k) && results[k] == Won(bids, floor, w);
    RankOrder(bids, floor, v, w, j, k);
    ClearingFalls(bids, floor, v, w);
  }

  lemma RankOrder(bids: seq<Bid>, floor: int, v: nat, w: nat, j: nat, k: nat)
    requires Ranks(bids, floor, v, j) && Ranks(bids, floor, w, k) && j <= k
    ensures v == w || Beats(bids, v, w)
  {
    if v != w && !Beats(bids, v, w) {
      assert Beating(bids, w) + {w} <= Beating(bids, v);
      SubsetSize(Beating(bids, w) + {w}, Beating(bids, v));
    }
  }

  lemma ClearingFalls(bids: seq<Bid>, floor: int, v: nat, w: nat)
    requires v < |bids| && w < |bids| && (v == w || Beats(bids, v, w)) && bids[v].price >= floor
    ensures bids[v].price >= Clearing(bids, floor, v, |bids|) >= Clearing(bids, floor, w, |bids|)
  {
    var c := Clearing(bids, floor, w, |bids|);
    if c != floor {
      var j :| 0 <= j < |bids| && Beats(bids, w, j) && bids[j].price == c;
      assert Beats(bids, v, j);
    }
  }

  // ----- Truthful bidding -----

  /** What the bidder at position i, to whom winning is worth value, gains. */
  ghost function Gain(bids: seq<Bid>, floor: int, i: nat, value: int): int
    requires i < |bids|
  {
    if Ranks(bids, floor, i, 0) then value - Won(bids, floor, i).clearing else 0
  }

  /** The best of the other bids, or the floor. */
  function BestOther(bids: seq<Bid>, floor: int, i: nat, n: nat): (c: int)
    requires n <= |bids|
    ensures c >= floor
    ensures forall j :: 0 <= j < n && j != i ==> bids[j].price <= c
    ensures c == floor || exists j :: 0 <= j < n && j != i && bids[j].price == c
  {
    if n == 0 then floor
    else
      var c := BestOther(bids, floor, i, n - 1);
      if n - 1 != i && bids[n - 1].price > c then bids[n - 1].price else c
  }

  /** A winner pays the best other bid, and whoever bids above it wins. */
  lemma WinnerPays(bids: seq<Bid>, floor: int, i: nat)
    requires i < |bids|
    ensures Ranks(bids, floor, i, 0) ==>
      Won(bids, floor, i).clearing == BestOther(bids, floor, i, |bids|) <= bids[i].price
    ensures bids[i].price > BestOther(bids, floor, i, |bids|) ==> Ranks(bids, floor, i, 0)
  {
    if Ranks(bids, floor, i, 0) {
      assert Beating(bids, i) == {};
      assert forall j :: 0 <= j < |bids| && j != i ==> j !in Beating(bids, i) && Beats(bids, i, j);
    }
    if bids[i].price > BestOther(bids, floor, i, |bids|) {
      assert Beating(bids, i) == {};
    }
  }

  /** Bidding the true value gains at least as much as any other bid, whatever the others bid,
      whatever the floor, and wherever the bidder stands in the input. */
  lemma Truthful(bids: seq<Bid>, floor: int, i: nat, value: int, price: int)
    requires i < |bids|
    ensures Gain(bids[i := bids[i].(price := value)], floor, i, value)
      >= Gain(bids[i := bids[i].(price := price)], floor, i, value)
  {
    var honest, other := bids[i := bids[i].(price := value)], bids[i := bids[i].(price := price)];
    SameOthers(honest, other, floor, i, |bids|);
    WinnerPays(honest, floor, i);
    WinnerPays(other, floor, i);
  }

  lemma {:induction false} SameOthers(a: seq<Bid>, b: seq<Bid>, floor: int, i: nat, n: nat)
    requires n <= |a| == |b| && forall j :: 0 <= j < |a| && j != i ==> a[j] == b[j]
    ensures BestOther(a, floor, i, n) == BestOther(b, floor, i, n)
  {
    if n > 0 {
      SameOthers(a, b, floor, i, n - 1);
    }
  }
}
