/** Price-time priority: the stable sort of one side of the book. */
module PriceTime {
  import opened Orders

  /** Smaller is better: bids by falling price, asks by rising price. */
  function Rank(bidSide: bool, o: OrderData): int {
    if bidSide then 0 - o.limit else o.limit
  }

  function StableInsert(bidSide: bool, o: Order, s: seq<Order>): seq<Order> {
    if s == [] || Rank(bidSide, o) <= Rank(bidSide, s[0]) then [o] + s
    else [s[0]] + StableInsert(bidSide, o, s[1..])
  }

  /** The stable sort of one side, best price first. */
  function BestFirst(bidSide: bool, s: seq<Order>): seq<Order> {
    if s == [] then [] else StableInsert(bidSide, s[0], BestFirst(bidSide, s[1..]))
  }

  predicate RankSorted(bidSide: bool, s: seq<Order>) {
    forall i, j :: 0 <= i < j < |s| ==> Rank(bidSide, s[i]) <= Rank(bidSide, s[j])
  }

  function AtPrice(s: seq<Order>, price: int): seq<Order> {
    if s == [] then []
    else if s[0].limit == price then [s[0]] + AtPrice(s[1..], price)
    else AtPrice(s[1..], price)
  }

  lemma {:induction false} InsertPermutes(bidSide: bool, o: Order, s: seq<Order>)
    ensures multiset(StableInsert(bidSide, o, s)) == multiset([o] + s)
  {
    if s != [] && Rank(bidSide, s[0]) < Rank(bidSide, o) {
      InsertPermutes(bidSide, o, s[1..]);
      assert s == [s[0]] + s[1..];
    }
  }

  lemma {:induction false} InsertSorts(bidSide: bool, o: Order, s: seq<Order>)
    requires RankSorted(bidSide, s)
    ensures RankSorted(bidSide, StableInsert(bidSide, o, s))
    ensures forall p :: p in StableInsert(bidSide, o, s) ==> p == o || p in s
  {
    if s != [] && Rank(bidSide, s[0]) < Rank(bidSide, o) {
      InsertSorts(bidSide, o, s[1..]);
      assert forall p :: p in s[1..] ==> Rank(bidSide, s[0]) <= Rank(bidSide, p);
    }
  }

  lemma {:induction false} InsertIsStable(bidSide: bool, o: Order, s: seq<Order>, price: int)
    ensures AtPrice(StableInsert(bidSide, o, s), price) == AtPrice([o] + s, price)
  {
    assert ([o] + s)[1..] == s;
    if s != [] && Rank(bidSide, s[0]) < Rank(bidSide, o) {
      InsertIsStable(bidSide, o, s[1..], price);
      assert ([o] + s[1..])[1..] == s[1..];
      assert ([s[0]] + StableInsert(bidSide, o, s[1..]))[1..] == StableInsert(bidSide, o, s[1..]);
    }
  }

  /** BestFirst is the stable sort: sorted, a permutation, and at every price the orders
      keep the sequence they had. */
  lemma {:induction false} BestFirstIsStableSort(bidSide: bool, s: seq<Order>, price: int)
    ensures var t := BestFirst(bidSide, s);
            && RankSorted(bidSide, t)
            && multiset(t) == multiset(s)
            && AtPrice(t, price) == AtPrice(s, price)
  {
    if s != [] {
      var rest := BestFirst(bidSide, s[1..]);
      BestFirstIsStableSort(bidSide, s[1..], price);
      InsertSorts(bidSide, s[0], rest);
      InsertPermutes(bidSide, s[0], rest);
      InsertIsStable(bidSide, s[0], rest, price);
      assert s == [s[0]] + s[1..] && ([s[0]] + rest)[1..] == rest;
    }
  }

  /** `a` is served before `b`: better price, or the same price and earlier arrival. */
  predicate Better(bidSide: bool, a: OrderData, b: OrderData) {
    Rank(bidSide, a) < Rank(bidSide, b) || (a.limit == b.limit && a.arrival < b.arrival)
  }

  predicate PriceTimeSorted(bidSide: bool, s: seq<Order>) {
    forall i, j :: 0 <= i < j < |s| ==> Better(bidSide, s[i], s[j])
  }

  /** Orders at one price stand in arrival order, wherever they are in the vector. */
  predicate EqualPricesInOrder(s: seq<Order>) {
    forall i, j :: 0 <= i < j < |s| && s[i].limit == s[j].limit ==> s[i].arrival < s[j].arrival
  }

  lemma {:induction false} InsertPriceTime(bidSide: bool, o: Order, s: seq<Order>)
    requires PriceTimeSorted(bidSide, s)
    requires forall p :: p in s && p.limit == o.limit ==> o.arrival < p.arrival
    ensures PriceTimeSorted(bidSide, StableInsert(bidSide, o, s))
    ensures forall p :: p in StableInsert(bidSide, o, s) <==> p == o || p in s
  {
    if s == [] || Rank(bidSide, o) <= Rank(bidSide, s[0]) {
      forall p | p in s ensures Better(bidSide, o, p) {
        assert p == s[0] || Better(bidSide, s[0], p);
      }
    } else {
      InsertPriceTime(bidSide, o, s[1..]);
      assert forall p :: p in s <==> p == s[0] || p in s[1..];
      assert forall p :: p in s[1..] ==> Better(bidSide, s[0], p);
    }
  }

  /** Sorting a side whose equal prices are in arrival order gives price-time order. */
  lemma {:induction false} BestFirstIsPriceTime(bidSide: bool, s: seq<Order>)
    requires EqualPricesInOrder(s)
    ensures PriceTimeSorted(bidSide, BestFirst(bidSide, s))
    ensures forall p :: p in BestFirst(bidSide, s) <==> p in s
  {
    if s != [] {
      BestFirstIsPriceTime(bidSide, s[1..]);
      assert forall p :: p in s <==> p == s[0] || p in s[1..];
      InsertPriceTime(bidSide, s[0], BestFirst(bidSide, s[1..]));
    }
  }

  /** There is one price-time order of a given set of orders. */
  lemma {:induction false} PriceTimeUnique(bidSide: bool, s: seq<Order>, t: seq<Order>)
    requires PriceTimeSorted(bidSide, s) && PriceTimeSorted(bidSide, t)
    requires forall p :: p in s <==> p in t
    ensures s == t
  {
    assert (s == [] || s[0] in t) && (t == [] || t[0] in s);
    if s != [] && t != [] {
      assert s[0] == t[0];
      forall p ensures p in s[1..] <==> p in t[1..] {
        assert forall q :: q in s <==> q == s[0] || q in s[1..];
        assert forall q :: q in t <==> q == t[0] || q in t[1..];
        assert p in s[1..] ==> Better(bidSide, s[0], p);
        assert p in t[1..] ==> Better(bidSide, t[0], p);
      }
      PriceTimeUnique(bidSide, s[1..], t[1..]);
    }
  }
}
