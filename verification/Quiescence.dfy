/** What every `add` and `remove` keeps: a well-ordered book in which no two resting orders
    could still trade with each other. */
module Quiescence {
  import opened Orders
  import opened PriceTime
  import opened Pairing
  import opened Matching

  ghost predicate SideOk(bidSide: bool, s: seq<Order>) {
    && (forall o :: o in s ==> IsBid(o) == bidSide && Remaining(o) > 0)
    && EqualPricesInOrder(s)
  }

  ghost predicate PlacedBefore(s: seq<Order>, time: nat) {
    forall o :: o in s ==> o.arrival < time
  }

  /** Neither order can take the other, the earlier one resting. */
  ghost predicate PairQuiet(a: Order, b: Order) {
    (a.arrival <= b.arrival ==> !Fillable(b, a)) && (b.arrival <= a.arrival ==> !Fillable(a, b))
  }

  ghost predicate Quiet(b: BookState) {
    forall p, q :: p in b.bids && q in b.asks ==> PairQuiet(p, q)
  }

  ghost predicate Inv(b: BookState) {
    SideOk(true, b.bids) && SideOk(false, b.asks) && Quiet(b)
  }

  // ----- the walk

  ghost predicate GrewFrom(o: Order, s: seq<Order>) {
    exists was :: was in s && Grew(was, o)
  }

  lemma {:induction false} WalkGrows(x: Order, opposite: seq<Order>, now: Seconds)
    requires forall r :: r in opposite ==> Remaining(r) > 0
    ensures var w := Walk(x, opposite, now);
            && Grew(x, w.incoming)
            && forall o :: o in w.left ==> GrewFrom(o, opposite) && Remaining(o) > 0
    decreases |opposite|
  {
    hide FitsU64, Attempt, Crosses, Expired, Fits;
    if opposite != [] && Remaining(x) > 0 {
      var r, rest := opposite[0], opposite[1..];
      assert opposite == [r] + rest && Grew(r, r);
      var attempt := Attempt(x, r);
      WalkGrows(x, rest, now);
      if attempt.Some? { WalkGrows(After(x, attempt.value), rest, now); }
    } else {
      forall o | o in opposite ensures GrewFrom(o, opposite) { assert Grew(o, o); }
    }
  }

  lemma PrependSorted(bidSide: bool, r: Order, r': Order, rest: seq<Order>, left: seq<Order>)
    requires PriceTimeSorted(bidSide, [r] + rest) && PriceTimeSorted(bidSide, left) && Grew(r, r')
    requires forall o :: o in left ==> GrewFrom(o, rest)
    ensures PriceTimeSorted(bidSide, [r'] + left)
  {
    hide FitsU64;
    forall i | 0 <= i < |left| ensures Better(bidSide, r', left[i]) {
      assert left[i] in left;
      var was :| was in rest && Grew(was, left[i]);
      var j :| 0 <= j < |rest| && rest[j] == was;
      assert ([r] + rest)[0] == r && ([r] + rest)[j + 1] == was;
    }
  }

  /** What is left of a price-time ordered side is in price-time order. */
  lemma {:induction false} WalkKeepsOrder(bidSide: bool, x: Order, opposite: seq<Order>, now: Seconds)
    requires forall r :: r in opposite ==> Remaining(r) > 0
    requires PriceTimeSorted(bidSide, opposite)
    ensures PriceTimeSorted(bidSide, Walk(x, opposite, now).left)
    decreases |opposite|
  {
    hide FitsU64, Attempt, Crosses, Expired, Fits, Remaining, Better, GrewFrom, Grew;
    if opposite != [] && Remaining(x) > 0 {
      var r, rest := opposite[0], opposite[1..];
      assert opposite == [r] + rest;
      var attempt := Attempt(x, r);
      var x' := if attempt.Some? && !Expired(r, now) then After(x, attempt.value) else x;
      var r' := if attempt.Some? then After(r, attempt.value) else r;
      var left := Walk(x', rest, now).left;
      WalkKeepsOrder(bidSide, x', rest, now);
      WalkGrows(x', rest, now);
      GrewItself(r);
      PrependSorted(bidSide, r, r', rest, left);
      assert [] + left == left;
    }
  }

  lemma GrewItself(o: Order)
    ensures Grew(o, o)
  {
  }

  /** When the walk stops short of the incoming order's last share, no order it leaves
      behind can trade with the incoming order any more. */
  lemma {:induction false} WalkLeavesNothing(x: Order, opposite: seq<Order>, now: Seconds)
    requires forall r :: r in opposite ==> Remaining(r) > 0 && IsBid(r) != IsBid(x)
    requires RankSorted(!IsBid(x), opposite)
    ensures var w := Walk(x, opposite, now);
            Remaining(w.incoming) > 0 ==> forall o :: o in w.left ==> !Fillable(w.incoming, o)
    decreases |opposite|
  {
    hide FitsU64, Attempt, Expired, Fits;
    if opposite != [] && Remaining(x) > 0 {
      var r, rest := opposite[0], opposite[1..];
      assert opposite == [r] + rest;
      if Expired(r, now) {
        WalkLeavesNothing(x, rest, now);
      } else if Crosses(BidOf(x, r), AskOf(x, r)) {
        var attempt := Attempt(x, r);
        var x' := if attempt.Some? then After(x, attempt.value) else x;
        var r' := if attempt.Some? then After(r, attempt.value) else r;
        WalkLeavesNothing(x', rest, now);
        WalkGrows(x', rest, now);
        var end := Walk(x', rest, now).incoming;
        if attempt.Some? { FillSettlesThePair(x, r); }
        if Remaining(end) > 0 && Remaining(r') > 0 {
          NeverAgain(x', r', end, r');
        }
      }
    }
  }

  lemma MemberOfSorted(bidSide: bool, s: seq<Order>)
    ensures forall o :: o in BestFirst(bidSide, s) <==> o in s
    ensures RankSorted(bidSide, BestFirst(bidSide, s))
  {
    BestFirstIsStableSort(bidSide, s, 0);
    forall o ensures o in BestFirst(bidSide, s) <==> o in s {
      assert o in multiset(BestFirst(bidSide, s)) <==> o in multiset(s);
    }
  }

  /** Quietness is about static fields and shrinking room, so it survives fills. */
  lemma QuietSurvivesFills(a: Order, b: Order, a': Order, b': Order)
    requires PairQuiet(a, b) && Grew(a, a') && Grew(b, b')
    ensures PairQuiet(a', b')
  {
    hide FitsU64, Attempt;
    if Attempt(b, a).None? { NeverAgain(b, a, b', a'); }
    if Attempt(a, b).None? { NeverAgain(a, b, a', b'); }
  }

  // ----- one operation

  /** The walk of a well-ordered book: what it leaves grew from what was there, and is in
      price-time order. */
  lemma WalkOfKeeps(b: BookState, x: Order, now: Seconds)
    requires SideOk(!IsBid(x), b.Side(!IsBid(x)))
    ensures var w := WalkOf(b, x, now);
            && Grew(x, w.incoming)
            && (forall o :: o in w.left ==> GrewFrom(o, b.Side(!IsBid(x))) && Remaining(o) > 0)
            && PriceTimeSorted(!IsBid(x), w.left)
            && (Remaining(w.incoming) > 0 ==> forall o :: o in w.left ==> !Fillable(w.incoming, o))
  {
    hide Walk, Attempt, FitsU64, Crosses, BestFirst;
    var side := b.Side(!IsBid(x));
    var sorted := BestFirst(!IsBid(x), side);
    MemberOfSorted(!IsBid(x), side);
    BestFirstIsPriceTime(!IsBid(x), side);
    WalkGrows(x, sorted, now);
    WalkKeepsOrder(!IsBid(x), x, sorted, now);
    WalkLeavesNothing(x, sorted, now);
    forall o: Order | GrewFrom(o, sorted) ensures GrewFrom(o, side) {
      var was :| was in sorted && Grew(was, o);
      assert was in side;
    }
  }

  /** The incoming order's own side, with what is left of the order appended. */
  lemma AppendedSideOk(bidSide: bool, s: seq<Order>, x: Order, rest: Order)
    requires SideOk(bidSide, s) && PlacedBefore(s, x.arrival)
    requires Grew(x, rest) && IsBid(x) == bidSide
    ensures SideOk(bidSide, s + Kept(rest)) && PlacedBefore(s + Kept(rest), x.arrival + 1)
  {
    hide FitsU64, Remaining;
    var t := s + Kept(rest);
    assert forall i :: 0 <= i < |s| ==> t[i] in s;
    assert forall o :: o in t ==> o in s || o == rest;
  }

  /** The opposite side, after the walk. */
  lemma WalkedSideOk(bidSide: bool, s: seq<Order>, left: seq<Order>, time: nat)
    requires SideOk(bidSide, s) && PlacedBefore(s, time)
    requires forall o :: o in left ==> GrewFrom(o, s) && Remaining(o) > 0
    requires PriceTimeSorted(bidSide, left)
    ensures SideOk(bidSide, left) && PlacedBefore(left, time + 1)
  {
    hide FitsU64, Remaining, EqualPricesInOrder;
    SortedKeepsArrivals(bidSide, left);
  }

  lemma SortedKeepsArrivals(bidSide: bool, s: seq<Order>)
    requires PriceTimeSorted(bidSide, s)
    ensures EqualPricesInOrder(s)
  {
    hide FitsU64;
  }

  lemma AddKeepsSides(b: BookState, x: Order, now: Seconds)
    requires SideOk(true, b.bids) && SideOk(false, b.asks)
    requires PlacedBefore(b.Orders(), x.arrival)
    ensures var b' := AddTo(b, x, now).book;
            && SideOk(true, b'.bids) && SideOk(false, b'.asks)
            && PlacedBefore(b'.Orders(), x.arrival + 1)
  {
    hide Attempt, FitsU64, WalkOf, SideOk, GrewFrom, Refused, Kept, PriceTimeSorted;
    SidesPlacedBefore(b, x.arrival);
    if !Refused(x, now) {
      var same, other := b.Side(IsBid(x)), b.Side(!IsBid(x));
      var w := WalkOf(b, x, now);
      WalkOfKeeps(b, x, now);
      AppendedSideOk(IsBid(x), same, x, w.incoming);
      WalkedSideOk(!IsBid(x), other, w.left, x.arrival);
    }
  }

  lemma SidesPlacedBefore(b: BookState, time: nat)
    requires PlacedBefore(b.Orders(), time)
    ensures PlacedBefore(b.bids, time) && PlacedBefore(b.asks, time)
  {
    hide FitsU64;
    assert forall o :: o in b.bids || o in b.asks ==> o in b.Orders();
  }

  /** Adding an order keeps the book in order and quiet. */
  lemma AddKeepsInv(b: BookState, x: Order, now: Seconds)
    requires Inv(b) && PlacedBefore(b.Orders(), x.arrival)
    ensures Inv(AddTo(b, x, now).book)
    ensures PlacedBefore(AddTo(b, x, now).book.Orders(), x.arrival + 1)
  {
    hide Walk, Attempt, FitsU64, Crosses, BestFirst, WalkOf, Fillable, EqualPricesInOrder;
    AddKeepsSides(b, x, now);
    WalkOfKeeps(b, x, now);
    if !Refused(x, now) {
      var same, other := b.Side(IsBid(x)), b.Side(!IsBid(x));
      assert forall o :: o in same || o in other ==> o in b.Orders();
      var w := WalkOf(b, x, now);
      forall p, q | p in same + Kept(w.incoming) && q in w.left
        ensures PairQuiet(p, q) && PairQuiet(q, p)
      {
        var was :| was in other && Grew(was, q);
        if p in same {
          assert PairQuiet(p, was) && PairQuiet(was, p);
          QuietSurvivesFills(p, was, p, q);
        } else {
          assert p == w.incoming && was.arrival < x.arrival;
        }
      }
    }
  }

  /** Removing an order keeps the book in order and quiet, and takes out nothing else. */
  lemma RemoveKeepsInv(b: BookState, txId: string)
    requires Inv(b)
    ensures Inv(RemoveFrom(b, txId))
    ensures forall o :: o in RemoveFrom(b, txId).Orders() ==> o in b.Orders()
    ensures forall o :: o in b.Orders() && o.txId != txId ==> o in RemoveFrom(b, txId).Orders()
  {
    WithoutKeeps(true, b.bids, txId);
    WithoutKeeps(false, b.asks, txId);
  }

  lemma WithoutKeeps(bidSide: bool, s: seq<Order>, txId: string)
    requires SideOk(bidSide, s)
    ensures SideOk(bidSide, Without(s, txId))
    ensures forall o :: o in Without(s, txId) ==> o in s
    ensures forall o :: o in s && o.txId != txId ==> o in Without(s, txId)
  {
    hide FitsU64, Position, Remaining, IsBid;
    var p, t := Position(s, txId), Without(s, txId);
    if p < |s| {
      assert s == s[..p] + [s[p]] + s[p + 1..];
      assert forall i :: 0 <= i < |t| ==> t[i] == s[if i < p then i else i + 1];
    }
  }
}
