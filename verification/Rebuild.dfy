/** Rebuilding a book after a restart: its resting orders, re-added with their fill state in
    arrival order, make no match and come back in the same price-time order; and what follows is
    what would have followed without the restart. */
module Rebuild {
  import opened Orders
  import opened PriceTime
  import opened Pairing
  import opened Matching
  import opened Quiescence
  import opened Ledger
  import opened Runs
  import opened MessageIds
  import opened Lifecycle

  function Adds(orders: seq<Order>, now: Seconds): seq<Op> {
    if orders == [] then []
    else Adds(orders[..|orders| - 1], now) + [Add(orders[|orders| - 1], now)]
  }

  /** An order that can trade with nothing on the other side leaves it as it was. */
  lemma {:induction false} WalkMeetsNothing(x: Order, opposite: seq<Order>, now: Seconds)
    requires forall r :: r in opposite ==> !Expired(r, now) && !Fillable(x, r)
    ensures Walk(x, opposite, now) == Walked(x, opposite, [])
    decreases |opposite|
  {
    hide FitsU64, Attempt, Crosses, Expired;
    if opposite != [] && Remaining(x) > 0 {
      assert opposite == [opposite[0]] + opposite[1..];
      assert opposite[0] in opposite && forall r :: r in opposite[1..] ==> r in opposite;
      WalkMeetsNothing(x, opposite[1..], now);
    }
  }

  ghost predicate SameOrders(b: BookState, orders: seq<Order>) {
    forall bidSide: bool, o: Order :: o in b.Side(bidSide) <==> o in orders && IsBid(o) == bidSide
  }

  lemma {:induction false} AddsPlace(orders: seq<Order>, now: Seconds)
    ensures Placed(Adds(orders, now)) == orders
  {
    hide FitsU64;
    if orders != [] {
      var n := |orders| - 1;
      var ops := Adds(orders, now);
      assert ops[..|ops| - 1] == Adds(orders[..n], now);
      AddsPlace(orders[..n], now);
      assert orders == orders[..n] + [orders[n]];
    }
  }

  /** Orders that are pairwise quiet, added in arrival order, only rest. */
  lemma {:induction false} AddsOnlyRest(orders: seq<Order>, now: Seconds)
    requires Stamped(orders)
    requires forall o :: o in orders ==> !Refused(o, now)
    requires forall p, q :: p in orders && q in orders && IsBid(p) && !IsBid(q) ==> PairQuiet(p, q)
    ensures var h := Run(Adds(orders, now));
            h.log == [] && SameOrders(h.book, orders)
  {
    hide FitsU64, PairQuiet, Fillable, Refused, AddTo, IsBid, SameOrders;
    if orders == [] {
      EmptyHasNone();
    } else {
      var n := |orders| - 1;
      var x, ops := orders[n], Adds(orders, now);
      assert ops[..|ops| - 1] == Adds(orders[..n], now);
      assert orders == orders[..n] + [x];
      assert forall o :: o in orders[..n] ==> o in orders && o.arrival < x.arrival;
      AddsOnlyRest(orders[..n], now);
      RestsBesides(Run(Adds(orders[..n], now)).book, orders[..n], x, now);
    }
  }

  lemma EmptyHasNone()
    ensures SameOrders(EMPTY_BOOK, [])
  {
  }

  lemma RestsBesides(b: BookState, earlier: seq<Order>, x: Order, now: Seconds)
    requires SameOrders(b, earlier) && !Refused(x, now)
    requires forall o :: o in earlier ==> !Refused(o, now) && o.arrival < x.arrival
    requires forall o :: o in earlier && IsBid(o) && !IsBid(x) ==> PairQuiet(o, x)
    requires forall o :: o in earlier && IsBid(x) && !IsBid(o) ==> PairQuiet(x, o)
    ensures AddTo(b, x, now).matches == []
    ensures SameOrders(AddTo(b, x, now).book, earlier + [x])
  {
    hide FitsU64, Fillable, Expired, BestFirst, Walk, IsBid;
    var bidSide := !IsBid(x);
    MemberOfSorted(bidSide, b.Side(bidSide));
    var sorted := BestFirst(bidSide, b.Side(bidSide));
    forall r | r in sorted ensures !Expired(r, now) && !Fillable(x, r) {
      assert r in earlier && IsBid(r) == bidSide;
    }
    WalkMeetsNothing(x, sorted, now);
    var b' := AddTo(b, x, now).book;
    assert b'.Side(bidSide) == sorted && b'.Side(IsBid(x)) == b.Side(IsBid(x)) + [x];
  }

  /** Restart: for every reachable book and every listing of its resting orders in arrival
      order, none of them expired, rebuilding makes no match and gives both sides back in
      the price-time order they had. */
  lemma RebuildIsFixpoint(ops: seq<Op>, orders: seq<Order>, now: Seconds)
    requires Stamped(Placed(ops))
    requires Stamped(orders) && forall o :: o in orders <==> o in Run(ops).book.Orders()
    requires forall o :: o in orders ==> !Expired(o, now)
    ensures var h := Run(Adds(orders, now));
            && h.log == []
            && BestFirst(true, h.book.bids) == BestFirst(true, Run(ops).book.bids)
            && BestFirst(false, h.book.asks) == BestFirst(false, Run(ops).book.asks)
  {
    hide FitsU64, TallyOf, Settleable, Chained, PairQuiet, BestFirst, Expired, Run, EqualPricesInOrder;
    RunAccounted(ops);
    var b := Run(ops).book;
    forall p, q | p in orders && q in orders && IsBid(p) && !IsBid(q) ensures PairQuiet(p, q) {
      assert p in b.Orders() && q in b.Orders() && p in b.bids && q in b.asks;
    }
    AddsOnlyRest(orders, now);
    AddsPlace(orders, now);
    RunAccounted(Adds(orders, now));
    SameSide(true, Run(Adds(orders, now)).book, b, orders);
    SameSide(false, Run(Adds(orders, now)).book, b, orders);
  }

  lemma SameSide(bidSide: bool, a: BookState, b: BookState, orders: seq<Order>)
    requires SideOk(true, b.bids) && SideOk(false, b.asks) && SideOk(bidSide, a.Side(bidSide))
    requires SameOrders(a, orders) && forall o :: o in orders <==> o in b.Orders()
    ensures BestFirst(bidSide, a.Side(bidSide)) == BestFirst(bidSide, b.Side(bidSide))
  {
    hide FitsU64, BestFirst, PriceTimeSorted;
    BestFirstIsPriceTime(bidSide, a.Side(bidSide));
    BestFirstIsPriceTime(bidSide, b.Side(bidSide));
    forall o: Order ensures o in a.Side(bidSide) <==> o in b.Side(bidSide) {
      assert o in b.Orders() <==> o in b.bids || o in b.asks;
    }
    PriceTimeUnique(bidSide, BestFirst(bidSide, a.Side(bidSide)), BestFirst(bidSide, b.Side(bidSide)));
  }

  // ----- what follows a rebuild

  /** The two books list the same orders in the same price-time order. Their vectors may
      differ: a side is sorted only when the other side's next order meets it. */
  ghost predicate SameListing(a: BookState, b: BookState) {
    BestFirst(true, a.bids) == BestFirst(true, b.bids) && BestFirst(false, a.asks) == BestFirst(false, b.asks)
  }

  ghost predicate SameMembers(s: seq<Order>, t: seq<Order>) {
    forall o: Order :: o in s <==> o in t
  }

  lemma ListingHasMembers(a: BookState, b: BookState)
    requires SameListing(a, b)
    ensures SameMembers(a.bids, b.bids) && SameMembers(a.asks, b.asks)
  {
    hide FitsU64, BestFirst, RankSorted;
    MemberOfSorted(true, a.bids);
    MemberOfSorted(true, b.bids);
    MemberOfSorted(false, a.asks);
    MemberOfSorted(false, b.asks);
  }

  lemma MembersDecide(bidSide: bool, s: seq<Order>, t: seq<Order>)
    requires EqualPricesInOrder(s) && EqualPricesInOrder(t) && SameMembers(s, t)
    ensures BestFirst(bidSide, s) == BestFirst(bidSide, t)
  {
    hide FitsU64, BestFirst, PriceTimeSorted, EqualPricesInOrder;
    BestFirstIsPriceTime(bidSide, s);
    BestFirstIsPriceTime(bidSide, t);
    PriceTimeUnique(bidSide, BestFirst(bidSide, s), BestFirst(bidSide, t));
  }

  lemma AddsAlike(a: BookState, b: BookState, x: Order, now: Seconds)
    requires SameListing(a, b)
    ensures var p, q := AddTo(a, x, now), AddTo(b, x, now);
            && p.matches == q.matches
            && SameMembers(p.book.bids, q.book.bids) && SameMembers(p.book.asks, q.book.asks)
  {
    hide FitsU64, BestFirst, Walk, IsBid, Refused;
    ListingHasMembers(a, b);
    assert WalkOf(a, x, now) == WalkOf(b, x, now);
  }

  lemma RemovesAlike(a: BookState, b: BookState, txId: string)
    requires SameListing(a, b)
    requires TxOnce(a.bids) && TxOnce(a.asks) && TxOnce(b.bids) && TxOnce(b.asks)
    ensures var p, q := RemoveFrom(a, txId), RemoveFrom(b, txId);
            SameMembers(p.bids, q.bids) && SameMembers(p.asks, q.asks)
  {
    hide FitsU64, BestFirst, Without, TxOnce, Position;
    ListingHasMembers(a, b);
    HeldAlike(a.bids, b.bids, txId);
    WithoutAlike(a.bids, b.bids, txId);
    WithoutAlike(a.asks, b.asks, txId);
  }

  lemma HeldAlike(s: seq<Order>, t: seq<Order>, txId: string)
    requires SameMembers(s, t)
    ensures Holds(s, txId) == Holds(t, txId)
  {
    hide FitsU64, Position;
    if Holds(s, txId) { assert s[Position(s, txId)] in t; }
    if Holds(t, txId) { assert t[Position(t, txId)] in s; }
  }

  lemma WithoutAlike(s: seq<Order>, t: seq<Order>, txId: string)
    requires SameMembers(s, t) && TxOnce(s) && TxOnce(t)
    ensures SameMembers(Without(s, txId), Without(t, txId))
  {
    hide FitsU64, Without, TxOnce;
    forall o: Order ensures o in Without(s, txId) <==> o in Without(t, txId) {
      WithoutTakesOne(s, txId, o);
      WithoutTakesOne(t, txId, o);
    }
  }

  lemma SidesOfRun(ops: seq<Op>)
    requires Stamped(Placed(ops)) && DistinctTxIds(Placed(ops))
    ensures var b := Run(ops).book;
            EqualPricesInOrder(b.bids) && EqualPricesInOrder(b.asks) && TxOnce(b.bids) && TxOnce(b.asks)
  {
    hide FitsU64, Run, Placed, Stamped, DistinctTxIds, TallyOf, Settleable, Chained, Quiet, Traced, TxOnce, EqualPricesInOrder;
    RunAccounted(ops);
    SideHasTxOnce(Placed(ops), Run(ops), true);
    SideHasTxOnce(Placed(ops), Run(ops), false);
  }

  lemma {:induction false} PlacedAppend(a: seq<Op>, b: seq<Op>)
    ensures Placed(a + b) == Placed(a) + Placed(b)
  {
    hide FitsU64;
    if b == [] {
      assert a + b == a;
    } else {
      var n := |b| - 1;
      assert (a + b)[..|a + b| - 1] == a + b[..n] && (a + b)[|a + b| - 1] == b[n];
      PlacedAppend(a, b[..n]);
    }
  }

  lemma FewerPlaced(placed: seq<Order>, more: seq<Order>)
    requires Stamped(placed + more) && DistinctTxIds(placed + more)
    ensures Stamped(placed) && DistinctTxIds(placed)
  {
    assert forall i :: 0 <= i < |placed| ==> (placed + more)[i] == placed[i];
  }

  /** Two runs whose books list the same orders make the same matches from there on, under
      every further sequence of adds and cancels, and go on listing the same orders. */
  lemma {:induction false} SameFuture(a: seq<Op>, b: seq<Op>, more: seq<Op>)
    requires Stamped(Placed(a + more)) && DistinctTxIds(Placed(a + more))
    requires Stamped(Placed(b + more)) && DistinctTxIds(Placed(b + more))
    requires SameListing(Run(a).book, Run(b).book)
    ensures SameListing(Run(a + more).book, Run(b + more).book)
    ensures exists matches ::
              && Run(a + more).log == Run(a).log + matches
              && Run(b + more).log == Run(b).log + matches
    decreases |more|
  {
    hide FitsU64, Run, Placed, Stamped, DistinctTxIds, Apply, SameListing;
    if more == [] {
      assert a + more == a && b + more == b;
      assert Run(a).log == Run(a).log + [] && Run(b).log == Run(b).log + [];
    } else {
      var n := |more| - 1;
      var op := more[n];
      assert a + more == (a + more[..n]) + [op] && b + more == (b + more[..n]) + [op];
      OneMoreOp(a + more[..n], op);
      OneMoreOp(b + more[..n], op);
      FewerPlaced(Placed(a + more[..n]), if op.Add? then [op.order] else []);
      FewerPlaced(Placed(b + more[..n]), if op.Add? then [op.order] else []);
      SameFuture(a, b, more[..n]);
      var matches :| Run(a + more[..n]).log == Run(a).log + matches && Run(b + more[..n]).log == Run(b).log + matches;
      var made := OneOpAlike(a + more[..n], b + more[..n], op);
      assert Run(a).log + matches + made == Run(a).log + (matches + made);
      assert Run(b).log + matches + made == Run(b).log + (matches + made);
    }
  }

  lemma OneOpAlike(a: seq<Op>, b: seq<Op>, op: Op) returns (made: seq<Match>)
    requires Stamped(Placed(a)) && DistinctTxIds(Placed(a)) && Stamped(Placed(b)) && DistinctTxIds(Placed(b))
    requires Stamped(Placed(a + [op])) && DistinctTxIds(Placed(a + [op]))
    requires Stamped(Placed(b + [op])) && DistinctTxIds(Placed(b + [op]))
    requires SameListing(Run(a).book, Run(b).book)
    ensures SameListing(Run(a + [op]).book, Run(b + [op]).book)
    ensures Run(a + [op]).log == Run(a).log + made && Run(b + [op]).log == Run(b).log + made
  {
    hide FitsU64, Run, Placed, Stamped, DistinctTxIds, SameMembers, AddTo, RemoveFrom, BestFirst, EqualPricesInOrder, TxOnce;
    OneMoreOp(a, op);
    OneMoreOp(b, op);
    SidesOfRun(a);
    SidesOfRun(b);
    SidesOfRun(a + [op]);
    SidesOfRun(b + [op]);
    if op.Add? {
      AddsAlike(Run(a).book, Run(b).book, op.order, op.now);
      made := AddTo(Run(a).book, op.order, op.now).matches;
    } else {
      RemovesAlike(Run(a).book, Run(b).book, op.txId);
      made := [];
    }
    MembersDecide(true, Run(a + [op]).book.bids, Run(b + [op]).book.bids);
    MembersDecide(false, Run(a + [op]).book.asks, Run(b + [op]).book.asks);
  }

  /** The orders still resting keep what the placed orders have: stamps before any later one,
      and txIds of their own. */
  lemma RestingStayDistinct(placed: seq<Order>, log: seq<Match>, orders: seq<Order>, later: seq<Order>)
    requires Stamped(placed + later) && DistinctTxIds(placed + later) && Stamped(orders)
    requires forall o :: o in orders ==> Traced(o, placed, log)
    ensures Stamped(orders + later) && DistinctTxIds(orders + later)
  {
    hide FitsU64, TallyOf;
    var all, was := orders + later, placed + later;
    assert forall i :: 0 <= i < |placed| ==> was[i] == placed[i];
    assert forall i :: 0 <= i < |later| ==> was[|placed| + i] == later[i];
    forall i, j | 0 <= i < j < |all| ensures all[i].arrival < all[j].arrival && all[i].txId != all[j].txId {
      if j < |orders| {
        assert orders[i] in orders && orders[j] in orders;
        var p :| p in placed && Advanced(p, orders[i], log);
        var q :| q in placed && Advanced(q, orders[j], log);
      } else if i < |orders| {
        assert orders[i] in orders;
        var p :| p in placed && Advanced(p, orders[i], log);
        assert all[j] == was[|placed| + (j - |orders|)];
      } else {
        assert all[i] == was[|placed| + (i - |orders|)] && all[j] == was[|placed| + (j - |orders|)];
      }
    }
  }

  /** A restart is invisible: from the rebuilt book, every further sequence of adds and cancels
      makes exactly the matches it would have made from the book itself. */
  lemma RebuildIsInvisible(ops: seq<Op>, orders: seq<Order>, now: Seconds, more: seq<Op>)
    requires Stamped(Placed(ops) + Placed(more)) && DistinctTxIds(Placed(ops) + Placed(more))
    requires Stamped(orders) && forall o :: o in orders <==> o in Run(ops).book.Orders()
    requires forall o :: o in orders ==> !Expired(o, now)
    ensures var went, restarted := Run(ops + more), Run(Adds(orders, now) + more);
            && went.log == Run(ops).log + restarted.log
            && SameListing(went.book, restarted.book)
  {
    hide FitsU64, Run, Placed, Stamped, DistinctTxIds, BestFirst, Inv, Settleable, Chained, Traced, Adds, Expired;
    FewerPlaced(Placed(ops), Placed(more));
    RunAccounted(ops);
    RestingStayDistinct(Placed(ops), Run(ops).log, orders, Placed(more));
    AddsPlace(orders, now);
    PlacedAppend(ops, more);
    PlacedAppend(Adds(orders, now), more);
    RebuildIsFixpoint(ops, orders, now);
    SameFuture(ops, Adds(orders, now), more);
    assert forall s: seq<Match> :: [] + s == s;
  }
}
