/** Price-time priority of the fills of one incoming order. */
module Priority {
  import opened Orders
  import opened PriceTime
  import opened Pairing
  import opened Matching
  import opened Quiescence
  import opened Ledger
  import opened Runs

  function RestingOf(bidIn: bool, m: Match): Order { if bidIn then m.ask else m.bid }
  function IncomingOf(bidIn: bool, m: Match): Order { if bidIn then m.bid else m.ask }

  /** `bidIn`: the incoming order is a bid. The matches meet the resting orders in price-time order. */
  ghost predicate InPriority(bidIn: bool, matches: seq<Match>) {
    forall i, j :: 0 <= i < j < |matches| ==>
      Better(!bidIn, RestingOf(bidIn, matches[i]), RestingOf(bidIn, matches[j]))
  }

  /** No order left behind had a better place than a filled one and could still have been
      filled at that moment. */
  ghost predicate NotTradedThrough(bidIn: bool, left: seq<Order>, m: Match) {
    forall o :: o in left && Better(!bidIn, o, RestingOf(bidIn, m)) ==> !Fillable(IncomingOf(bidIn, m), o)
  }

  ghost predicate NoneTradedThrough(bidIn: bool, w: Walked) {
    forall m :: m in w.matches ==> NotTradedThrough(bidIn, w.left, m)
  }

  lemma {:induction false} WalkMeets(x: Order, opposite: seq<Order>, now: Seconds)
    requires forall r :: r in opposite ==> IsBid(r) != IsBid(x)
    ensures forall m :: m in Walk(x, opposite, now).matches ==>
              && Grew(x, IncomingOf(IsBid(x), m)) && Remaining(IncomingOf(IsBid(x), m)) > 0
              && RestingOf(IsBid(x), m) in opposite
    decreases |opposite|
  {
    hide FitsU64, Attempt, Crosses, Expired, Fits;
    if opposite != [] && Remaining(x) > 0 {
      var r, rest := opposite[0], opposite[1..];
      assert opposite == [r] + rest;
      var attempt := Attempt(x, r);
      WalkMeets(x, rest, now);
      if attempt.Some? {
        WalkMeets(After(x, attempt.value), rest, now);
        AttemptParties(x, r);
      }
    }
  }

  lemma {:induction false} WalkInPriority(x: Order, opposite: seq<Order>, now: Seconds)
    requires forall r :: r in opposite ==> IsBid(r) != IsBid(x)
    requires PriceTimeSorted(!IsBid(x), opposite)
    ensures InPriority(IsBid(x), Walk(x, opposite, now).matches)
    decreases |opposite|
  {
    hide FitsU64, Attempt, Crosses, Expired, Fits, Remaining;
    if opposite != [] && Remaining(x) > 0 {
      var r, rest := opposite[0], opposite[1..];
      var attempt := Attempt(x, r);
      WalkInPriority(x, rest, now);
      if attempt.Some? {
        var m, x' := attempt.value, After(x, attempt.value);
        var later := Walk(x', rest, now).matches;
        WalkInPriority(x', rest, now);
        WalkMeets(x', rest, now);
        AttemptParties(x, r);
        forall j | 0 <= j < |later| ensures Better(!IsBid(x), RestingOf(IsBid(x), m), RestingOf(IsBid(x), later[j])) {
          assert later[j] in later;
        }
      }
    }
  }

  lemma {:induction false} WalkNotTradedThrough(x: Order, opposite: seq<Order>, now: Seconds)
    requires forall r :: r in opposite ==> Remaining(r) > 0 && IsBid(r) != IsBid(x)
    requires PriceTimeSorted(!IsBid(x), opposite)
    ensures NoneTradedThrough(IsBid(x), Walk(x, opposite, now))
    decreases |opposite|, 0
  {
    hide FitsU64, Attempt, Expired, Fits, Grew, Crosses, NotTradedThrough, Better;
    if opposite != [] && Remaining(x) > 0 {
      var r, rest := opposite[0], opposite[1..];
      assert opposite == [r] + rest;
      var attempt := Attempt(x, r);
      if Expired(r, now) {
        WalkNotTradedThrough(x, rest, now);
        assert Walk(x, opposite, now) == Walk(x, rest, now);
      } else if !Crosses(BidOf(x, r), AskOf(x, r)) {
        assert Walk(x, opposite, now).matches == [];
      } else if attempt.None? {
        WalkNotTradedThrough(x, rest, now);
        SkippedNotTradedThrough(x, r, rest, now);
      } else {
        FilledNotTradedThrough(x, r, rest, now);
        var m := attempt.value;
        var w := Walk(After(x, m), rest, now);
        assert Walk(x, opposite, now) == Walked(w.incoming, Kept(After(r, m)) + w.left, [m] + w.matches);
      }
    }
  }

  lemma SkippedNotTradedThrough(x: Order, r: Order, rest: seq<Order>, now: Seconds)
    requires forall o :: o in rest ==> IsBid(o) != IsBid(x)
    requires Attempt(x, r).None?
    requires NoneTradedThrough(IsBid(x), Walk(x, rest, now))
    ensures var w := Walk(x, rest, now);
            NoneTradedThrough(IsBid(x), w.(left := [r] + w.left))
  {
    hide FitsU64, Attempt, Walk, NotTradedThrough, Fillable;
    SkippedStaysBehind(x, r, rest, now);
    forall m | m in Walk(x, rest, now).matches
      ensures NotTradedThrough(IsBid(x), [r] + Walk(x, rest, now).left, m)
    {
      OneMoreBehind(IsBid(x), r, Walk(x, rest, now).left, m);
    }
  }

  /** An order the incoming one could not trade with when it met it stays untradeable. */
  lemma SkippedStaysBehind(x: Order, r: Order, rest: seq<Order>, now: Seconds)
    requires forall o :: o in rest ==> IsBid(o) != IsBid(x)
    ensures Attempt(x, r).None? ==>
              forall m :: m in Walk(x, rest, now).matches ==> !Fillable(IncomingOf(IsBid(x), m), r)
  {
    hide FitsU64, Attempt, Walk, Crosses;
    WalkMeets(x, rest, now);
    if Attempt(x, r).None? {
      forall m | m in Walk(x, rest, now).matches ensures !Fillable(IncomingOf(IsBid(x), m), r) {
        NeverAgain(x, r, IncomingOf(IsBid(x), m), r);
      }
    }
  }

  lemma CanFill(x: Order, r: Order)
    requires Crosses(BidOf(x, r), AskOf(x, r)) && Attempt(x, r).Some?
    ensures Fillable(x, r)
  {
  }

  lemma OneMoreBehind(bidIn: bool, r: Order, left: seq<Order>, m: Match)
    requires NotTradedThrough(bidIn, left, m) && !Fillable(IncomingOf(bidIn, m), r)
    ensures NotTradedThrough(bidIn, [r] + left, m)
  {
    hide Fillable, Better, FitsU64;
  }

  lemma NoneBehindIsBetter(bidIn: bool, r: Order, left: seq<Order>, m: Match)
    requires forall o :: o in left ==> !Better(!bidIn, o, RestingOf(bidIn, m))
    ensures NotTradedThrough(bidIn, left, m)
  {
  }

  lemma FilledNotTradedThrough(x: Order, r: Order, rest: seq<Order>, now: Seconds)
    requires forall o :: o in [r] + rest ==> Remaining(o) > 0 && IsBid(o) != IsBid(x)
    requires PriceTimeSorted(!IsBid(x), [r] + rest)
    requires Crosses(BidOf(x, r), AskOf(x, r)) && Attempt(x, r).Some?
    ensures var m := Attempt(x, r).value;
            var w := Walk(After(x, m), rest, now);
            NoneTradedThrough(IsBid(x), Walked(w.incoming, Kept(After(r, m)) + w.left, [m] + w.matches))
    decreases |rest|, 1
  {
    hide FitsU64, Attempt, Expired, Fits, Crosses, Walk, NotTradedThrough, Fillable, Better;
    assert ([r] + rest)[0] == r && forall i :: 0 <= i < |rest| ==> rest[i] == ([r] + rest)[i + 1];
    assert r in [r] + rest && forall o :: o in rest ==> o in [r] + rest && Better(!IsBid(x), r, o);
    var m := Attempt(x, r).value;
    var x', r' := After(x, m), After(r, m);
    var w := Walk(x', rest, now);
    AttemptParties(x, r);
    WalkNotTradedThrough(x', rest, now);
    assert Fillable(x, r) by { CanFill(x, r); }
    FillSettlesThePair(x, r);
    SkippedStaysBehind(x', r', rest, now);
    DoneStops(x', rest, now);
    BehindTheRest(IsBid(x), r', w);
    NoneBehindTheFirst(x, r, rest, now);
  }

  lemma BehindTheRest(bidIn: bool, r: Order, w: Walked)
    requires NoneTradedThrough(bidIn, w)
    requires Remaining(r) > 0 ==> forall n :: n in w.matches ==> !Fillable(IncomingOf(bidIn, n), r)
    ensures forall n :: n in w.matches ==> NotTradedThrough(bidIn, Kept(r) + w.left, n)
  {
    hide FitsU64, NotTradedThrough, Fillable;
    assert [] + w.left == w.left;
    forall n | n in w.matches ensures NotTradedThrough(bidIn, Kept(r) + w.left, n) {
      assert NotTradedThrough(bidIn, w.left, n);
      if Remaining(r) > 0 { OneMoreBehind(bidIn, r, w.left, n); }
    }
  }

  /** The first order filled was the best of all that were left to meet. */
  lemma NoneBehindTheFirst(x: Order, r: Order, rest: seq<Order>, now: Seconds)
    requires forall o :: o in rest ==> Remaining(o) > 0 && Better(!IsBid(x), r, o)
    requires Attempt(x, r).Some? && RestingOf(IsBid(x), Attempt(x, r).value) == r
    ensures var m := Attempt(x, r).value;
            NotTradedThrough(IsBid(x), Kept(After(r, m)) + Walk(After(x, m), rest, now).left, m)
  {
    hide FitsU64, Attempt, Fits, Walk, NotTradedThrough;
    var m := Attempt(x, r).value;
    WalkGrows(After(x, m), rest, now);
    var left := Walk(After(x, m), rest, now).left;
    forall o | o in Kept(After(r, m)) + left ensures !Better(!IsBid(x), o, r) {
      if o in left { var was :| was in rest && Grew(was, o); }
    }
    NoneBehindIsBetter(IsBid(x), r, Kept(After(r, m)) + left, m);
  }

  lemma DoneStops(x: Order, opposite: seq<Order>, now: Seconds)
    ensures Remaining(x) == 0 ==> Walk(x, opposite, now).matches == []
  {
  }

  /** In every reachable book: the matches of one `add` come in price-time order, and none of
      them trades through a better-placed order that is still in the book afterwards. */
  lemma NoTradeThrough(ops: seq<Op>, x: Order, now: Seconds)
    requires Stamped(Placed(ops))
    ensures var out := AddTo(Run(ops).book, x, now);
            && InPriority(IsBid(x), out.matches)
            && forall m :: m in out.matches ==> NotTradedThrough(IsBid(x), out.book.Side(!IsBid(x)), m)
  {
    hide FitsU64, TallyOf, Settleable, Chained, Quiet, Walk, BestFirst, Fillable, Run, Stamped;
    RunAccounted(ops);
    var side := Run(ops).book.Side(!IsBid(x));
    MemberOfSorted(!IsBid(x), side);
    BestFirstIsPriceTime(!IsBid(x), side);
    WalkInPriority(x, BestFirst(!IsBid(x), side), now);
    WalkNotTradedThrough(x, BestFirst(!IsBid(x), side), now);
  }

  /** The only reasons to pass over a crossing order: one trader, or no fill the contract
      would settle at the price the two would trade at. */
  lemma WhyPassedOver(x: Order, o: Order, fill: nat)
    requires IsBid(x) != IsBid(o) && !Fillable(x, o)
    requires if IsBid(x) then x.limit >= o.limit else o.limit >= x.limit
    ensures x.evm == o.evm || x.account == o.account
         || !CanSettle(BidOf(x, o), AskOf(x, o), if 0 < o.limit < 1_000_000 then o.limit else x.limit, fill)
  {
    hide Attempt, CanSettle, FitsU64;
    var price := if 0 < o.limit < 1_000_000 then o.limit else x.limit;
    if x.evm != o.evm && x.account != o.account && CanSettle(BidOf(x, o), AskOf(x, o), price, fill) {
      AttemptIsLargestSettling(x, o, price, fill);
    }
  }

  /** Arrival order at one price holds in every reachable book, wherever the vectors have
      been sorted or appended to. */
  lemma EqualPricesStayInOrder(ops: seq<Op>)
    requires Stamped(Placed(ops))
    ensures EqualPricesInOrder(Run(ops).book.bids) && EqualPricesInOrder(Run(ops).book.asks)
  {
    RunAccounted(ops);
  }
}
