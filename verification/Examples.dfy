/** Runs at which the code does something its documentation does not say. */
module Examples {
  import opened Orders
  import opened Fills
  import opened PriceTime
  import opened Pairing
  import opened Matching
  import opened Runs
  import opened Guarantees

  const ONE: u64 := 1_000_000

  function Plain(arrival: nat, txId: string, trader: string, side: u32, action: u32, limit: u64, deadline: u64): Order {
    OrderData(arrival, txId, "m", trader, trader, side, action, limit, ONE, ONE, deadline, 0, 0)
  }

  /** The first order of a run only rests. */
  lemma FirstRests(x: Order, now: Seconds)
    requires !Refused(x, now)
    ensures Run([Add(x, now)]).log == [] && Placed([Add(x, now)]) == [x]
    ensures Run([Add(x, now)]).book == if IsBid(x) then BookState([x], []) else BookState([], [x])
  {
    assert [] + [Add(x, now)] == [Add(x, now)];
    OneMoreOp([], Add(x, now));
  }

  /** Against a single resting order: the walk is one attempt. */
  lemma WalkOne(x: Order, r: Order, now: Seconds)
    requires Remaining(x) > 0 && !Expired(r, now) && Crosses(BidOf(x, r), AskOf(x, r)) && Attempt(x, r).Some?
    ensures Walk(x, [r], now).matches == [Attempt(x, r).value]
  {
    hide Attempt;
    var m := Attempt(x, r).value;
    assert Walk(After(x, m), [], now).matches == [];
  }

  lemma SecondMatches(ask: Order, bid: Order, now: Seconds)
    requires !IsBid(ask) && IsBid(bid) && !Refused(ask, now) && !Refused(bid, now)
    requires bid.limit >= ask.limit && Attempt(bid, ask).Some?
    ensures var ops := [Add(ask, now), Add(bid, now)];
            Run(ops).log == [Attempt(bid, ask).value] && Placed(ops) == [ask, bid]
  {
    hide Attempt, Walk;
    FirstRests(ask, now);
    assert [Add(ask, now)] + [Add(bid, now)] == [Add(ask, now), Add(bid, now)];
    OneMoreOp([Add(ask, now)], Add(bid, now));
    assert BestFirst(false, [ask]) == [ask];
    WalkOne(bid, ask, now);
  }

  /** A whole-share fill that both caps allow is made whole. */
  lemma WholeShare(ask: Order, bid: Order, price: u64)
    requires IsBid(bid) && !SameTrader(bid, ask) && Remaining(bid) == Remaining(ask) == ONE
    requires ExecutionPrice(ask, bid) == Some(price) && CapsOk(bid, ask, price, ONE)
    ensures Attempt(bid, ask) == Some(Match(bid.marketId, bid, ask, ONE, price, price, ONE - price))
  {
    hide CapsOk;
    assert YesLeg(ONE, price) == price;
    assert LargestWithinCaps(bid, ask, price, ONE) == ONE;
  }

  /** A resting ask at limit 0, a market order, is filled at the incoming bid's limit. */
  lemma FillAtIncomingLimit()
    ensures var ask, bid := Plain(0, "a", "1", SIDE_NO, ACTION_BUY, 0, 1000), Plain(1, "b", "2", SIDE_YES, ACTION_BUY, 420_000, 1000);
            var log := Run([Add(ask, 0), Add(bid, 0)]).log;
            |log| == 1 && log[0].ask == ask && log[0].price == 420_000 == bid.limit != ask.limit
  {
    hide Run, Attempt;
    var ask, bid := Plain(0, "a", "1", SIDE_NO, ACTION_BUY, 0, 1000), Plain(1, "b", "2", SIDE_YES, ACTION_BUY, 420_000, 1000);
    WholeShare(ask, bid, 420_000);
    SecondMatches(ask, bid, 0);
  }

  /** An ask with side code 2 and action SELL is matched like any other, and collateral does not
      balance: the buyer pays 400_000 for the share and the seller receives 600_000. */
  lemma UnpairedAskDoesNotBalance()
    ensures var ask, bid := Plain(0, "a", "1", 2, ACTION_SELL, 400_000, 1000), Plain(1, "b", "2", SIDE_YES, ACTION_BUY, 400_000, 1000);
            var ops := [Add(ask, 0), Add(bid, 0)];
            var log := Run(ops).log;
            && Stamped(Placed(ops)) && MintedShares(log) == MergedShares(log) == 0
            && NetPaid(Placed(ops), log) == -200_000
  {
    hide Run, Attempt, NetPaid;
    var ask, bid := Plain(0, "a", "1", 2, ACTION_SELL, 400_000, 1000), Plain(1, "b", "2", SIDE_YES, ACTION_BUY, 400_000, 1000);
    var ops := [Add(ask, 0), Add(bid, 0)];
    WholeShare(ask, bid, 400_000);
    SecondMatches(ask, bid, 0);
    CollateralConserved(ops);
    var m := Run(ops).log[0];
    assert Run(ops).log == [m] && [m][1..] == [];
  }

  /** An ask 10 seconds from its deadline still rests after a bid that crosses nothing: the walk
      stops at the better ask before it. */
  lemma ExpiredOrderCanRest()
    ensures var near := Plain(0, "a", "1", SIDE_YES, ACTION_SELL, 600_000, 1000);
            var late := Plain(1, "b", "2", SIDE_YES, ACTION_SELL, 700_000, 100);
            var bid := Plain(2, "c", "3", SIDE_YES, ACTION_BUY, 500_000, 1000);
            var book := Run([Add(near, 0), Add(late, 0), Add(bid, 90)]).book;
            late in book.asks && late.deadline <= 90 + 30
  {
    hide Attempt, Run;
    var near := Plain(0, "a", "1", SIDE_YES, ACTION_SELL, 600_000, 1000);
    var late := Plain(1, "b", "2", SIDE_YES, ACTION_SELL, 700_000, 100);
    var bid := Plain(2, "c", "3", SIDE_YES, ACTION_BUY, 500_000, 1000);
    FirstRests(near, 0);
    assert [Add(near, 0)] + [Add(late, 0)] == [Add(near, 0), Add(late, 0)];
    OneMoreOp([Add(near, 0)], Add(late, 0));
    BesideIt(near, late, 0);
    assert [Add(near, 0), Add(late, 0)] + [Add(bid, 90)] == [Add(near, 0), Add(late, 0), Add(bid, 90)];
    OneMoreOp([Add(near, 0), Add(late, 0)], Add(bid, 90));
    BarredAtOnce(bid, near, late, 90);
  }

  /** Two asks side by side. */
  lemma BesideIt(first: Order, x: Order, now: Seconds)
    requires !IsBid(first) && !IsBid(x) && !Refused(x, now)
    ensures AddTo(BookState([], [first]), x, now).book == BookState([], [first, x])
  {
    assert BestFirst(true, []) == [];
    assert Walk(x, [], now) == Walked(x, [], []);
  }

  /** A bid that does not cross the better of two asks leaves both. */
  lemma BarredAtOnce(bid: Order, near: Order, late: Order, now: Seconds)
    requires IsBid(bid) && !Refused(bid, now) && !IsBid(near) && !Expired(near, now)
    requires bid.limit < near.limit <= late.limit
    ensures AddTo(BookState([], [near, late]), bid, now).book.asks == [near, late]
  {
    hide Attempt;
    assert [near, late][1..] == [late] && BestFirst(false, [late]) == [late];
    assert BestFirst(false, [near, late]) == [near, late];
    assert Walk(bid, [near, late], now) == Walked(bid, [near, late], []);
  }
}
