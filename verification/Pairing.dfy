/** When and how an incoming order trades with one resting order. */
module Pairing {
  import opened Orders
  import opened Fills

  predicate Crosses(bid: OrderData, ask: OrderData) {
    bid.limit >= ask.limit
  }

  /** The resting order's limit, or the incoming order's when the resting one is at the edge. */
  function ExecutionPrice(resting: OrderData, incoming: OrderData): (p: Option<u64>)
    ensures p.Some? ==> UsablePrice(p.value)
  {
    if UsablePrice(resting.limit) then Some(resting.limit)
    else if UsablePrice(incoming.limit) then Some(incoming.limit)
    else None
  }

  /** One settlement instruction. `bid` and `ask` are the orders before this fill. */
  datatype Match = Match(marketId: string, bid: Order, ask: Order, shares: u64, price: u64, yes: u64, no: u64)

  function BidOf(incoming: Order, resting: Order): Order {
    if IsBid(incoming) then incoming else resting
  }

  function AskOf(incoming: Order, resting: Order): Order {
    if IsBid(incoming) then resting else incoming
  }

  predicate Fits(o: Order, m: Match) {
    m.shares <= Remaining(o) && m.yes <= m.shares && m.no <= m.shares
  }

  /** One party's order after the fill. */
  function After(o: Order, m: Match): (r: Order)
    requires Fits(o, m)
    ensures Grew(o, r) && Remaining(r) == Remaining(o) - m.shares
  {
    Filled(o, m.shares, LegCollateral(o, m.yes, m.no))
  }

  function Min(a: u64, b: u64): u64 { if a <= b then a else b }

  /** The fill the engine makes between two crossing orders, or None when it skips the pair. */
  function Attempt(incoming: Order, resting: Order): (r: Option<Match>)
    ensures r.Some? ==> Fits(incoming, r.value) && Fits(resting, r.value)
  {
    if SameTrader(incoming, resting) then None
    else
      var price := ExecutionPrice(resting, incoming);
      if price.None? then None
      else
        var bid, ask := BidOf(incoming, resting), AskOf(incoming, resting);
        var fill := MaxFill(bid, ask, price.value, Min(Remaining(incoming), Remaining(resting)));
        if fill.None? then None
        else
          var legs := SplitCollateral(fill.value, price.value).value;
          Some(Match(incoming.marketId, bid, ask, fill.value, price.value, legs.0, legs.1))
  }

  predicate Fillable(incoming: Order, resting: Order) {
    Crosses(BidOf(incoming, resting), AskOf(incoming, resting)) && Attempt(incoming, resting).Some?
  }

  /** What settlement needs of a match, whatever order was resting. */
  predicate Settleable(m: Match) {
    && IsBid(m.bid) && !IsBid(m.ask) && !SameTrader(m.bid, m.ask)
    && m.ask.limit <= m.price <= m.bid.limit && UsablePrice(m.price)
    && m.yes == YesLeg(m.shares, m.price) && m.yes + m.no == m.shares
    && 0 < m.yes && 0 < m.no
    && m.shares <= Remaining(m.bid) && m.shares <= Remaining(m.ask)
    && (m.bid.action == ACTION_BUY ==> m.bid.collateralFilled + BidLeg(m) <= m.bid.cap)
    && (m.ask.action == ACTION_BUY ==> m.ask.collateralFilled + AskLeg(m) <= m.ask.cap)
  }

  /** The settlement contract's rules for one fill, in plain arithmetic and on their own: the
      shares are there, both legs pay, and neither BUY exceeds its cap. */
  ghost predicate CanSettle(bid: OrderData, ask: OrderData, price: nat, fill: nat) {
    var yes := fill * price / 1_000_000;
    && 0 < price < 1_000_000 && 0 < yes < fill
    && bid.sharesFilled + fill <= bid.qty && ask.sharesFilled + fill <= ask.qty
    && (bid.action == ACTION_BUY ==> bid.collateralFilled + (if bid.side == SIDE_YES then yes else fill - yes) <= bid.cap)
    && (ask.action == ACTION_BUY ==> ask.collateralFilled + (if ask.side == SIDE_YES then yes else fill - yes) <= ask.cap)
  }

  /** The engine's caps, saturation included, admit exactly the fills the contract settles. */
  lemma AdmissibleIsSettling(bid: Order, ask: Order, price: nat, fill: nat)
    requires fill <= Remaining(bid) && fill <= Remaining(ask)
    ensures Admissible(bid, ask, price, fill) <==> CanSettle(bid, ask, price, fill)
  {
    if UsablePrice(price) { YesLegBounds(fill, price); }
  }

  /** So an attempt between two traders at a usable price fails only if the contract would
      settle no fill of the pair, and otherwise makes the largest one it would. */
  lemma AttemptIsLargestSettling(incoming: Order, resting: Order, price: nat, fill: nat)
    requires incoming.evm != resting.evm && incoming.account != resting.account
    requires price == if 0 < resting.limit < 1_000_000 then resting.limit else incoming.limit
    requires CanSettle(BidOf(incoming, resting), AskOf(incoming, resting), price, fill)
    ensures Attempt(incoming, resting).Some?
    ensures var m := Attempt(incoming, resting).value;
            m.price == price && m.shares >= fill && CanSettle(m.bid, m.ask, price, m.shares)
  {
    hide YesLeg, CapsOk, LargestWithinCaps, WithinCap, MaxFill, CanSettle, Admissible;
    var bid, ask := BidOf(incoming, resting), AskOf(incoming, resting);
    SettlingFits(bid, ask, price, fill);
    AdmissibleIsSettling(bid, ask, price, fill);
    MaxFillIsMaximal(bid, ask, price, Min(Remaining(incoming), Remaining(resting)));
    AdmissibleIsSettling(bid, ask, price, Attempt(incoming, resting).value.shares);
  }

  lemma SettlingFits(bid: Order, ask: Order, price: nat, fill: nat)
    requires CanSettle(bid, ask, price, fill)
    ensures UsablePrice(price) && fill <= Remaining(bid) && fill <= Remaining(ask)
  {
    hide FitsU64;
  }

  function BidLeg(m: Match): nat { LegCollateral(m.bid, m.yes, m.no) }
  function AskLeg(m: Match): nat { LegCollateral(m.ask, m.yes, m.no) }

  lemma MatchIsSettleable(incoming: Order, resting: Order)
    requires IsBid(incoming) != IsBid(resting)
    requires Fillable(incoming, resting)
    ensures Settleable(Attempt(incoming, resting).value)
  {
    var m := Attempt(incoming, resting).value;
    MaxFillIsMaximal(m.bid, m.ask, m.price, Min(Remaining(incoming), Remaining(resting)));
    YesLegBounds(m.shares, m.price);
  }

  /** No larger fill was open to the two parties of the match. */
  ghost predicate LargestFill(m: Match) {
    forall more: nat :: m.shares < more <= Remaining(m.bid) && more <= Remaining(m.ask) ==>
      !Admissible(m.bid, m.ask, m.price, more)
  }

  /** The fill is the largest the two orders, the caps and the rounding leave room for. */
  lemma MatchIsLargest(incoming: Order, resting: Order)
    requires Attempt(incoming, resting).Some?
    ensures LargestFill(Attempt(incoming, resting).value)
  {
    var m := Attempt(incoming, resting).value;
    MaxFillIsMaximal(m.bid, m.ask, m.price, Min(Remaining(incoming), Remaining(resting)));
  }

  /** Fills only shrink what is admissible. */
  lemma AdmissibleBefore(bid: Order, ask: Order, bid': Order, ask': Order, price: nat, fill: nat)
    requires Grew(bid, bid') && Grew(ask, ask')
    requires Admissible(bid', ask', price, fill)
    ensures Admissible(bid, ask, price, fill)
  {
    hide YesLeg, FitsU64;
  }

  /** A pair that cannot trade now never can. */
  lemma NeverAgain(incoming: Order, resting: Order, incoming': Order, resting': Order)
    requires Grew(incoming, incoming') && Grew(resting, resting')
    requires Attempt(incoming, resting).None?
    ensures Attempt(incoming', resting').None?
  {
    hide YesLeg, FitsU64, CapsOk, LargestWithinCaps, WithinCap, SplitCollateral, MaxFill, Admissible;
    if Attempt(incoming', resting').Some? {
      var m := Attempt(incoming', resting').value;
      var bid, ask := BidOf(incoming, resting), AskOf(incoming, resting);
      MaxFillIsMaximal(m.bid, m.ask, m.price, Min(Remaining(incoming'), Remaining(resting')));
      AdmissibleBefore(bid, ask, m.bid, m.ask, m.price, m.shares);
      MaxFillIsMaximal(bid, ask, m.price, Min(Remaining(incoming), Remaining(resting)));
    }
  }

  /** A BUY order that has paid exactly its cap. */
  predicate Exhausted(o: OrderData) {
    o.action == ACTION_BUY && o.collateralFilled >= o.cap
  }

  lemma ExhaustedNeverTrades(incoming: Order, resting: Order)
    requires Exhausted(incoming) || Exhausted(resting)
    ensures Attempt(incoming, resting).None?
  {
    if Attempt(incoming, resting).Some? {
      var m := Attempt(incoming, resting).value;
      MaxFillIsMaximal(m.bid, m.ask, m.price, Min(Remaining(incoming), Remaining(resting)));
    }
  }

  /** A fill smaller than both remainders was cut by a cap, and leaves that BUY order's
      collateral exactly at its cap. */
  lemma CutReachesCap(m: Match)
    requires Settleable(m) && LargestFill(m)
    requires m.shares < Remaining(m.bid) && m.shares < Remaining(m.ask)
    ensures exists p :: p in {m.bid, m.ask} && Fits(p, m)
              && p.action == ACTION_BUY && After(p, m).collateralFilled == p.cap
  {
    YesLegStep(m.shares, m.price);
    assert !Admissible(m.bid, m.ask, m.price, m.shares + 1);
    assert m.bid in {m.bid, m.ask} && m.ask in {m.bid, m.ask};
  }

  /** After a fill, one of the two orders is done or the pair can trade no further. */
  lemma FillSettlesThePair(incoming: Order, resting: Order)
    requires IsBid(incoming) != IsBid(resting) && Fillable(incoming, resting)
    ensures var m := Attempt(incoming, resting).value;
            && Settleable(m)
            && (Remaining(After(incoming, m)) == 0 || Remaining(After(resting, m)) == 0
                || Attempt(After(incoming, m), After(resting, m)).None?)
  {
    MatchIsSettleable(incoming, resting);
    var m := Attempt(incoming, resting).value;
    if m.shares < Remaining(incoming) && m.shares < Remaining(resting) {
      MatchIsLargest(incoming, resting);
      CutReachesCap(m);
      ExhaustedNeverTrades(After(incoming, m), After(resting, m));
    }
  }
}
