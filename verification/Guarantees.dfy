/** What a run guarantees each trader and the collateral pool: prices no worse than the
    limit up to rounding, caps and quantities respected, and collateral conserved. */
module Guarantees {
  import opened Orders
  import opened Fills
  import opened PriceTime
  import opened Pairing
  import opened Matching
  import opened Quiescence
  import opened Ledger
  import opened Runs

  // ----- the limit price, cumulatively

  /** Compared in millionths of a unit, so that no rounding hides in the statement: what the
      order's tally may be when every fill was at its limit or better. */
  predicate AtLimitOrBetter(o: OrderData, t: Tally) {
    if o.side == SIDE_YES then
      if o.action == ACTION_BUY then
        t.collateral * PRICE_SCALE <= t.shares * o.limit
      else
        t.collateral * PRICE_SCALE >= t.shares * o.limit - t.fills * (PRICE_SCALE - 1)
    else
      if IsBid(o) then
        t.collateral * PRICE_SCALE >= t.shares * (PRICE_SCALE - o.limit)
      else
        t.collateral * PRICE_SCALE <= t.shares * (PRICE_SCALE - o.limit) + t.fills * (PRICE_SCALE - 1)
  }

  lemma OneMatchAtLimit(m: Match, o: OrderData)
    requires Settleable(m)
    requires (o.arrival == m.bid.arrival && Terms(o) == Terms(m.bid))
          || (o.arrival == m.ask.arrival && o.arrival != m.bid.arrival && Terms(o) == Terms(m.ask))
    ensures AtLimitOrBetter(o, One(m, o.arrival))
  {
    YesLegBounds(m.shares, m.price);
    ProductOrder(m.shares, m.price, o.limit);
    assert m.shares * (PRICE_SCALE - o.limit) == m.shares * PRICE_SCALE - m.shares * o.limit;
  }

  lemma ProductOrder(shares: nat, price: nat, limit: nat)
    ensures price <= limit ==> shares * price <= shares * limit
    ensures limit <= price ==> shares * limit <= shares * price
  {
  }

  function Terms(o: OrderData): (nat, nat, nat, nat, nat) {
    (o.side, o.action, o.limit, o.qty, o.cap)
  }

  lemma LimitsAdd(o: OrderData, a: Tally, b: Tally)
    requires AtLimitOrBetter(o, a) && AtLimitOrBetter(o, b)
    ensures AtLimitOrBetter(o, Plus(a, b))
  {
    assert (a.shares + b.shares) * o.limit == a.shares * o.limit + b.shares * o.limit;
    var c := PRICE_SCALE - o.limit;
    assert (a.shares + b.shares) * c == a.shares * c + b.shares * c;
  }

  /** Every match that touches the order's stamp carries the order's own terms. */
  predicate TermsKept(o: OrderData, log: seq<Match>) {
    forall m :: m in log ==>
      && (m.bid.arrival == o.arrival ==> Terms(m.bid) == Terms(o))
      && (m.ask.arrival == o.arrival ==> Terms(m.ask) == Terms(o))
  }

  lemma {:induction false} TallyAtLimit(o: OrderData, log: seq<Match>)
    requires TermsKept(o, log) && forall m :: m in log ==> Settleable(m)
    ensures AtLimitOrBetter(o, TallyOf(log, o.arrival))
  {
    hide FitsU64, Settleable, Plus, One, AtLimitOrBetter, Terms;
    if log == [] {
      NothingAtLimit(o);
    } else {
      assert log[0] in log;
      assert forall m :: m in log[1..] ==> m in log;
      TallyAtLimit(o, log[1..]);
      if Involves(log[0], o.arrival) {
        OneMatchAtLimit(log[0], o);
      } else {
        UntouchedOne(log[0], o.arrival);
        NothingAtLimit(o);
      }
      LimitsAdd(o, One(log[0], o.arrival), TallyOf(log[1..], o.arrival));
    }
  }

  lemma NothingAtLimit(o: OrderData)
    ensures AtLimitOrBetter(o, NOTHING)
  {
  }

  lemma TracedTerms(placed: seq<Order>, o: Order, p: Order, log: seq<Match>)
    requires Stamped(placed) && o in placed && Traced(p, placed, log) && p.arrival == o.arrival
    ensures Terms(p) == Terms(o) && Advanced(o, p, log)
  {
    hide FitsU64, TallyOf;
    var start :| start in placed && Advanced(start, p, log);
  }

  lemma PlacedTermsKept(ops: seq<Op>, o: Order)
    requires Stamped(Placed(ops)) && o in Placed(ops)
    ensures TermsKept(o, Run(ops).log)
  {
    hide FitsU64, TallyOf, Settleable, Inv, Traced, Stamped, Placed, Run, Terms;
    RunAccounted(ops);
    var log := Run(ops).log;
    forall k | 0 <= k < |log|
      ensures log[k].bid.arrival == o.arrival ==> Terms(log[k].bid) == Terms(o)
      ensures log[k].ask.arrival == o.arrival ==> Terms(log[k].ask) == Terms(o)
    {
      if log[k].bid.arrival == o.arrival { TracedTerms(Placed(ops), o, log[k].bid, log[..k]); }
      if log[k].ask.arrival == o.arrival { TracedTerms(Placed(ops), o, log[k].ask, log[..k]); }
    }
  }

  /** The cumulative price guarantee, for every order of every run and whatever fill state it
      was placed with. Over its n fills: BUY YES pays at most its limit price, SELL NO
      receives at least it; BUY NO pays and SELL YES receives within n units of it. */
  lemma PriceGuarantee(ops: seq<Op>, o: Order)
    requires Stamped(Placed(ops)) && o in Placed(ops)
    ensures var t := TallyOf(Run(ops).log, o.arrival);
            && AtLimitOrBetter(o, t)
            && (o.side == SIDE_YES && o.action == ACTION_BUY ==> t.collateral <= t.shares * o.limit / PRICE_SCALE)
            && (o.side == SIDE_YES && o.action == ACTION_SELL && t.fills > 0 ==>
                  (t.collateral + t.fills) * PRICE_SCALE > t.shares * o.limit)
            && (o.side == SIDE_NO && o.action == ACTION_SELL ==>
                  t.collateral * PRICE_SCALE >= t.shares * (PRICE_SCALE - o.limit))
            && (o.side == SIDE_NO && o.action == ACTION_BUY && t.fills > 0 ==>
                  t.collateral * PRICE_SCALE < t.shares * (PRICE_SCALE - o.limit) + t.fills * PRICE_SCALE)
  {
    hide FitsU64, TallyOf, Settleable, Inv, Chained, Run, Stamped;
    RunAccounted(ops);
    PlacedTermsKept(ops, o);
    TallyAtLimit(o, Run(ops).log);
  }

  /** A state the order passes through: its state before the log's `k`-th match of it, or its
      resting state at the end. */
  ghost predicate StateAt(h: History, k: nat, p: Order) {
    (k < |h.log| && p in {h.log[k].bid, h.log[k].ask}) || (k == |h.log| && p in h.book.Orders())
  }

  /** The documented choice of cap works, for every fill the order makes, incoming or resting.
      A BUY YES cap that covers the quantity at the limit never cuts a fill; a BUY NO cap with
      `slack` units on top does not cut the first `slack` fills. Stated, at every state the
      order passes through, for any fill it could make at an allowed price. */
  lemma CapAdvice(ops: seq<Op>, o: Order, k: nat, p: Order, fill: nat, price: nat, slack: nat)
    requires Stamped(Placed(ops)) && o in Placed(ops)
    requires StateAt(Run(ops), k, p) && p.arrival == o.arrival
    requires o.sharesFilled == 0 && o.collateralFilled == 0 && o.action == ACTION_BUY
    requires fill <= Remaining(p) && UsablePrice(price)
    requires o.side == SIDE_YES ==>
               price <= o.limit && o.cap * PRICE_SCALE >= o.qty * o.limit
    requires o.side != SIDE_YES ==>
               && o.limit <= price && o.limit <= PRICE_SCALE
               && o.cap * PRICE_SCALE >= o.qty * (PRICE_SCALE - o.limit) + slack * PRICE_SCALE
               && TallyOf(Run(ops).log[..k], o.arrival).fills < slack
    ensures YesLeg(fill, price) <= fill && WithinCap(p, YesLeg(fill, price), fill - YesLeg(fill, price))
  {
    hide FitsU64, TallyOf, Quiet, Run, Stamped, Placed, AtLimitOrBetter, YesLeg, TermsKept;
    RunAccounted(ops);
    var log := Run(ops).log;
    assert log[..|log|] == log;
    if k < |log| { assert log[k] in log; }
    TracedTerms(Placed(ops), o, p, log[..k]);
    PlacedTermsKept(ops, o);
    TermsKeptBefore(o, log, k);
    assert forall m :: m in log[..k] ==> m in log;
    TallyAtLimit(o, log[..k]);
    RemainingAt(Run(ops), k, p);
    CapCovers(o, TallyOf(log[..k], o.arrival), fill, price, slack);
  }

  lemma TermsKeptBefore(o: Order, log: seq<Match>, k: nat)
    requires TermsKept(o, log) && k <= |log|
    ensures TermsKept(o, log[..k])
  {
    hide FitsU64;
    assert forall m :: m in log[..k] ==> m in log;
  }

  lemma RemainingAt(h: History, k: nat, p: Order)
    requires StateAt(h, k, p) && Inv(h.book) && forall m :: m in h.log ==> Settleable(m)
    ensures Remaining(p) > 0
  {
    hide FitsU64, YesLeg, Quiet;
    if k < |h.log| { assert h.log[k] in h.log; }
  }

  /** At such a cap, no match of the log was cut by this order: if it left shares of both
      orders, it is the other order that is at its cap. */
  lemma CapAdviceNeverCuts(ops: seq<Op>, o: Order, k: nat, p: Order, slack: nat)
    requires Stamped(Placed(ops)) && o in Placed(ops) && k < |Run(ops).log|
    requires p in {Run(ops).log[k].bid, Run(ops).log[k].ask} && p.arrival == o.arrival
    requires o.sharesFilled == 0 && o.collateralFilled == 0 && o.action == ACTION_BUY
    requires o.side == SIDE_YES ==> o.cap * PRICE_SCALE >= o.qty * o.limit
    requires o.side != SIDE_YES ==>
               && o.limit <= PRICE_SCALE
               && o.cap * PRICE_SCALE >= o.qty * (PRICE_SCALE - o.limit) + slack * PRICE_SCALE
               && TallyOf(Run(ops).log[..k], o.arrival).fills < slack
    ensures var m := Run(ops).log[k];
            Fits(p, m) && (m.shares < Remaining(m.bid) && m.shares < Remaining(m.ask) ==>
              exists q :: q in {m.bid, m.ask} && q != p && Fits(q, m)
                && q.action == ACTION_BUY && After(q, m).collateralFilled == q.cap)
  {
    hide FitsU64, TallyOf, Inv, Run, Stamped, Placed, Chained, Traced;
    RunAccounted(ops);
    var m := Run(ops).log[k];
    assert m in Run(ops).log;
    TracedMatchTerms(ops, o, k, p);
    if m.shares < Remaining(m.bid) && m.shares < Remaining(m.ask) {
      CapAdvice(ops, o, k, p, m.shares + 1, m.price, slack);
      OtherIsCut(m, p);
    }
  }

  lemma TracedMatchTerms(ops: seq<Op>, o: Order, k: nat, p: Order)
    requires Stamped(Placed(ops)) && o in Placed(ops) && k < |Run(ops).log|
    requires p in {Run(ops).log[k].bid, Run(ops).log[k].ask} && p.arrival == o.arrival
    ensures Terms(p) == Terms(o)
  {
    hide FitsU64, TallyOf, Inv, Run, Stamped, Placed, Settleable;
    RunAccounted(ops);
    TracedTerms(Placed(ops), o, p, Run(ops).log[..k]);
  }

  lemma OtherIsCut(m: Match, p: Order)
    requires Settleable(m) && LargestFill(m) && p in {m.bid, m.ask}
    requires m.shares < Remaining(m.bid) && m.shares < Remaining(m.ask)
    requires YesLeg(m.shares + 1, m.price) <= m.shares + 1
    requires WithinCap(p, YesLeg(m.shares + 1, m.price), m.shares + 1 - YesLeg(m.shares + 1, m.price))
    ensures exists q :: q in {m.bid, m.ask} && q != p && Fits(q, m)
              && q.action == ACTION_BUY && After(q, m).collateralFilled == q.cap
  {
    YesLegStep(m.shares, m.price);
    var q := if p == m.bid then m.ask else m.bid;
    assert !Admissible(m.bid, m.ask, m.price, m.shares + 1);
    assert q in {m.bid, m.ask} && q != p;
  }

  lemma CapCovers(o: Order, t: Tally, fill: nat, price: nat, slack: nat)
    requires AtLimitOrBetter(o, t) && t.shares + fill <= o.qty
    requires o.action == ACTION_BUY && UsablePrice(price)
    requires o.side == SIDE_YES ==> price <= o.limit && o.cap * PRICE_SCALE >= o.qty * o.limit
    requires o.side != SIDE_YES ==>
               && o.limit <= price && o.limit <= PRICE_SCALE && t.fills < slack
               && o.cap * PRICE_SCALE >= o.qty * (PRICE_SCALE - o.limit) + slack * PRICE_SCALE
    ensures YesLeg(fill, price) <= fill
    ensures t.collateral + LegCollateral(o, YesLeg(fill, price), fill - YesLeg(fill, price)) <= o.cap
  {
    YesLegBounds(fill, price);
    ProductOrder(fill, price, o.limit);
    var c := if o.side == SIDE_YES then o.limit else PRICE_SCALE - o.limit;
    CommonFactor(t.shares, fill, o.qty, c);
    assert fill * (PRICE_SCALE - o.limit) == fill * PRICE_SCALE - fill * o.limit;
  }

  lemma CommonFactor(a: nat, b: nat, most: nat, c: nat)
    requires a + b <= most
    ensures a * c + b * c <= most * c
  {
    assert a * c + b * c == (a + b) * c;
  }

  // ----- collateral

  function Signed(o: OrderData, collateral: int): int {
    if o.action == ACTION_BUY then collateral else -collateral
  }

  function MintedShares(log: seq<Match>): nat {
    if log == [] then 0
    else (if log[0].bid.action == ACTION_BUY && log[0].ask.action == ACTION_BUY then log[0].shares else 0)
         + MintedShares(log[1..])
  }

  function MergedShares(log: seq<Match>): nat {
    if log == [] then 0
    else (if log[0].bid.action != ACTION_BUY && log[0].ask.action != ACTION_BUY then log[0].shares else 0)
         + MergedShares(log[1..])
  }

  /** Every placed order's own account: what BUY orders paid less what SELL orders received. */
  function NetPaid(placed: seq<Order>, log: seq<Match>): int {
    if placed == [] then 0
    else Signed(placed[0], TallyOf(log, placed[0].arrival).collateral) + NetPaid(placed[1..], log)
  }

  /** An order whose collateral balances against any counterparty: every bid, and an ask that is
      on the YES side or buys. Only undocumented side or action codes can make any other. */
  predicate Paired(o: OrderData) {
    IsBid(o) || o.side == SIDE_YES || o.action == ACTION_BUY
  }

  /** What the matches with an unpaired ask leave over: both sides take or give the same leg. */
  function Imbalance(log: seq<Match>): int {
    if log == [] then 0
    else (if Paired(log[0].ask) then 0 else log[0].yes - log[0].no) + Imbalance(log[1..])
  }

  /** Per match: collateral is conserved up to the imbalance, whatever the codes; so it is
      conserved exactly when the ask is paired or the two legs happen to be equal. */
  lemma MatchConserves(m: Match)
    requires Settleable(m)
    ensures Signed(m.bid, BidLeg(m)) + Signed(m.ask, AskLeg(m))
         == MintedShares([m]) - MergedShares([m]) + Imbalance([m])
    ensures Imbalance([m]) == 0 <==> Paired(m.ask) || m.yes == m.no
    ensures m.ask.side <= 1 && m.ask.action <= 1 ==> Paired(m.ask)
  {
    assert [m][1..] == [];
  }

  lemma {:induction false} NetPaidStep(placed: seq<Order>, m: Match, log: seq<Match>)
    ensures NetPaid(placed, [m] + log) == NetPaid(placed, [m]) + NetPaid(placed, log)
  {
    hide FitsU64, One, TallyOf;
    if placed != [] {
      TallyAppend([m], log, placed[0].arrival);
      NetPaidStep(placed[1..], m, log);
    }
  }

  predicate Has(placed: seq<Order>, id: nat) {
    exists o :: o in placed && o.arrival == id
  }

  lemma NoneHas(m: Match)
    ensures !Has([], m.bid.arrival) && !Has([], m.ask.arrival)
  {
  }

  lemma HasStep(placed: seq<Order>, id: nat)
    requires placed != [] && Stamped(placed)
    ensures Has(placed, id) <==> placed[0].arrival == id || Has(placed[1..], id)
    ensures placed[0].arrival == id ==> !Has(placed[1..], id)
    ensures Stamped(placed[1..])
  {
    hide FitsU64;
    assert placed == [placed[0]] + placed[1..];
    forall o | o in placed[1..] ensures o.arrival != placed[0].arrival {
      var i :| 0 <= i < |placed[1..]| && placed[1..][i] == o;
      assert placed[i + 1] == o;
    }
  }

  lemma {:induction false} NetPaidOne(placed: seq<Order>, m: Match)
    requires Stamped(placed) && m.bid.arrival != m.ask.arrival
    requires forall o :: o in placed ==> TermsKept(o, [m])
    ensures NetPaid(placed, [m]) ==
            (if Has(placed, m.bid.arrival) then Signed(m.bid, BidLeg(m)) else 0)
            + (if Has(placed, m.ask.arrival) then Signed(m.ask, AskLeg(m)) else 0)
  {
    hide FitsU64, LegCollateral, TallyOf, Has, Stamped, BidLeg, AskLeg, TermsKept;
    if placed == [] {
      NoneHas(m);
    } else {
      HasStep(placed, m.bid.arrival);
      HasStep(placed, m.ask.arrival);
      NetPaidOne(placed[1..], m);
      TallyOfOne(m, placed[0].arrival);
      SameAction(placed[0], m);
    }
  }

  lemma SameAction(o: Order, m: Match)
    requires TermsKept(o, [m])
    ensures m.bid.arrival == o.arrival ==> m.bid.action == o.action
    ensures m.ask.arrival == o.arrival ==> m.ask.action == o.action
  {
    assert m in [m];
  }

  lemma {:induction false} LogConserves(placed: seq<Order>, log: seq<Match>)
    requires Stamped(placed)
    requires forall o :: o in placed ==> TermsKept(o, log)
    requires forall m :: m in log ==>
               && Settleable(m) && m.bid.arrival != m.ask.arrival
               && Has(placed, m.bid.arrival) && Has(placed, m.ask.arrival)
    ensures NetPaid(placed, log) == MintedShares(log) - MergedShares(log) + Imbalance(log)
  {
    hide FitsU64, LegCollateral, TallyOf, Settleable, Signed, Has, Paired;
    if log == [] {
      NetPaidNothing(placed);
    } else {
      var m, rest := log[0], log[1..];
      assert log == [m] + rest && m in log && [m][1..] == [];
      assert forall x :: x in rest || x in [m] ==> x in log;
      LogConserves(placed, rest);
      NetPaidStep(placed, m, rest);
      NetPaidOne(placed, m);
      MatchConserves(m);
    }
  }

  lemma {:induction false} NetPaidNothing(placed: seq<Order>)
    ensures NetPaid(placed, []) == 0
  {
    if placed != [] { NetPaidNothing(placed[1..]); }
  }

  /** The book as a ledger: over every run and for any codes, net collateral paid in, summed
      over the placed orders' own accounts, is shares minted less shares merged, plus the
      imbalance of the matches with an unpaired ask. It is conserved if and only if these
      cancel out, in particular whenever every placed order is paired. */
  lemma CollateralConserved(ops: seq<Op>)
    requires Stamped(Placed(ops))
    ensures var log := Run(ops).log;
            && NetPaid(Placed(ops), log) == MintedShares(log) - MergedShares(log) + Imbalance(log)
            && ((forall o :: o in Placed(ops) ==> Paired(o)) ==> Imbalance(log) == 0)
  {
    hide FitsU64, TallyOf, Settleable, Inv, Run, Placed, Stamped, Imbalance;
    RunAccounted(ops);
    var placed, log := Placed(ops), Run(ops).log;
    forall k | 0 <= k < |log|
      ensures log[k].bid.arrival != log[k].ask.arrival
      ensures Has(placed, log[k].bid.arrival) && Has(placed, log[k].ask.arrival)
    {
      assert log[k] in log;
      SettledParties(placed, log, k);
      assert Traced(log[k].bid, placed, log[..k]) && Traced(log[k].ask, placed, log[..k]);
    }
    forall o | o in placed ensures TermsKept(o, log) { PlacedTermsKept(ops, o); }
    LogConserves(placed, log);
    if forall o :: o in placed ==> Paired(o) {
      forall k | 0 <= k < |log| ensures Paired(log[k].ask) {
        assert Traced(log[k].ask, placed, log[..k]);
      }
      NoImbalance(log);
    }
  }

  lemma {:induction false} NoImbalance(log: seq<Match>)
    requires forall k :: 0 <= k < |log| ==> Paired(log[k].ask)
    ensures Imbalance(log) == 0
  {
    if log != [] { NoImbalance(log[1..]); }
  }

  // ----- safety, and orders that are finished

  /** Where the log's first `k` matches have taken a placed order. */
  predicate Within(start: OrderData, t: Tally) {
    && start.collateralFilled + t.collateral <= start.sharesFilled + t.shares <= start.qty
    && (start.action == ACTION_BUY ==> start.collateralFilled + t.collateral <= start.cap)
  }

  /** A placed order's fill state never leaves its bounds, at any point of the log. */
  lemma {:induction false} BoundsHold(ops: seq<Op>, start: Order, k: nat)
    requires Stamped(Placed(ops)) && start in Placed(ops) && Consistent(start)
    requires k <= |Run(ops).log|
    ensures Within(start, TallyOf(Run(ops).log[..k], start.arrival))
  {
    hide FitsU64, TallyOf, Settleable, Inv, Run, Stamped, Placed, Within, One;
    var log, id := Run(ops).log, start.arrival;
    if k == 0 {
      NothingIsWithin(start);
      UntouchedTally(log[..0], id);
    } else {
      BoundsHold(ops, start, k - 1);
      RunAccounted(ops);
      var m := log[k - 1];
      assert m in log && log[..k] == log[..k - 1] + [m];
      TallyAppend(log[..k - 1], [m], id);
      TallyOfOne(m, id);
      SettledParties(Placed(ops), log, k - 1);
      if m.bid.arrival == id { TracedTerms(Placed(ops), start, m.bid, log[..k - 1]); }
      if m.ask.arrival == id { TracedTerms(Placed(ops), start, m.ask, log[..k - 1]); }
      WithinStep(start, m, TallyOf(log[..k - 1], id));
    }
  }

  /** So every resting order, and both parties of every match before and after it, are in
      bounds: collateral <= shares filled <= quantity, and a BUY within its cap. */
  lemma EveryStateConsistent(ops: seq<Op>)
    requires Stamped(Placed(ops)) && forall o :: o in Placed(ops) ==> Consistent(o)
    ensures forall o :: o in Run(ops).book.Orders() ==> Consistent(o) && o.sharesFilled < o.qty
    ensures forall k, p :: 0 <= k < |Run(ops).log| && p in {Run(ops).log[k].bid, Run(ops).log[k].ask} ==>
              Consistent(p) && Fits(p, Run(ops).log[k]) && Consistent(After(p, Run(ops).log[k]))
  {
    hide FitsU64, TallyOf, Quiet, Run, Stamped, Placed, LegCollateral, Settleable;
    RunAccounted(ops);
    var log := Run(ops).log;
    forall o | o in Run(ops).book.Orders() ensures Consistent(o) && o.sharesFilled < o.qty {
      var start :| start in Placed(ops) && Advanced(start, o, log);
      BoundsHold(ops, start, |log|);
      assert log[..|log|] == log && Remaining(o) > 0;
    }
    forall k, p | 0 <= k < |log| && p in {log[k].bid, log[k].ask}
      ensures Consistent(p) && Fits(p, log[k]) && Consistent(After(p, log[k]))
    {
      assert log[k] in log && Traced(p, Placed(ops), log[..k]);
      var start :| start in Placed(ops) && Advanced(start, p, log[..k]);
      BoundsHold(ops, start, k);
      ConsistentAfter(p, log[k]);
    }
  }

  lemma ConsistentAfter(p: Order, m: Match)
    requires Consistent(p) && Settleable(m) && p in {m.bid, m.ask}
    ensures Fits(p, m) && Consistent(After(p, m))
  {
    hide YesLeg;
  }

  lemma NothingIsWithin(start: Order)
    requires Consistent(start)
    ensures Within(start, NOTHING)
  {
  }

  lemma WithinStep(start: Order, m: Match, t: Tally)
    requires Within(start, t) && Settleable(m) && m.bid.arrival != m.ask.arrival
    requires m.bid.arrival == start.arrival ==>
               && Terms(m.bid) == Terms(start)
               && m.bid.sharesFilled == start.sharesFilled + t.shares
               && m.bid.collateralFilled == start.collateralFilled + t.collateral
    requires m.ask.arrival == start.arrival ==>
               && Terms(m.ask) == Terms(start)
               && m.ask.sharesFilled == start.sharesFilled + t.shares
               && m.ask.collateralFilled == start.collateralFilled + t.collateral
    ensures Within(start, Plus(t, One(m, start.arrival)))
  {
    hide YesLeg;
  }

  /** Once a BUY order has paid its cap, no later match of the run involves it. */
  lemma ExhaustedIsFinal(ops: seq<Op>, k: nat, l: nat, p: Order)
    requires Stamped(Placed(ops)) && k < l < |Run(ops).log|
    requires p in {Run(ops).log[k].bid, Run(ops).log[k].ask}
    requires Fits(p, Run(ops).log[k]) && Exhausted(After(p, Run(ops).log[k]))
    ensures !Involves(Run(ops).log[l], p.arrival)
  {
    hide FitsU64, TallyOf, Inv, Run, Stamped, Placed, Chained, LegCollateral;
    RunAccounted(ops);
    var log := Run(ops).log;
    assert log[k] in log && log[l] in log;
    if Involves(log[l], p.arrival) {
      var q := if log[l].bid.arrival == p.arrival then log[l].bid else log[l].ask;
      StateOnlyGrows(ops, k, l, p, q);
      LegIsPositive(log[l], q);
    }
  }

  lemma LegIsPositive(m: Match, q: Order)
    requires Settleable(m) && q in {m.bid, m.ask}
    ensures q.action == ACTION_BUY ==> q.collateralFilled < q.cap
  {
    hide YesLeg, FitsU64;
  }

  /** Later matches carry at least the state an earlier match left the order in. */
  lemma StateOnlyGrows(ops: seq<Op>, k: nat, l: nat, p: Order, q: Order)
    requires Stamped(Placed(ops)) && k < l < |Run(ops).log|
    requires p in {Run(ops).log[k].bid, Run(ops).log[k].ask} && q in {Run(ops).log[l].bid, Run(ops).log[l].ask}
    requires p.arrival == q.arrival
    ensures Fits(p, Run(ops).log[k]) && Grew(After(p, Run(ops).log[k]), q)
  {
    hide FitsU64, TallyOf, Inv, Run, Stamped, Placed, LegCollateral, Plus;
    RunAccounted(ops);
    var log := Run(ops).log;
    var m := log[k];
    assert m in log;
    SettledParties(Placed(ops), log, k);
    SameStampSameOrder(Placed(ops), p, q, log[..k], log[..l]);
    assert log[..l] == log[..k + 1] + log[k + 1..l] && log[k + 1..k + 1] == [];
    TallyAppend(log[..k + 1], log[k + 1..l], p.arrival);
    TallyUpTo(log, k, k + 1, p.arrival);
    PlusGrows(TallyOf(log[..k], p.arrival), One(m, p.arrival), TallyOf(log[k + 1..l], p.arrival));
  }

  lemma PlusGrows(a: Tally, b: Tally, c: Tally)
    ensures var t := Plus(Plus(a, b), c);
            t.shares >= a.shares + b.shares && t.collateral >= a.collateral + b.collateral
  {
  }

  /** A fill smaller than both remainders leaves one of the two BUY orders exactly at its
      cap, and that order trades no more for the rest of the run. */
  lemma CapCutIsFinal(ops: seq<Op>, k: nat)
    requires Stamped(Placed(ops)) && k < |Run(ops).log|
    requires var m := Run(ops).log[k];
             m.shares < Remaining(m.bid) && m.shares < Remaining(m.ask)
    ensures var m := Run(ops).log[k];
            exists p :: p in {m.bid, m.ask} && Fits(p, m)
              && p.action == ACTION_BUY && After(p, m).collateralFilled == p.cap
              && forall l :: k < l < |Run(ops).log| ==> !Involves(Run(ops).log[l], p.arrival)
  {
    hide FitsU64, TallyOf, Inv, Run, Stamped, Placed, Chained, LegCollateral, YesLeg, Admissible;
    RunAccounted(ops);
    var m := Run(ops).log[k];
    assert m in Run(ops).log;
    CutReachesCap(m);
    var p :| p in {m.bid, m.ask} && Fits(p, m) && p.action == ACTION_BUY && After(p, m).collateralFilled == p.cap;
    forall l | k < l < |Run(ops).log| ensures !Involves(Run(ops).log[l], p.arrival) {
      ExhaustedIsFinal(ops, k, l, p);
    }
  }

  ghost predicate StandsIn(b: BookState, id: nat) {
    exists o :: o in b.Orders() && o.arrival == id
  }

  /** A placed order that has left the book - filled, cancelled, expired or never rested -
      does not come back, and no later match involves it. */
  lemma {:induction false} NoReturn(ops: seq<Op>, more: seq<Op>, o: Order)
    requires Stamped(Placed(ops + more)) && o in Placed(ops)
    requires !StandsIn(Run(ops).book, o.arrival)
    ensures !StandsIn(Run(ops + more).book, o.arrival)
    ensures |Run(ops).log| <= |Run(ops + more).log|
    ensures Untouched(Run(ops + more).log[|Run(ops).log|..], o.arrival)
  {
    hide FitsU64, TallyOf, Apply, Accounted, StandsIn, Involves;
    if more == [] {
      assert ops + more == ops;
    } else {
      var n := |more| - 1;
      assert (ops + more)[..|ops + more| - 1] == ops + more[..n];
      var before := ops + more[..n];
      StampedPrefix(before, more[n]);
      NoReturn(ops, more[..n], o);
      PlacedGrows(ops, more[..n]);
      RunAccounted(before);
      ApplyNoReturn(Placed(before), Run(before), more[n], o);
    }
  }

  lemma StampedPrefix(ops: seq<Op>, op: Op)
    requires Stamped(Placed(ops + [op]))
    ensures Stamped(Placed(ops))
  {
    hide FitsU64;
    assert (ops + [op])[..|ops|] == ops;
    assert forall i :: 0 <= i < |Placed(ops)| ==> Placed(ops + [op])[i] == Placed(ops)[i];
  }

  lemma {:induction false} PlacedGrows(ops: seq<Op>, more: seq<Op>)
    ensures forall o :: o in Placed(ops) ==> o in Placed(ops + more)
  {
    hide FitsU64;
    if more == [] {
      assert ops + more == ops;
    } else {
      var n := |more| - 1;
      assert (ops + more)[..|ops + more| - 1] == ops + more[..n];
      PlacedGrows(ops, more[..n]);
    }
  }

  lemma ApplyNoReturn(placed: seq<Order>, h: History, op: Op, o: Order)
    requires Accounted(placed, h) && o in placed && !StandsIn(h.book, o.arrival)
    requires Stamped(placed + if op.Add? then [op.order] else [])
    ensures !StandsIn(Apply(h, op).book, o.arrival)
    ensures h.log <= Apply(h, op).log && Untouched(Apply(h, op).log[|h.log|..], o.arrival)
  {
    hide FitsU64, TallyOf, Walk, BestFirst, Settleable, Quiet, Involves;
    if op.Remove? {
      RemoveKeepsInv(h.book, op.txId);
    } else {
      var x := op.order;
      assert (placed + [x])[|placed|] == x && forall i :: 0 <= i < |placed| ==> (placed + [x])[i] == placed[i];
      var side := h.book.Side(!IsBid(x));
      assert forall r :: r in side || r in h.book.Side(IsBid(x)) ==> r in h.book.Orders();
      MemberOfSorted(!IsBid(x), side);
      WalkInvolvesOnly(x, BestFirst(!IsBid(x), side), op.now, o.arrival);
      WalkOfKeeps(h.book, x, op.now);
      var more := AddTo(h.book, x, op.now).matches;
      assert (h.log + more)[|h.log|..] == more;
    }
  }
}
