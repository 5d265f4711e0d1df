/** Runs of one book: any sequence of adds and removes from the empty book, and the log of
    every match they make. */
module Runs {
  import opened Orders
  import opened Fills
  import opened PriceTime
  import opened Pairing
  import opened Matching
  import opened Quiescence
  import opened Ledger

  datatype Op = Add(order: Order, now: Seconds) | Remove(txId: string)

  datatype History = History(book: BookState, log: seq<Match>)

  function Apply(h: History, op: Op): History {
    match op
    case Add(order, now) =>
      var out := AddTo(h.book, order, now);
      History(out.book, h.log + out.matches)
    case Remove(txId) =>
      History(RemoveFrom(h.book, txId), h.log)
  }

  function Run(ops: seq<Op>): History {
    if ops == [] then History(EMPTY_BOOK, [])
    else Apply(Run(ops[..|ops| - 1]), ops[|ops| - 1])
  }

  /** The orders the run placed, in the order it placed them. */
  function Placed(ops: seq<Op>): seq<Order> {
    if ops == [] then []
    else
      var op := ops[|ops| - 1];
      Placed(ops[..|ops| - 1]) + if op.Add? then [op.order] else []
  }

  lemma OneMoreOp(ops: seq<Op>, op: Op)
    ensures Run(ops + [op]) == Apply(Run(ops), op)
    ensures Placed(ops + [op]) == Placed(ops) + if op.Add? then [op.order] else []
  {
    hide Apply, FitsU64;
    assert (ops + [op])[..|ops|] == ops;
  }

  /** The matches of one more add. */
  function FillsAdded(ops: seq<Op>, order: Order, now: Seconds): seq<Match> {
    var log, log' := Run(ops).log, Run(ops + [Add(order, now)]).log;
    if |log| <= |log'| then log'[|log|..] else []
  }

  lemma AddedFills(ops: seq<Op>, order: Order, now: Seconds)
    ensures FillsAdded(ops, order, now) == AddTo(Run(ops).book, order, now).matches
  {
    hide FitsU64, AddTo, Run;
    OneMoreOp(ops, Add(order, now));
  }

  /** The arrival stamps number the placements in the order they happen. */
  predicate Stamped(placed: seq<Order>) {
    forall i, j :: 0 <= i < j < |placed| ==> placed[i].arrival < placed[j].arrival
  }

  /** What holds at every moment of a run: the book is ordered and quiet, the log accounts
      for the fill state of every resting order and of both parties of every match, and
      every match is one the contract settles, as large as it can be. */
  ghost predicate Accounted(placed: seq<Order>, h: History) {
    && Inv(h.book)
    && (forall o :: o in h.book.Orders() ==> Traced(o, placed, h.log))
    && Chained(placed, h.log)
    && (forall m :: m in h.log ==> Settleable(m) && LargestFill(m))
  }

  lemma SameStampSameOrder(placed: seq<Order>, a: Order, b: Order, log: seq<Match>, log': seq<Match>)
    requires Stamped(placed) && Traced(a, placed, log) && Traced(b, placed, log') && a.arrival == b.arrival
    ensures exists start :: start in placed && Advanced(start, a, log) && Advanced(start, b, log')
    ensures a == b.(sharesFilled := a.sharesFilled, collateralFilled := a.collateralFilled)
  {
    hide FitsU64, TallyOf;
    var p :| p in placed && Advanced(p, a, log);
    var q :| q in placed && Advanced(q, b, log');
    assert p == q;
  }

  lemma EarlierThanNew(placed: seq<Order>, h: History, x: Order)
    requires Accounted(placed, h) && Stamped(placed + [x])
    ensures PlacedBefore(h.book.Orders(), x.arrival)
    ensures Untouched(h.log, x.arrival)
  {
    hide FitsU64, TallyOf, Inv, Settleable;
    assert forall i :: 0 <= i < |placed| ==> (placed + [x])[i] == placed[i];
    assert (placed + [x])[|placed|] == x;
    assert forall start :: start in placed ==> start.arrival < x.arrival;
  }

  /** Price-time order and one order per stamp: the sorted side never repeats a stamp. */
  lemma SortedSideHasStamps(placed: seq<Order>, h: History, x: Order)
    requires Accounted(placed, h) && Stamped(placed + [x])
    ensures Stamped(placed)
    ensures Stamps(x, BestFirst(!IsBid(x), h.book.Side(!IsBid(x))))
  {
    hide FitsU64, TallyOf, BestFirst, Quiet, Settleable;
    assert forall i :: 0 <= i < |placed| ==> (placed + [x])[i] == placed[i];
    EarlierThanNew(placed, h, x);
    var side := h.book.Side(!IsBid(x));
    assert forall o :: o in side ==> o in h.book.Orders();
    BestFirstIsPriceTime(!IsBid(x), side);
    var sorted := BestFirst(!IsBid(x), side);
    forall i, j | 0 <= i < j < |sorted| ensures sorted[i].arrival != sorted[j].arrival {
      assert sorted[i] in side && sorted[j] in side && Better(!IsBid(x), sorted[i], sorted[j]);
      if sorted[i].arrival == sorted[j].arrival {
        SameStampSameOrder(placed, sorted[i], sorted[j], h.log, h.log);
      }
    }
  }

  lemma CarryTrace(placed: seq<Order>, log: seq<Match>, x: Order, from: seq<Order>, more: seq<Match>, o: Order)
    requires Untouched(log, x.arrival)
    requires forall s :: s in from ==> s == x || Traced(s, placed, log)
    requires Traced(o, from, more)
    ensures Traced(o, placed + [x], log + more)
  {
    hide FitsU64, TallyOf;
    var start :| start in from && Advanced(start, o, more);
    if start == x {
      UntouchedTally(log, x.arrival);
      AdvancedTwice(x, x, o, log, more);
      assert x in placed + [x];
    } else {
      var origin :| origin in placed && Advanced(origin, start, log);
      AdvancedTwice(origin, start, o, log, more);
      assert origin in placed + [x];
    }
  }

  lemma CarryChain(placed: seq<Order>, log: seq<Match>, x: Order, from: seq<Order>, more: seq<Match>)
    requires Untouched(log, x.arrival)
    requires forall s :: s in from ==> s == x || Traced(s, placed, log)
    requires Chained(placed, log) && Chained(from, more)
    ensures Chained(placed + [x], log + more)
  {
    hide FitsU64, Advanced;
    var all := log + more;
    TracedInMore(placed, placed + [x], log);
    forall k | 0 <= k < |all|
      ensures Traced(all[k].bid, placed + [x], all[..k]) && Traced(all[k].ask, placed + [x], all[..k])
    {
      if k < |log| {
        assert all[..k] == log[..k] && all[k] == log[k];
      } else {
        var j := k - |log|;
        assert all[..k] == log + more[..j] && all[k] == more[j];
        CarryTrace(placed, log, x, from, more[..j], more[j].bid);
        CarryTrace(placed, log, x, from, more[..j], more[j].ask);
      }
    }
  }

  /** Orders on the incoming order's own side take no part in its matches. */
  lemma OwnSideUntouched(placed: seq<Order>, h: History, x: Order, now: Seconds, o: Order)
    requires Accounted(placed, h) && Stamped(placed + [x])
    requires o in h.book.Side(IsBid(x))
    ensures Untouched(WalkOf(h.book, x, now).matches, o.arrival)
  {
    hide FitsU64, TallyOf, BestFirst, Walk, Quiet, Settleable, Attempt;
    EarlierThanNew(placed, h, x);
    SortedSideHasStamps(placed, h, x);
    MemberOfSorted(!IsBid(x), h.book.Side(!IsBid(x)));
    assert o in h.book.Orders();
    forall r | r in BestFirst(!IsBid(x), h.book.Side(!IsBid(x))) ensures r.arrival != o.arrival {
      assert r in h.book.Orders();
      if r.arrival == o.arrival { SameStampSameOrder(placed, r, o, h.log, h.log); }
    }
    WalkInvolvesOnly(x, BestFirst(!IsBid(x), h.book.Side(!IsBid(x))), now, o.arrival);
  }

  lemma AddAccountsForBook(placed: seq<Order>, h: History, x: Order, now: Seconds)
    requires Accounted(placed, h) && Stamped(placed + [x])
    ensures var h' := Apply(h, Add(x, now));
            forall o :: o in h'.book.Orders() ==> Traced(o, placed + [x], h'.log)
  {
    hide FitsU64, TallyOf, BestFirst, Walk, Inv, Settleable, Advanced, Chained;
    var side := h.book.Side(!IsBid(x));
    var sorted := BestFirst(!IsBid(x), side);
    EarlierThanNew(placed, h, x);
    var more := AddTo(h.book, x, now).matches;
    assert h.log + [] == h.log;
    forall o: Order | o in h.book.Orders() && Untouched(more, o.arrival) ensures Traced(o, placed + [x], h.log + more) {
      StillHere(o, more);
      CarryTrace(placed, h.log, x, [o], more, o);
    }
    if !Refused(x, now) {
      SortedSideHasStamps(placed, h, x);
      MemberOfSorted(!IsBid(x), side);
      WalkAdvances(x, sorted, now);
      var w := WalkOf(h.book, x, now);
      assert forall r :: r in sorted ==> r in h.book.Orders();
      forall o: Order | o == w.incoming || o in w.left ensures Traced(o, placed + [x], h.log + more) {
        assert Traced(o, [x] + sorted, more);
        CarryTrace(placed, h.log, x, [x] + sorted, more, o);
      }
      forall o: Order | o in h.book.Side(IsBid(x)) ensures Traced(o, placed + [x], h.log + more) {
        OwnSideUntouched(placed, h, x, now, o);
        assert o in h.book.Orders();
      }
    }
  }

  lemma StillHere(o: Order, log: seq<Match>)
    requires Untouched(log, o.arrival)
    ensures Traced(o, [o], log)
  {
    hide FitsU64, TallyOf;
    UntouchedTally(log, o.arrival);
    assert o in [o] && Advanced(o, o, log);
  }

  lemma AddAccounted(placed: seq<Order>, h: History, x: Order, now: Seconds)
    requires Accounted(placed, h) && Stamped(placed + [x])
    ensures Accounted(placed + [x], Apply(h, Add(x, now)))
  {
    hide FitsU64, TallyOf, BestFirst, Walk, Settleable, Advanced, Quiet;
    EarlierThanNew(placed, h, x);
    AddKeepsInv(h.book, x, now);
    AddAccountsForBook(placed, h, x, now);
    var side := h.book.Side(!IsBid(x));
    var sorted := BestFirst(!IsBid(x), side);
    SortedSideHasStamps(placed, h, x);
    MemberOfSorted(!IsBid(x), side);
    WalkChains(x, sorted, now);
    WalkSettles(x, sorted, now);
    assert forall r :: r in sorted ==> r in h.book.Orders();
    CarryChain(placed, h.log, x, [x] + sorted, WalkOf(h.book, x, now).matches);
    TracedInMore(placed, placed + [x], h.log);
    assert h.log + [] == h.log;
  }

  /** Every reachable history is accounted for. */
  lemma {:induction false} RunAccounted(ops: seq<Op>)
    requires Stamped(Placed(ops))
    ensures Accounted(Placed(ops), Run(ops))
  {
    hide FitsU64, Accounted, Apply;
    if ops == [] {
      EmptyAccounted();
    } else {
      var n := |ops| - 1;
      var earlier := ops[..n];
      assert forall i :: 0 <= i < |Placed(earlier)| ==> Placed(earlier)[i] == Placed(ops)[i];
      RunAccounted(earlier);
      ApplyAccounted(Placed(earlier), Run(earlier), ops[n]);
    }
  }

  lemma EmptyAccounted()
    ensures Accounted([], History(EMPTY_BOOK, []))
  {
  }

  lemma ApplyAccounted(placed: seq<Order>, h: History, op: Op)
    requires Accounted(placed, h)
    requires Stamped(placed + if op.Add? then [op.order] else [])
    ensures Accounted(placed + if op.Add? then [op.order] else [], Apply(h, op))
  {
    hide FitsU64, TallyOf, Settleable, Quiet, AddTo, RemoveFrom;
    if op.Add? {
      AddAccounted(placed, h, op.order, op.now);
    } else {
      RemoveKeepsInv(h.book, op.txId);
      assert placed + [] == placed;
    }
  }

  /** Quiescence: in every reachable book, a resting bid and a resting ask cannot trade.
      Either their limits do not cross, or they belong to one trader, or there is no fill the
      contract would settle at the price they would trade at: the limit of the earlier one,
      or of the later one when that is at the edge of the range. */
  lemma NoRestingPairCanTrade(ops: seq<Op>, bid: Order, ask: Order, fill: nat)
    requires Stamped(Placed(ops))
    requires bid in Run(ops).book.bids && ask in Run(ops).book.asks
    ensures bid.arrival != ask.arrival
    ensures var (first, second) := if bid.arrival < ask.arrival then (bid, ask) else (ask, bid);
            || bid.limit < ask.limit
            || bid.evm == ask.evm || bid.account == ask.account
            || !CanSettle(bid, ask, if 0 < first.limit < 1_000_000 then first.limit else second.limit, fill)
  {
    hide FitsU64, TallyOf, Settleable, Chained, Attempt, CanSettle;
    RunAccounted(ops);
    var h := Run(ops);
    assert bid in h.book.Orders() && ask in h.book.Orders() && PairQuiet(bid, ask);
    if bid.arrival == ask.arrival { SameStampSameOrder(Placed(ops), bid, ask, h.log, h.log); }
    var (first, second) := if bid.arrival < ask.arrival then (bid, ask) else (ask, bid);
    var price := if 0 < first.limit < 1_000_000 then first.limit else second.limit;
    if bid.limit >= ask.limit && bid.evm != ask.evm && bid.account != ask.account && CanSettle(bid, ask, price, fill) {
      AttemptIsLargestSettling(second, first, price, fill);
    }
  }

  /** The log determines the book: each resting order is one of the placed orders, advanced
      by exactly the fills the log gives it. */
  lemma LogDeterminesBook(ops: seq<Op>, o: Order)
    requires Stamped(Placed(ops)) && o in Run(ops).book.Orders()
    ensures exists start :: start in Placed(ops) &&
              var t := TallyOf(Run(ops).log, start.arrival);
              && o == start.(sharesFilled := o.sharesFilled, collateralFilled := o.collateralFilled)
              && o.sharesFilled == start.sharesFilled + t.shares < o.qty
              && o.collateralFilled == start.collateralFilled + t.collateral
  {
    hide FitsU64, TallyOf, Settleable, Chained, Quiet;
    RunAccounted(ops);
    var start :| start in Placed(ops) && Advanced(start, o, Run(ops).log);
    assert Remaining(o) > 0;
  }

  /** Consecutive matches of one order chain: the state a match carries is the state the
      previous match of that order carried, plus that match's own fill. */
  lemma MatchesChain(ops: seq<Op>, i: nat, j: nat, p: Order, q: Order)
    requires Stamped(Placed(ops))
    requires i < j < |Run(ops).log|
    requires p in {Run(ops).log[i].bid, Run(ops).log[i].ask} && q in {Run(ops).log[j].bid, Run(ops).log[j].ask}
    requires p.arrival == q.arrival && Untouched(Run(ops).log[i + 1..j], p.arrival)
    ensures Fits(p, Run(ops).log[i]) && q == After(p, Run(ops).log[i])
  {
    hide FitsU64, TallyOf, Inv, LegCollateral;
    RunAccounted(ops);
    var log := Run(ops).log;
    assert Settleable(log[i]);
    SettledParties(Placed(ops), log, i);
    SameStampSameOrder(Placed(ops), p, q, log[..i], log[..j]);
    TallyUpTo(log, i, j, p.arrival);
  }

  lemma TallyUpTo(log: seq<Match>, i: nat, j: nat, id: nat)
    requires i < j <= |log| && Untouched(log[i + 1..j], id)
    ensures TallyOf(log[..j], id) == Plus(TallyOf(log[..i], id), One(log[i], id))
  {
    hide FitsU64, TallyOf, One, Plus, Untouched;
    assert log[..j] == log[..i] + ([log[i]] + log[i + 1..j]);
    TallyAppend(log[..i], [log[i]] + log[i + 1..j], id);
    TallyAppend([log[i]], log[i + 1..j], id);
    UntouchedTally(log[i + 1..j], id);
    TallyOfOne(log[i], id);
    PlusZero(One(log[i], id));
  }

  /** The two parties of a match are different orders. */
  lemma SettledParties(placed: seq<Order>, log: seq<Match>, k: nat)
    requires Stamped(placed) && Chained(placed, log) && k < |log| && Settleable(log[k])
    ensures log[k].bid.arrival != log[k].ask.arrival
  {
    hide FitsU64, TallyOf;
    if log[k].bid.arrival == log[k].ask.arrival {
      SameStampSameOrder(placed, log[k].bid, log[k].ask, log[..k], log[..k]);
    }
  }
}
