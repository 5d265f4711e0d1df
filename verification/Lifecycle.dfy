/** What one call does to each order: which pairs trade and at what price, which orders stay in
    the book, and what a cancel takes out. */
module Lifecycle {
  import opened Orders
  import opened Fills
  import opened PriceTime
  import opened Pairing
  import opened Matching
  import opened Quiescence
  import opened Ledger
  import opened Runs
  import opened Priority
  import opened MessageIds

  // ----- the fills of one add

  lemma {:induction false} WalkTrades(x: Order, opposite: seq<Order>, now: Seconds)
    requires forall r :: r in opposite ==> IsBid(r) != IsBid(x)
    ensures forall m :: m in Walk(x, opposite, now).matches ==>
              && Attempt(IncomingOf(IsBid(x), m), RestingOf(IsBid(x), m)) == Some(m)
              && !Expired(RestingOf(IsBid(x), m), now)
    decreases |opposite|
  {
    hide FitsU64, Attempt, Crosses, Expired, Fits;
    if opposite != [] && Remaining(x) > 0 {
      var r, rest := opposite[0], opposite[1..];
      assert opposite == [r] + rest;
      var attempt := Attempt(x, r);
      WalkTrades(x, rest, now);
      if attempt.Some? {
        WalkTrades(After(x, attempt.value), rest, now);
        AttemptParties(x, r);
      }
    }
  }

  /** Every fill of an `add` is between the incoming order and an order that was resting, of
      different traders and neither within 30 seconds of its deadline. It executes at the
      resting limit, or at the incoming limit when the resting one is at the edge of the
      range, and is the largest fill the contract would settle. */
  lemma FillsAtRestingLimit(ops: seq<Op>, x: Order, now: Seconds, m: Match)
    requires Stamped(Placed(ops)) && m in AddTo(Run(ops).book, x, now).matches
    ensures var incoming, resting := IncomingOf(IsBid(x), m), RestingOf(IsBid(x), m);
            && Grew(x, incoming) && resting in Run(ops).book.Side(!IsBid(x))
            && x.deadline > now + 30 && resting.deadline > now + 30
            && x.evm != resting.evm && x.account != resting.account
            && m.price == (if 0 < resting.limit < 1_000_000 then resting.limit else x.limit)
            && CanSettle(m.bid, m.ask, m.price, m.shares)
            && forall more: nat :: more > m.shares ==> !CanSettle(m.bid, m.ask, m.price, more)
  {
    hide FitsU64, TallyOf, Settleable, Chained, Quiet, Walk, BestFirst, Run, Stamped, Attempt, CanSettle;
    RunAccounted(ops);
    var side := Run(ops).book.Side(!IsBid(x));
    MemberOfSorted(!IsBid(x), side);
    WalkTrades(x, BestFirst(!IsBid(x), side), now);
    WalkMeets(x, BestFirst(!IsBid(x), side), now);
    var incoming, resting := IncomingOf(IsBid(x), m), RestingOf(IsBid(x), m);
    AttemptTerms(incoming, resting);
  }

  lemma AttemptTerms(incoming: Order, resting: Order)
    requires Attempt(incoming, resting).Some?
    ensures var m := Attempt(incoming, resting).value;
            && incoming.evm != resting.evm && incoming.account != resting.account
            && m.price == (if 0 < resting.limit < 1_000_000 then resting.limit else incoming.limit)
            && CanSettle(m.bid, m.ask, m.price, m.shares)
            && forall more: nat :: more > m.shares ==> !CanSettle(m.bid, m.ask, m.price, more)
  {
    hide YesLeg, CapsOk, LargestWithinCaps, WithinCap, MaxFill, CanSettle, SplitCollateral;
    var m := Attempt(incoming, resting).value;
    MaxFillIsMaximal(m.bid, m.ask, m.price, Min(Remaining(incoming), Remaining(resting)));
    AdmissibleIsSettling(m.bid, m.ask, m.price, m.shares);
    forall more: nat | more > m.shares ensures !CanSettle(m.bid, m.ask, m.price, more) {
      if CanSettle(m.bid, m.ask, m.price, more) { AttemptIsLargestSettling(incoming, resting, m.price, more); }
    }
  }

  // ----- nothing is lost

  /** `o` survives a log if the log leaves it shares to fill: then it is in `after`, advanced. */
  ghost predicate Survives(o: Order, log: seq<Match>, after: seq<Order>) {
    o.sharesFilled + TallyOf(log, o.arrival).shares < o.qty ==>
      exists later :: later in after && Advanced(o, later, log)
  }

  lemma {:induction false} WalkLosesNothing(x: Order, opposite: seq<Order>, now: Seconds)
    requires Stamps(x, opposite)
    ensures var w := Walk(x, opposite, now);
            forall r :: r in opposite && !Expired(r, now) ==> Survives(r, w.matches, w.left)
    decreases |opposite|, 0
  {
    hide FitsU64, Attempt, Crosses, Expired, Fits, Survives;
    if opposite == [] || Remaining(x) == 0 || (!Expired(opposite[0], now)
        && !Crosses(BidOf(x, opposite[0]), AskOf(x, opposite[0]))) {
      forall o | o in opposite ensures Survives(o, [], opposite) { Untraded(o, [], opposite); }
    } else {
      var r, rest := opposite[0], opposite[1..];
      assert opposite == [r] + rest;
      var attempt := Attempt(x, r);
      if Expired(r, now) {
        WalkLosesNothing(x, rest, now);
        assert Walk(x, opposite, now) == Walk(x, rest, now);
      } else if attempt.None? {
        var w := Walk(x, rest, now);
        WalkLosesNothing(x, rest, now);
        WalkInvolvesOnly(x, rest, now, r.arrival);
        Untraded(r, w.matches, [r] + w.left);
        forall o | o in rest && !Expired(o, now) ensures Survives(o, w.matches, [r] + w.left) {
          SurvivesInMore(o, w.matches, w.left, [r]);
        }
      } else {
        FillLosesNothing(x, r, rest, now);
        var m := attempt.value;
        var w := Walk(After(x, m), rest, now);
        assert Walk(x, opposite, now) == Walked(w.incoming, Kept(After(r, m)) + w.left, [m] + w.matches);
      }
    }
  }

  lemma Untraded(o: Order, log: seq<Match>, after: seq<Order>)
    requires Untouched(log, o.arrival) && o in after
    ensures Survives(o, log, after)
  {
    hide FitsU64, TallyOf;
    UntouchedTally(log, o.arrival);
    assert Advanced(o, o, log);
  }

  lemma SurvivesInMore(o: Order, log: seq<Match>, after: seq<Order>, more: seq<Order>)
    requires Survives(o, log, after)
    ensures Survives(o, log, more + after)
  {
    hide FitsU64, TallyOf, Advanced;
  }

  lemma FillLosesNothing(x: Order, r: Order, rest: seq<Order>, now: Seconds)
    requires Stamps(x, [r] + rest) && Attempt(x, r).Some?
    ensures var m := Attempt(x, r).value;
            var w := Walk(After(x, m), rest, now);
            forall o :: o in [r] + rest && !Expired(o, now) ==>
              Survives(o, [m] + w.matches, Kept(After(r, m)) + w.left)
    decreases |rest|, 1
  {
    hide FitsU64, Attempt, Expired, Fits, Walk, TallyOf, Survives;
    assert ([r] + rest)[0] == r && forall i :: 0 <= i < |rest| ==> rest[i] == ([r] + rest)[i + 1];
    var m := Attempt(x, r).value;
    var w := Walk(After(x, m), rest, now);
    WalkLosesNothing(After(x, m), rest, now);
    WalkInvolvesOnly(After(x, m), rest, now, r.arrival);
    FilledSurvives(x, r, w.matches, w.left);
    AttemptParties(x, r);
    forall o | o in rest && !Expired(o, now) ensures Survives(o, [m] + w.matches, Kept(After(r, m)) + w.left) {
      SurvivesOneMore(o, m, w.matches, w.left);
      SurvivesInMore(o, [m] + w.matches, w.left, Kept(After(r, m)));
    }
  }

  lemma FilledSurvives(x: Order, r: Order, later: seq<Match>, left: seq<Order>)
    requires Attempt(x, r).Some? && x.arrival != r.arrival && Untouched(later, r.arrival)
    ensures var m := Attempt(x, r).value;
            Survives(r, [m] + later, Kept(After(r, m)) + left)
  {
    hide FitsU64, Attempt, TallyOf;
    var m := Attempt(x, r).value;
    AfterIsAdvanced(x, r);
    UntouchedTally(later, r.arrival);
    assert Advanced(After(r, m), After(r, m), later);
    AdvancedTwice(r, After(r, m), After(r, m), [m], later);
    if Remaining(After(r, m)) > 0 { assert After(r, m) in Kept(After(r, m)) + left; }
  }

  lemma SurvivesOneMore(o: Order, m: Match, log: seq<Match>, after: seq<Order>)
    requires Survives(o, log, after) && !Involves(m, o.arrival)
    ensures Survives(o, [m] + log, after)
  {
    hide FitsU64, TallyOf;
    TallyAppend([m], log, o.arrival);
    TallyOfOne(m, o.arrival);
    UntouchedOne(m, o.arrival);
  }

  /** No add loses an order: the incoming order and every resting order not within 30 seconds of
      its deadline is in the book afterwards, advanced, if the new matches leave it shares to
      fill. Resting orders of the incoming order's own side stay even when expired. */
  lemma AddLosesNothing(ops: seq<Op>, x: Order, now: Seconds, o: Order)
    requires Stamped(Placed(ops) + [x])
    requires o == x || o in Run(ops).book.Orders()
    requires o.deadline > now + 30 || o in Run(ops).book.Side(IsBid(x))
    ensures var out := AddTo(Run(ops).book, x, now);
            Survives(o, out.matches, out.book.Orders())
  {
    assert o.deadline > now + 30 ==> !Expired(o, now);
    assert o == x && Remaining(x) == 0 ==> Survives(o, [], Run(ops).book.Orders());
    hide FitsU64, TallyOf, Inv, Settleable, Chained, Walk, BestFirst, Run, Expired, Survives;
    RunsStamped(Placed(ops), x);
    RunAccounted(ops);
    var h := Run(ops);
    var out := AddTo(h.book, x, now);
    if Refused(x, now) {
      if o in h.book.Orders() { Untraded(o, [], h.book.Orders()); }
    } else {
      var side := h.book.Side(!IsBid(x));
      var sorted := BestFirst(!IsBid(x), side);
      SortedSideHasStamps(Placed(ops), h, x);
      MemberOfSorted(!IsBid(x), side);
      var w := WalkOf(h.book, x, now);
      if o == x {
        WalkAdvances(x, sorted, now);
        IncomingSurvives(x, w);
        SurvivesElsewhere(o, w.matches, Kept(w.incoming), out.book.Orders());
      } else if o in side && !Expired(o, now) {
        WalkLosesNothing(x, sorted, now);
        SurvivesElsewhere(o, w.matches, w.left, out.book.Orders());
      } else {
        OwnSideUntouched(Placed(ops), h, x, now, o);
        Untraded(o, w.matches, out.book.Orders());
      }
    }
  }

  lemma RunsStamped(placed: seq<Order>, x: Order)
    requires Stamped(placed + [x])
    ensures Stamped(placed)
  {
    assert forall i :: 0 <= i < |placed| ==> (placed + [x])[i] == placed[i];
  }

  lemma IncomingSurvives(x: Order, w: Walked)
    requires Advanced(x, w.incoming, w.matches)
    ensures Survives(x, w.matches, Kept(w.incoming))
  {
    hide FitsU64, TallyOf;
    if Remaining(w.incoming) > 0 { assert w.incoming in Kept(w.incoming); }
  }

  lemma SurvivesElsewhere(o: Order, log: seq<Match>, a: seq<Order>, b: seq<Order>)
    requires Survives(o, log, a) && forall p :: p in a ==> p in b
    ensures Survives(o, log, b)
  {
    hide FitsU64, TallyOf, Advanced;
  }

  // ----- when the incoming order rests

  /** An order within 30 seconds of its deadline, or with no shares left, changes nothing: it is
      not even put on its own side. */
  lemma RefusedChangesNothing(b: BookState, x: Order, now: Seconds)
    requires x.deadline <= now + 30 || x.sharesFilled >= x.qty
    ensures AddTo(b, x, now) == Outcome(b, [])
  {
    hide Walk, BestFirst;
  }

  /** Over every run: the incoming order, by its stamp, is in the book after the add exactly when
      it is more than 30 seconds from its deadline and its matches leave it shares. */
  lemma IncomingRests(ops: seq<Op>, x: Order, now: Seconds)
    requires Stamped(Placed(ops) + [x])
    ensures var out := AddTo(Run(ops).book, x, now);
            (exists o :: o in out.book.Orders() && o.arrival == x.arrival) <==>
            x.deadline > now + 30 && x.sharesFilled + TallyOf(out.matches, x.arrival).shares < x.qty
  {
    hide FitsU64, TallyOf, Inv, Settleable, Chained, Walk, BestFirst, Run, AddTo, Survives;
    RunsStamped(Placed(ops), x);
    RunAccounted(ops);
    var h, out := Run(ops), AddTo(Run(ops).book, x, now);
    EarlierThanNew(Placed(ops), h, x);
    if x.deadline <= now + 30 || x.sharesFilled >= x.qty {
      RefusedChangesNothing(h.book, x, now);
      assert TallyOf([], x.arrival).shares == 0 by { NothingTallied(x.arrival); }
    } else {
      AddLosesNothing(ops, x, now, x);
      AddSurvival(x, out);
      forall o | o in out.book.Orders() && o.arrival == x.arrival
        ensures x.sharesFilled + TallyOf(out.matches, x.arrival).shares < x.qty
      {
        RestsAdvanced(ops, x, now, o);
      }
    }
  }

  lemma NothingTallied(id: nat)
    ensures TallyOf([], id).shares == 0
  {
  }

  lemma AddSurvival(x: Order, out: Outcome)
    requires Survives(x, out.matches, out.book.Orders())
    ensures x.sharesFilled + TallyOf(out.matches, x.arrival).shares < x.qty ==>
              exists o :: o in out.book.Orders() && o.arrival == x.arrival
  {
    hide FitsU64, TallyOf;
  }

  /** An order of the incoming order's stamp is the incoming order, advanced, with shares left. */
  lemma RestsAdvanced(ops: seq<Op>, x: Order, now: Seconds, o: Order)
    requires Stamped(Placed(ops) + [x]) && !Refused(x, now)
    requires o in AddTo(Run(ops).book, x, now).book.Orders() && o.arrival == x.arrival
    ensures x.sharesFilled + TallyOf(AddTo(Run(ops).book, x, now).matches, x.arrival).shares < x.qty
  {
    hide FitsU64, TallyOf, Inv, Settleable, Chained, Walk, BestFirst, Run;
    RunsStamped(Placed(ops), x);
    RunAccounted(ops);
    var h := Run(ops);
    var sorted := BestFirst(!IsBid(x), h.book.Side(!IsBid(x)));
    EarlierThanNew(Placed(ops), h, x);
    SortedSideHasStamps(Placed(ops), h, x);
    WalkAdvances(x, sorted, now);
    var w := WalkOf(h.book, x, now);
    assert o in h.book.Side(IsBid(x)) ==> o in h.book.Orders();
    assert o in Kept(w.incoming) || o in w.left;
  }

  // ----- when an expired order leaves

  /** Some unexpired order on the way does not cross, so the walk stops there. */
  ghost predicate Barred(x: Order, before: seq<Order>, now: Seconds) {
    exists r :: r in before && !Expired(r, now) && !Crosses(BidOf(x, r), AskOf(x, r))
  }

  /** An expired order of the sorted side stays exactly when the walk does not come to it. */
  lemma {:induction false} WalkDropsExpired(x: Order, opposite: seq<Order>, now: Seconds, k: nat)
    requires Stamps(x, opposite) && k < |opposite| && Expired(opposite[k], now)
    ensures opposite[k] in Walk(x, opposite, now).left <==>
            Barred(x, opposite[..k], now) || Remaining(Walk(x, opposite[..k], now).incoming) == 0
    decreases |opposite|
  {
    hide FitsU64, Attempt, Crosses, Expired, Fits, Barred, Remaining;
    var o := opposite[k];
    if Remaining(x) == 0 {
      assert o in opposite;
    } else if k == 0 {
      NotBarred(x, now);
      assert opposite[..0] == [];
      NotLeft(x, opposite[1..], now, o);
    } else {
      var r, rest, before := opposite[0], opposite[1..], opposite[1..][..k - 1];
      assert opposite[..k] == [r] + before && ([r] + before)[1..] == before;
      BarredStep(x, r, before, now);
      var attempt := Attempt(x, r);
      if Expired(r, now) || attempt.None? {
        WalkDropsExpired(x, rest, now, k - 1);
      } else {
        WalkDropsExpired(After(x, attempt.value), rest, now, k - 1);
        BarredForGrown(x, After(x, attempt.value), before, now);
      }
      if !Expired(r, now) && !Crosses(BidOf(x, r), AskOf(x, r)) { assert o in opposite; }
      if attempt.Some? { assert o != After(r, attempt.value); }
    }
  }

  lemma NotBarred(x: Order, now: Seconds)
    ensures !Barred(x, [], now)
  {
  }

  lemma BarredStep(x: Order, r: Order, before: seq<Order>, now: Seconds)
    ensures Barred(x, [r] + before, now) <==>
            (!Expired(r, now) && !Crosses(BidOf(x, r), AskOf(x, r))) || Barred(x, before, now)
  {
    hide FitsU64, Crosses, Expired;
    if Barred(x, before, now) {
      var q :| q in before && !Expired(q, now) && !Crosses(BidOf(x, q), AskOf(x, q));
      assert q in [r] + before;
    }
    assert r in [r] + before;
  }

  lemma BarredForGrown(x: Order, x': Order, before: seq<Order>, now: Seconds)
    requires Grew(x, x')
    ensures Barred(x', before, now) <==> Barred(x, before, now)
  {
    hide FitsU64, Expired;
  }

  /** An order the walk is not given is not among those it leaves. */
  lemma NotLeft(x: Order, opposite: seq<Order>, now: Seconds, o: Order)
    requires Stamps(x, opposite) && forall r :: r in opposite ==> r.arrival != o.arrival
    ensures o !in Walk(x, opposite, now).left
  {
    hide FitsU64, Walk, TallyOf;
    WalkAdvances(x, opposite, now);
  }

  /** The documented dropping of orders near their deadline, exactly: a resting order within 30
      seconds of its deadline is still in the book after an add if and only if it is on the
      incoming order's own side, or the incoming order is refused, or, of the orders better
      placed than it, some live one does not cross or they leave the incoming order no shares. */
  lemma ExpiredOrderStays(ops: seq<Op>, x: Order, now: Seconds, o: Order)
    requires Stamped(Placed(ops) + [x])
    requires o in Run(ops).book.Orders() && o.deadline <= now + 30
    ensures var b := Run(ops).book;
            var sorted := BestFirst(!IsBid(x), b.Side(!IsBid(x)));
            o in AddTo(b, x, now).book.Orders() <==>
            || o in b.Side(IsBid(x))
            || x.deadline <= now + 30 || x.sharesFilled >= x.qty
            || exists k :: 0 <= k < |sorted| && sorted[k] == o
                 && (Barred(x, sorted[..k], now) || Remaining(Walk(x, sorted[..k], now).incoming) == 0)
  {
    hide FitsU64, TallyOf, Inv, Settleable, Chained, BestFirst, Run, Walk, Barred;
    var h := Run(ops);
    RunsStamped(Placed(ops), x);
    RunAccounted(ops);
    assert Expired(o, now);
    if !Refused(x, now) {
      var side := h.book.Side(!IsBid(x));
      var sorted := BestFirst(!IsBid(x), side);
      SortedSideHasStamps(Placed(ops), h, x);
      MemberOfSorted(!IsBid(x), side);
      if o in side && o !in h.book.Side(IsBid(x)) {
        var k :| 0 <= k < |sorted| && sorted[k] == o;
        WalkDropsExpired(x, sorted, now, k);
        NotAppended(Placed(ops), h, x, now, o);
      }
    }
  }

  /** A resting order of the other side is in the book after an add only if the walk left it. */
  lemma NotAppended(placed: seq<Order>, h: History, x: Order, now: Seconds, o: Order)
    requires Accounted(placed, h) && Stamped(placed + [x]) && !Refused(x, now)
    requires o in h.book.Side(!IsBid(x)) && o !in h.book.Side(IsBid(x))
    ensures o in AddTo(h.book, x, now).book.Orders() <==> o in WalkOf(h.book, x, now).left
  {
    hide FitsU64, TallyOf, BestFirst, Walk, Inv, Settleable;
    EarlierThanNew(placed, h, x);
    assert o in h.book.Orders();
    SortedSideHasStamps(placed, h, x);
    WalkAdvances(x, BestFirst(!IsBid(x), h.book.Side(!IsBid(x))), now);
  }

  // ----- a whole run

  /** From position `i` of the run on, the order is live at every add and never cancelled. */
  ghost predicate KeptAlive(ops: seq<Op>, i: nat, o: Order) {
    forall j :: i <= j < |ops| ==>
      match ops[j]
      case Add(_, now) => o.deadline > now + 30
      case Remove(txId) => txId != o.txId
  }

  /** So a placed order that is live at every add from its own on, never cancelled since, and
      left shares by the log is resting, advanced by the log. */
  lemma {:induction false} LiveOrderRests(ops: seq<Op>, i: nat, o: Order)
    requires Stamped(Placed(ops)) && i < |ops| && ops[i].Add? && ops[i].order == o
    requires KeptAlive(ops, i, o)
    requires o.sharesFilled + TallyOf(Run(ops).log, o.arrival).shares < o.qty
    ensures exists p :: p in Run(ops).book.Orders() && Advanced(o, p, Run(ops).log)
  {
    hide FitsU64, TallyOf, Apply, Survives, AddTo, RemoveFrom;
    var n := |ops| - 1;
    var earlier, op := ops[..n], ops[n];
    var before := Run(earlier);
    assert forall k :: 0 <= k < |Placed(earlier)| ==> Placed(earlier)[k] == Placed(ops)[k];
    LogGrows(before, op);
    var more := Run(ops).log[|before.log|..];
    assert Run(ops).log == before.log + more;
    TallyAppend(before.log, more, o.arrival);
    if i == n {
      PlacedNow(earlier, o, op.now);
    } else {
      assert forall j :: i <= j < n ==> earlier[j] == ops[j];
      LiveOrderRests(earlier, i, o);
      var p :| p in before.book.Orders() && Advanced(o, p, before.log);
      StaysThrough(earlier, op, p);
      var q :| q in Run(ops).book.Orders() && Advanced(p, q, more);
      AdvancedTwice(o, p, q, before.log, more);
    }
  }

  lemma LogGrows(h: History, op: Op)
    ensures |h.log| <= |Apply(h, op).log| && Apply(h, op).log == h.log + Apply(h, op).log[|h.log|..]
    ensures op.Add? ==> Apply(h, op).log[|h.log|..] == AddTo(h.book, op.order, op.now).matches
    ensures op.Remove? ==> Apply(h, op).log[|h.log|..] == []
  {
    hide FitsU64, AddTo, RemoveFrom;
  }

  lemma PlacedNow(earlier: seq<Op>, x: Order, now: Seconds)
    requires Stamped(Placed(earlier) + [x]) && x.deadline > now + 30
    requires x.sharesFilled + TallyOf(Apply(Run(earlier), Add(x, now)).log, x.arrival).shares < x.qty
    ensures var h := Apply(Run(earlier), Add(x, now));
            exists p :: p in h.book.Orders() && Advanced(x, p, h.log)
  {
    hide FitsU64, TallyOf, AddTo, Inv, Settleable, Chained, Run;
    var before := Run(earlier);
    var more := AddTo(before.book, x, now).matches;
    RunsStamped(Placed(earlier), x);
    RunAccounted(earlier);
    EarlierThanNew(Placed(earlier), before, x);
    UntouchedTally(before.log, x.arrival);
    TallyAppend(before.log, more, x.arrival);
    AddLosesNothing(earlier, x, now, x);
    var p :| p in AddTo(before.book, x, now).book.Orders() && Advanced(x, p, more);
    assert Advanced(x, x, before.log);
    AdvancedTwice(x, x, p, before.log, more);
  }

  lemma StaysThrough(earlier: seq<Op>, op: Op, p: Order)
    requires Stamped(Placed(earlier) + if op.Add? then [op.order] else [])
    requires p in Run(earlier).book.Orders()
    requires match op case Add(_, now) => p.deadline > now + 30 case Remove(txId) => txId != p.txId
    requires var h, h' := Run(earlier), Apply(Run(earlier), op);
             |h.log| <= |h'.log| && p.sharesFilled + TallyOf(h'.log[|h.log|..], p.arrival).shares < p.qty
    ensures var h, h' := Run(earlier), Apply(Run(earlier), op);
            exists q :: q in h'.book.Orders() && Advanced(p, q, h'.log[|h.log|..])
  {
    hide FitsU64, TallyOf, AddTo, RemoveFrom, Run;
    LogGrows(Run(earlier), op);
    if op.Add? {
      AddLosesNothing(earlier, op.order, op.now, p);
    } else {
      assert Placed(earlier) + [] == Placed(earlier);
      RunAccounted(earlier);
      RemoveKeepsInv(Run(earlier).book, op.txId);
      StandsStill([p]);
      assert p in [p];
    }
  }

  // ----- cancel

  ghost predicate TxOnce(s: seq<Order>) {
    forall i, j :: 0 <= i < j < |s| ==> s[i].txId != s[j].txId
  }

  lemma SameTxSameTerms(placed: seq<Order>, h: History, a: Order, b: Order)
    requires Accounted(placed, h) && Stamped(placed) && DistinctTxIds(placed)
    requires a in h.book.Orders() && b in h.book.Orders() && a.txId == b.txId
    ensures a.arrival == b.arrival && a.limit == b.limit && IsBid(a) == IsBid(b)
  {
    hide FitsU64, TallyOf, Inv, Stamped, Settleable;
    SameTxSameOrder(placed, a, b, h.log, h.log);
    SameStampSameOrder(placed, a, b, h.log, h.log);
  }

  lemma SideHasTxOnce(placed: seq<Order>, h: History, bidSide: bool)
    requires Accounted(placed, h) && Stamped(placed) && DistinctTxIds(placed)
    ensures TxOnce(h.book.Side(bidSide))
  {
    hide FitsU64, TallyOf, Stamped, Settleable, Quiet, Traced, Chained;
    var s := h.book.Side(bidSide);
    forall i, j | 0 <= i < j < |s| ensures s[i].txId != s[j].txId {
      assert s[i] in s && s[j] in s && s[i] in h.book.Orders() && s[j] in h.book.Orders();
      if s[i].txId == s[j].txId { SameTxSameTerms(placed, h, s[i], s[j]); }
    }
  }

  lemma WithoutTakesOne(s: seq<Order>, txId: string, o: Order)
    requires TxOnce(s)
    ensures o in Without(s, txId) <==> o in s && o.txId != txId
  {
    hide FitsU64;
    var p, t := Position(s, txId), Without(s, txId);
    if p < |s| {
      assert forall i :: 0 <= i < |t| ==> t[i] == s[if i < p then i else i + 1];
      if o in s && o.txId != txId {
        var i :| 0 <= i < |s| && s[i] == o;
        assert t[if i < p then i else i - 1] == o;
      }
    }
  }

  /** With distinct order ids, a cancel takes out exactly the order of that id. */
  lemma CancelTakesOne(ops: seq<Op>, txId: string, o: Order)
    requires Stamped(Placed(ops)) && DistinctTxIds(Placed(ops))
    ensures o in RemoveFrom(Run(ops).book, txId).Orders() <==> o in Run(ops).book.Orders() && o.txId != txId
  {
    hide FitsU64, TallyOf, Settleable, Chained, Quiet, Run, Stamped, Position, Without, Traced, EqualPricesInOrder;
    RunAccounted(ops);
    var h := Run(ops);
    var b := h.book;
    SideHasTxOnce(Placed(ops), h, true);
    SideHasTxOnce(Placed(ops), h, false);
    WithoutTakesOne(b.bids, txId, o);
    WithoutTakesOne(b.asks, txId, o);
    if Holds(b.bids, txId) && o in b.asks && o.txId == txId {
      var p := Position(b.bids, txId);
      assert b.bids[p] in b.bids && b.bids[p] in b.Orders() && o in b.Orders();
      SameTxSameTerms(Placed(ops), h, b.bids[p], o);
      assert false;
    }
    assert !Holds(b.bids, txId) ==> forall q :: q in b.bids ==> q.txId != txId;
  }
}
