/** Reading fill state off a log of matches: what one order has filled, paid or received
    there, and that the walk's matches account for every change it makes. */
module Ledger {
  import opened Orders
  import opened Pairing
  import opened Matching

  datatype Tally = Tally(shares: nat, collateral: nat, fills: nat)

  function Plus(a: Tally, b: Tally): Tally {
    Tally(a.shares + b.shares, a.collateral + b.collateral, a.fills + b.fills)
  }

  const NOTHING := Tally(0, 0, 0)

  predicate Involves(m: Match, id: nat) {
    m.bid.arrival == id || m.ask.arrival == id
  }

  function One(m: Match, id: nat): Tally {
    if m.bid.arrival == id then Tally(m.shares, BidLeg(m), 1)
    else if m.ask.arrival == id then Tally(m.shares, AskLeg(m), 1)
    else NOTHING
  }

  /** The part of a log that concerns one order. */
  function TallyOf(log: seq<Match>, id: nat): Tally {
    if log == [] then NOTHING else Plus(One(log[0], id), TallyOf(log[1..], id))
  }

  lemma PlusZero(t: Tally)
    ensures Plus(NOTHING, t) == t && Plus(t, NOTHING) == t
  {
  }

  lemma PlusAssociates(a: Tally, b: Tally, c: Tally)
    ensures Plus(Plus(a, b), c) == Plus(a, Plus(b, c))
  {
  }

  lemma {:induction false} TallyAppend(a: seq<Match>, b: seq<Match>, id: nat)
    ensures TallyOf(a + b, id) == Plus(TallyOf(a, id), TallyOf(b, id))
  {
    hide One, FitsU64, Plus;
    if a == [] {
      assert a + b == b;
      PlusZero(TallyOf(b, id));
    } else {
      assert (a + b)[1..] == a[1..] + b;
      TallyAppend(a[1..], b, id);
      PlusAssociates(One(a[0], id), TallyOf(a[1..], id), TallyOf(b, id));
    }
  }

  predicate Untouched(log: seq<Match>, id: nat) {
    forall m :: m in log ==> !Involves(m, id)
  }

  lemma {:induction false} UntouchedTally(log: seq<Match>, id: nat)
    requires Untouched(log, id)
    ensures TallyOf(log, id) == NOTHING
  {
    hide FitsU64, Plus, Involves;
    if log != [] {
      UntouchedTally(log[1..], id);
      assert !Involves(log[0], id);
      UntouchedOne(log[0], id);
      PlusZero(NOTHING);
    }
  }

  lemma UntouchedOne(m: Match, id: nat)
    requires !Involves(m, id)
    ensures One(m, id) == NOTHING
  {
  }

  lemma TallyOfOne(m: Match, id: nat)
    ensures TallyOf([m], id) == One(m, id)
  {
    hide One, FitsU64, Plus;
    assert [m][1..] == [];
    PlusZero(One(m, id));
  }

  /** `o` is `start` after exactly the fills the log gives it. */
  predicate Advanced(start: OrderData, o: OrderData, log: seq<Match>) {
    var t := TallyOf(log, start.arrival);
    o == start.(sharesFilled := o.sharesFilled, collateralFilled := o.collateralFilled)
    && o.sharesFilled == start.sharesFilled + t.shares
    && o.collateralFilled == start.collateralFilled + t.collateral
  }

  ghost predicate Traced(o: Order, from: seq<Order>, log: seq<Match>) {
    exists start :: start in from && Advanced(start, o, log)
  }

  /** Both parties of every match are where the log up to that match has taken them. */
  ghost predicate Chained(from: seq<Order>, log: seq<Match>) {
    forall k :: 0 <= k < |log| ==> Traced(log[k].bid, from, log[..k]) && Traced(log[k].ask, from, log[..k])
  }

  lemma AdvancedTwice(a: Order, b: Order, c: Order, log: seq<Match>, more: seq<Match>)
    requires Advanced(a, b, log) && Advanced(b, c, more)
    ensures Advanced(a, c, log + more)
  {
    TallyAppend(log, more, a.arrival);
  }

  // ----- the walk

  /** One arrival stamp, one order: the sides the walk is given never repeat a stamp. */
  predicate Stamps(x: Order, opposite: seq<Order>) {
    && (forall r :: r in opposite ==> r.arrival != x.arrival)
    && (forall i, j :: 0 <= i < j < |opposite| ==> opposite[i].arrival != opposite[j].arrival)
  }

  lemma {:induction false} WalkInvolvesOnly(x: Order, opposite: seq<Order>, now: Seconds, id: nat)
    requires id != x.arrival && forall r :: r in opposite ==> r.arrival != id
    ensures Untouched(Walk(x, opposite, now).matches, id)
    decreases |opposite|
  {
    hide FitsU64, Attempt, Crosses, Expired, Fits, Remaining, Filled;
    if opposite != [] && Remaining(x) > 0 {
      var r, rest := opposite[0], opposite[1..];
      var attempt := Attempt(x, r);
      WalkInvolvesOnly(x, rest, now, id);
      if attempt.Some? {
        WalkInvolvesOnly(After(x, attempt.value), rest, now, id);
        AttemptParties(x, r);
      }
    }
  }

  lemma AttemptParties(x: Order, r: Order)
    requires Attempt(x, r).Some?
    ensures var m := Attempt(x, r).value;
            m.bid == BidOf(x, r) && m.ask == AskOf(x, r) && m.marketId == x.marketId
  {
  }

  lemma AfterIsAdvanced(x: Order, r: Order)
    requires Attempt(x, r).Some? && x.arrival != r.arrival
    ensures var m := Attempt(x, r).value;
            Advanced(x, After(x, m), [m]) && Advanced(r, After(r, m), [m])
  {
    AttemptParties(x, r);
    var m := Attempt(x, r).value;
    TallyOfOne(m, x.arrival);
    TallyOfOne(m, r.arrival);
  }

  /** Every change the walk makes to an order is in its matches. */
  lemma {:induction false} WalkAdvances(x: Order, opposite: seq<Order>, now: Seconds)
    requires Stamps(x, opposite)
    ensures var w := Walk(x, opposite, now);
            && Advanced(x, w.incoming, w.matches)
            && forall o :: o in w.left ==> Traced(o, opposite, w.matches)
    decreases |opposite|, 0
  {
    hide FitsU64, Attempt, Crosses, Expired, Fits;
    var w := Walk(x, opposite, now);
    if opposite == [] || Remaining(x) == 0 {
      StandsStill(opposite);
    } else {
      var r, rest := opposite[0], opposite[1..];
      assert opposite == [r] + rest;
      if Expired(r, now) {
        WalkAdvances(x, rest, now);
      } else if !Crosses(BidOf(x, r), AskOf(x, r)) {
        StandsStill(opposite);
      } else {
        var attempt := Attempt(x, r);
        if attempt.None? {
          WalkAdvances(x, rest, now);
          WalkInvolvesOnly(x, rest, now, r.arrival);
          UntouchedTally(w.matches, r.arrival);
          assert Advanced(r, r, w.matches);
        } else {
          WalkAdvancesAfterFill(x, r, rest, now);
        }
      }
    }
  }

  lemma StandsStill(s: seq<Order>)
    ensures forall o :: o in s ==> Traced(o, s, [])
  {
    forall o | o in s ensures Traced(o, s, []) { assert Advanced(o, o, []); }
  }

  lemma WalkAdvancesAfterFill(x: Order, r: Order, rest: seq<Order>, now: Seconds)
    requires Stamps(x, [r] + rest) && Attempt(x, r).Some?
    ensures var m := Attempt(x, r).value;
            var w := Walk(After(x, m), rest, now);
            && Advanced(x, w.incoming, [m] + w.matches)
            && Advanced(r, After(r, m), [m] + w.matches)
            && forall o :: o in w.left ==> Traced(o, [r] + rest, [m] + w.matches)
    decreases |rest|, 1
  {
    hide FitsU64, Attempt, Crosses, Expired, Fits, Walk;
    assert ([r] + rest)[0] == r && forall i :: 0 <= i < |rest| ==> rest[i] == ([r] + rest)[i + 1];
    var m := Attempt(x, r).value;
    var x' := After(x, m);
    var w := Walk(x', rest, now);
    WalkAdvances(x', rest, now);
    AfterIsAdvanced(x, r);
    AttemptParties(x, r);
    AdvancedTwice(x, x', w.incoming, [m], w.matches);
    WalkInvolvesOnly(x', rest, now, r.arrival);
    UntouchedTally(w.matches, r.arrival);
    assert Advanced(After(r, m), After(r, m), w.matches);
    AdvancedTwice(r, After(r, m), After(r, m), [m], w.matches);
    forall o | o in w.left ensures Traced(o, [r] + rest, [m] + w.matches) {
      var start :| start in rest && Advanced(start, o, w.matches);
      TallyOfOne(m, start.arrival);
      AdvancedTwice(start, start, o, [m], w.matches);
      assert start in [r] + rest;
    }
  }

  lemma {:induction false} WalkChains(x: Order, opposite: seq<Order>, now: Seconds)
    requires Stamps(x, opposite)
    ensures Chained([x] + opposite, Walk(x, opposite, now).matches)
    decreases |opposite|
  {
    hide FitsU64, Attempt, Crosses, Expired, Fits, Advanced;
    if opposite != [] && Remaining(x) > 0 {
      var r, rest := opposite[0], opposite[1..];
      assert opposite == [r] + rest;
      var attempt := Attempt(x, r);
      WalkChains(x, rest, now);
      TracedInMore([x] + rest, [x] + opposite, Walk(x, rest, now).matches);
      if attempt.Some? {
        var later := Walk(After(x, attempt.value), rest, now).matches;
        WalkChains(After(x, attempt.value), rest, now);
        ChainAfterFill(x, r, rest, later);
      }
    }
  }

  lemma TracedInMore(from: seq<Order>, more: seq<Order>, log: seq<Match>)
    requires Chained(from, log) && forall o :: o in from ==> o in more
    ensures Chained(more, log)
  {
    hide FitsU64, Advanced;
    forall o: Order, k | 0 <= k < |log| && Traced(o, from, log[..k]) ensures Traced(o, more, log[..k]) {
      var start :| start in from && Advanced(start, o, log[..k]);
      assert start in more;
    }
  }

  lemma ChainAfterFill(x: Order, r: Order, rest: seq<Order>, later: seq<Match>)
    requires Stamps(x, [r] + rest) && Attempt(x, r).Some?
    requires Chained([After(x, Attempt(x, r).value)] + rest, later)
    ensures Chained([x] + ([r] + rest), [Attempt(x, r).value] + later)
  {
    hide FitsU64, Attempt, Fits, Advanced;
    var m := Attempt(x, r).value;
    var from, all := [After(x, m)] + rest, [m] + later;
    forall k | 0 <= k < |all|
      ensures Traced(all[k].bid, [x] + ([r] + rest), all[..k])
           && Traced(all[k].ask, [x] + ([r] + rest), all[..k])
    {
      if k == 0 {
        AttemptParties(x, r);
        StandsStill([x] + ([r] + rest));
        assert all[..0] == [] && x in [x] + ([r] + rest) && r in [x] + ([r] + rest);
      } else {
        assert all[..k] == [m] + later[..k - 1] && all[k] == later[k - 1];
        TracedAfterFill(x, r, rest, later[k - 1].bid, later[..k - 1]);
        TracedAfterFill(x, r, rest, later[k - 1].ask, later[..k - 1]);
      }
    }
  }

  lemma TracedAfterFill(x: Order, r: Order, rest: seq<Order>, o: Order, log: seq<Match>)
    requires Stamps(x, [r] + rest) && Attempt(x, r).Some?
    requires Traced(o, [After(x, Attempt(x, r).value)] + rest, log)
    ensures Traced(o, [x] + ([r] + rest), [Attempt(x, r).value] + log)
  {
    hide FitsU64, Attempt, Fits;
    assert ([r] + rest)[0] == r && forall i :: 0 <= i < |rest| ==> rest[i] == ([r] + rest)[i + 1];
    var m := Attempt(x, r).value;
    var start :| start in [After(x, m)] + rest && Advanced(start, o, log);
    if start == After(x, m) {
      AfterIsAdvanced(x, r);
      AdvancedTwice(x, start, o, [m], log);
      assert x in [x] + ([r] + rest);
    } else {
      AttemptParties(x, r);
      TallyOfOne(m, start.arrival);
      AdvancedTwice(start, start, o, [m], log);
      assert start in [x] + ([r] + rest);
    }
  }

  lemma {:induction false} WalkSettles(x: Order, opposite: seq<Order>, now: Seconds)
    requires forall r :: r in opposite ==> IsBid(r) != IsBid(x)
    ensures forall m :: m in Walk(x, opposite, now).matches ==>
              Settleable(m) && LargestFill(m) && m.marketId == x.marketId
    decreases |opposite|
  {
    hide FitsU64, Attempt, Crosses, Expired, Fits, Settleable, LargestFill;
    if opposite != [] && Remaining(x) > 0 {
      var r, rest := opposite[0], opposite[1..];
      var attempt := Attempt(x, r);
      WalkSettles(x, rest, now);
      if attempt.Some? && Fillable(x, r) {
        WalkSettles(After(x, attempt.value), rest, now);
        MatchIsSettleable(x, r);
        MatchIsLargest(x, r);
        AttemptParties(x, r);
      }
    }
  }
}
