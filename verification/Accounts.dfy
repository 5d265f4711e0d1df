/** What the service does, read off its calls alone. Each market has an account: whether it is
    open, what has been done to its book since it was opened, and the fills it made before that.
    The service's books, its txIds and its stream are the accounts', over every sequence of calls. */
module Accounts {
  import opened Orders
  import opened Pairing
  import opened Matching
  import Quiescence
  import opened Ledger
  import opened Runs
  import opened MessageIds
  import opened Lifecycle
  import opened Pipeline
  import opened PipelineLaws
  import opened Service
  import opened ServiceSteps

  // ----- market ids

  predicate SameLetter(c: char, d: char) {
    || c == d
    || ('A' <= c <= 'Z' && d as int == c as int + 32)
    || ('A' <= d <= 'Z' && c as int == d as int + 32)
  }

  /** Equal up to ASCII case. */
  predicate SameMarket(a: string, b: string) {
    |a| == |b| && forall i :: 0 <= i < |a| ==> SameLetter(a[i], b[i])
  }

  /** Two ids name one market exactly when they are equal up to case. */
  lemma KeysAgree(a: string, b: string)
    ensures KeyOf(a) == KeyOf(b) <==> SameMarket(a, b)
  {
    if KeyOf(a) == KeyOf(b) {
      forall i | 0 <= i < |a| ensures SameLetter(a[i], b[i]) {
        assert KeyOf(a)[i] == KeyOf(b)[i];
      }
    }
  }

  // ----- accounts

  /** `past` are the fills made before the market was last opened. */
  datatype Account = Account(open: bool, ops: seq<Op>, past: seq<Match>) {
    function Fills(): seq<Match> { past + Run(ops).log }
  }

  function MarketOf(call: Call): string {
    match call
    case AddMarketCall(id) => id
    case CloseMarketCall(id) => id
    case CancelOrderCall(id, _) => id
    case PlaceOrderCall(order, _, _) => order.marketId
    case DeliveryCall(order, _, _) => order.marketId
  }

  function AccountOf(calls: seq<Call>, id: string): Account
    decreases |calls|, 0
  {
    if calls == [] then Account(false, [], [])
    else
      var earlier, call := calls[..|calls| - 1], calls[|calls| - 1];
      var a := AccountOf(earlier, id);
      if !SameMarket(MarketOf(call), id) then a
      else
        match call
        case AddMarketCall(_) => if a.open then a else Account(true, [], a.Fills())
        case CloseMarketCall(_) => Account(false, [], a.Fills())
        case CancelOrderCall(_, txId) => if a.open then a.(ops := a.ops + [Remove(txId)]) else a
        case _ => if Enters(earlier, call) then a.(ops := a.ops + [Add(call.order, call.now)]) else a
  }

  /** The call enters its order: the market is open, and a delivery is not of a txId entered
      before. */
  predicate Enters(earlier: seq<Call>, call: Call)
    decreases |earlier|, 1
  {
    && OffersOrder(call) && AccountOf(earlier, call.order.marketId).open
    && (call.DeliveryCall? ==> call.order.txId !in Entered(earlier))
  }

  /** The txIds entered, in any market. */
  function Entered(calls: seq<Call>): set<string>
    decreases |calls|, 0
  {
    if calls == [] then {}
    else
      var earlier, call := calls[..|calls| - 1], calls[|calls| - 1];
      Entered(earlier) + if Enters(earlier, call) then {call.order.txId} else {}
  }

  lemma OneMoreCall(calls: seq<Call>, call: Call)
    ensures (calls + [call])[..|calls + [call]| - 1] == calls && (calls + [call])[|calls + [call]| - 1] == call
    ensures Served(calls + [call]) == Effect(Served(calls), call)
  {
    hide Effect;
    assert (calls + [call])[..|calls|] == calls;
  }

  /** The books are the open markets' runs, and the lookup set is the entered txIds. */
  lemma {:induction false} BooksAreAccounts(calls: seq<Call>, id: string)
    ensures var c, a := Served(calls), AccountOf(calls, id);
            && (KeyOf(id) in c.books <==> a.open)
            && (a.open ==> c.books[KeyOf(id)] == Run(a.ops).book)
            && c.seen == Entered(calls)
    decreases |calls|
  {
    hide FitsU64, KeyOf, SameMarket, AddTo, RemoveFrom, PublishAll;
    if calls != [] {
      var earlier, call := calls[..|calls| - 1], calls[|calls| - 1];
      var a := AccountOf(earlier, id);
      BooksAreAccounts(earlier, id);
      KeysAgree(MarketOf(call), id);
      if OffersOrder(call) {
        BooksAreAccounts(earlier, call.order.marketId);
        OneMoreOp(a.ops, Add(call.order, call.now));
      } else if call.CancelOrderCall? {
        OneMoreOp(a.ops, Remove(call.txId));
      } else {
        assert Run([]).book == EMPTY_BOOK;
      }
    }
  }

  lemma WellCalledBefore(calls: seq<Call>)
    requires WellCalled(calls) && calls != []
    ensures WellCalled(calls[..|calls| - 1])
  {
    hide FitsU64, HasTx, Named;
    var offered := OfferedBy(calls[..|calls| - 1]);
    assert forall i :: 0 <= i < |offered| ==> offered[i] == OfferedBy(calls)[i];
  }

  /** What a market's account has placed: offered orders of that market, each txId once. */
  ghost predicate AccountInv(a: Account, id: string, calls: seq<Call>) {
    && Stamped(Placed(a.ops)) && DistinctTxIds(Placed(a.ops))
    && (forall o :: o in Placed(a.ops) ==> o in OfferedBy(calls) && SameMarket(o.marketId, id) && o.txId in Entered(calls))
  }

  lemma {:induction false} EnteredWereOffered(calls: seq<Call>)
    ensures forall txId :: txId in Entered(calls) ==> HasTx(OfferedBy(calls), txId)
  {
    hide FitsU64, Enters;
    if calls != [] {
      var earlier, call := calls[..|calls| - 1], calls[|calls| - 1];
      EnteredWereOffered(earlier);
      forall txId | txId in Entered(calls) ensures HasTx(OfferedBy(calls), txId) {
        if txId in Entered(earlier) {
          var o :| o in OfferedBy(earlier) && o.txId == txId;
          assert o in OfferedBy(calls);
        } else {
          EntersOffers(earlier, call);
          assert call.order in OfferedBy(calls);
        }
      }
    }
  }

  lemma EntersOffers(earlier: seq<Call>, call: Call)
    requires Enters(earlier, call)
    ensures OffersOrder(call)
  {
  }

  lemma AccountStays(a: Account, id: string, calls: seq<Call>)
    requires calls != [] && AccountInv(a, id, calls[..|calls| - 1])
    ensures AccountInv(a, id, calls)
  {
    hide FitsU64, SameMarket, Enters, Stamped, DistinctTxIds, Placed;
  }

  lemma AccountEnters(a: Account, id: string, calls: seq<Call>)
    requires WellCalled(calls) && calls != [] && AccountInv(a, id, calls[..|calls| - 1])
    requires Enters(calls[..|calls| - 1], calls[|calls| - 1]) && SameMarket(MarketOf(calls[|calls| - 1]), id)
    ensures var call := calls[|calls| - 1];
            OffersOrder(call) && AccountInv(a.(ops := a.ops + [Add(call.order, call.now)]), id, calls)
  {
    hide FitsU64, SameMarket, Named, Run, AccountOf, Stamped, DistinctTxIds, Placed;
    var earlier, call := calls[..|calls| - 1], calls[|calls| - 1];
    EntersOffers(earlier, call);
    LastOffer(calls);
    assert forall o :: o in Placed(a.ops) ==> o.arrival < call.order.arrival && o.txId != call.order.txId;
    OneMorePlaced(Placed(a.ops), call.order);
    OneMoreOp(a.ops, Add(call.order, call.now));
  }

  lemma {:induction false} AccountsAreWell(calls: seq<Call>, id: string)
    requires WellCalled(calls)
    ensures AccountInv(AccountOf(calls, id), id, calls)
    decreases |calls|
  {
    hide FitsU64, SameMarket, Run, AccountInv, WellCalled, Enters;
    if calls == [] {
      FreshAccount(false, [], id, calls);
    } else {
      var earlier, call := calls[..|calls| - 1], calls[|calls| - 1];
      var a := AccountOf(earlier, id);
      WellCalledBefore(calls);
      AccountsAreWell(earlier, id);
      AccountStays(a, id, calls);
      AccountCancels(a, id, calls);
      FreshAccount(true, a.Fills(), id, calls);
      FreshAccount(false, a.Fills(), id, calls);
      if SameMarket(MarketOf(call), id) && Enters(earlier, call) { AccountEnters(a, id, calls); }
    }
  }

  lemma FreshAccount(open: bool, past: seq<Match>, id: string, calls: seq<Call>)
    ensures AccountInv(Account(open, [], past), id, calls)
  {
  }

  lemma AccountCancels(a: Account, id: string, calls: seq<Call>)
    requires AccountInv(a, id, calls)
    ensures forall txId :: AccountInv(a.(ops := a.ops + [Remove(txId)]), id, calls)
  {
    hide FitsU64, SameMarket, Stamped, DistinctTxIds, Placed;
    forall txId ensures Placed(a.ops + [Remove(txId)]) == Placed(a.ops) {
      OneMoreOp(a.ops, Remove(txId));
      assert Placed(a.ops) + [] == Placed(a.ops);
    }
  }

  lemma LastOffer(calls: seq<Call>)
    requires WellCalled(calls) && calls != [] && OffersOrder(calls[|calls| - 1])
    ensures forall o :: o in OfferedBy(calls[..|calls| - 1]) ==> o.arrival < calls[|calls| - 1].order.arrival
  {
    hide FitsU64, Named, FreshPlacings;
    var offered := OfferedBy(calls[..|calls| - 1]);
    assert forall i :: 0 <= i < |offered| ==> OfferedBy(calls)[i] == offered[i];
    assert OfferedBy(calls)[|offered|] == calls[|calls| - 1].order;
  }

  // ----- one call at a time

  /** A cancel takes exactly the order of that txId out of that market's book, and touches no
      other book, no txId and no message. */
  lemma CancelTakesOneOut(calls: seq<Call>, id: string, txId: string)
    requires WellCalled(calls)
    ensures var c, c' := Served(calls), Served(calls + [CancelOrderCall(id, txId)]);
            && c'.seen == c.seen && c'.stream == c.stream && c'.books.Keys == c.books.Keys
            && (forall k :: k in c.books && k != KeyOf(id) ==> c'.books[k] == c.books[k])
            && (KeyOf(id) in c.books ==>
                  forall o :: o in c'.books[KeyOf(id)].Orders() <==>
                              o in c.books[KeyOf(id)].Orders() && o.txId != txId)
  {
    hide FitsU64, KeyOf, RemoveFrom, Run, Placed, Stamped, DistinctTxIds, WellCalled;
    OneMoreCall(calls, CancelOrderCall(id, txId));
    BooksAreAccounts(calls, id);
    AccountsAreWell(calls, id);
    var c, a := Served(calls), AccountOf(calls, id);
    if a.open {
      forall o ensures o in RemoveFrom(c.books[KeyOf(id)], txId).Orders() <==>
                       o in c.books[KeyOf(id)].Orders() && o.txId != txId
      {
        CancelTakesOne(a.ops, txId, o);
      }
    }
  }

  /** No call reaches the book of a market whose id differs from the call's by more than case. */
  lemma OtherBooksUntouched(calls: seq<Call>, call: Call, id: string)
    requires !SameMarket(MarketOf(call), id)
    ensures var c, c' := Served(calls), Served(calls + [call]);
            && (KeyOf(id) in c'.books <==> KeyOf(id) in c.books)
            && (KeyOf(id) in c.books ==> c'.books[KeyOf(id)] == c.books[KeyOf(id)])
  {
    hide FitsU64, KeyOf, SameMarket, AddTo, RemoveFrom, PublishAll;
    OneMoreCall(calls, call);
    KeysAgree(MarketOf(call), id);
  }

  /** `p` is an order offered for this market, up to its fill state. */
  ghost predicate OfferedFor(p: Order, id: string, calls: seq<Call>) {
    && SameMarket(p.marketId, id)
    && exists q: Order :: q in OfferedBy(calls)
         && p == q.(sharesFilled := p.sharesFilled, collateralFilled := p.collateralFilled)
  }

  lemma TracedIsOffered(a: Account, id: string, calls: seq<Call>, p: Order, log: seq<Match>)
    requires AccountInv(a, id, calls) && Traced(p, Placed(a.ops), log)
    ensures OfferedFor(p, id, calls)
  {
    hide FitsU64, SameMarket, TallyOf, Placed, Stamped;
    var q :| q in Placed(a.ops) && Advanced(q, p, log);
    assert q.marketId == p.marketId && q in OfferedBy(calls);
  }

  lemma OfferedForLater(p: Order, id: string, calls: seq<Call>)
    requires calls != [] && OfferedFor(p, id, calls[..|calls| - 1])
    ensures OfferedFor(p, id, calls)
  {
    hide FitsU64, SameMarket;
    var q: Order :| q in OfferedBy(calls[..|calls| - 1])
         && p == q.(sharesFilled := p.sharesFilled, collateralFilled := p.collateralFilled);
    assert q in OfferedBy(calls);
  }

  lemma RunStaysInMarket(calls: seq<Call>, id: string)
    requires WellCalled(calls)
    ensures var h := Run(AccountOf(calls, id).ops);
            && (forall m :: m in h.log ==> OfferedFor(m.bid, id, calls) && OfferedFor(m.ask, id, calls))
            && (forall o :: o in h.book.Orders() ==> OfferedFor(o, id, calls))
  {
    hide FitsU64, SameMarket, TallyOf, Placed, Stamped, Traced, OfferedFor, Quiescence.Inv, Settleable, WellCalled, AccountInv, Run;
    AccountsAreWell(calls, id);
    var a := AccountOf(calls, id);
    assert Stamped(Placed(a.ops)) by { AccountIsStamped(a, id, calls); }
    RunAccounted(a.ops);
    var h := Run(a.ops);
    forall m | m in h.log ensures OfferedFor(m.bid, id, calls) && OfferedFor(m.ask, id, calls) {
      var k :| 0 <= k < |h.log| && h.log[k] == m;
      TracedIsOffered(a, id, calls, m.bid, h.log[..k]);
      TracedIsOffered(a, id, calls, m.ask, h.log[..k]);
    }
    forall o | o in h.book.Orders() ensures OfferedFor(o, id, calls) {
      TracedIsOffered(a, id, calls, o, h.log);
    }
  }

  lemma AccountIsStamped(a: Account, id: string, calls: seq<Call>)
    requires AccountInv(a, id, calls)
    ensures Stamped(Placed(a.ops)) && DistinctTxIds(Placed(a.ops))
  {
  }

  /** Markets are apart: every party of a market's fills, and every order resting in its book,
      is an order offered for that market, its id equal up to case. */
  lemma {:induction false} MarketsAreApart(calls: seq<Call>, id: string)
    requires WellCalled(calls)
    ensures forall m :: m in AccountOf(calls, id).Fills() ==>
              OfferedFor(m.bid, id, calls) && OfferedFor(m.ask, id, calls)
    ensures KeyOf(id) in Served(calls).books ==>
              forall o :: o in Served(calls).books[KeyOf(id)].Orders() ==> OfferedFor(o, id, calls)
  {
    hide FitsU64, SameMarket, KeyOf, OfferedFor, Run, WellCalled, Served, Enters;
    RunStaysInMarket(calls, id);
    BooksAreAccounts(calls, id);
    if calls != [] {
      var earlier := calls[..|calls| - 1];
      WellCalledBefore(calls);
      MarketsAreApart(earlier, id);
      forall m | m in AccountOf(earlier, id).Fills() ensures OfferedFor(m.bid, id, calls) && OfferedFor(m.ask, id, calls) {
        OfferedForLater(m.bid, id, calls);
        OfferedForLater(m.ask, id, calls);
      }
      assert forall m :: m in AccountOf(calls, id).past ==> m in AccountOf(earlier, id).Fills();
    }
  }

  // ----- an order over the life of the service

  /** The call neither cancels the order, nor closes its market, nor adds to its market within
      30 seconds of its deadline or later. */
  predicate Spares(call: Call, o: Order) {
    SameMarket(MarketOf(call), o.marketId) ==>
      match call
      case AddMarketCall(_) => true
      case CloseMarketCall(_) => false
      case CancelOrderCall(_, txId) => txId != o.txId
      case _ => o.deadline > call.now + 30
  }

  ghost predicate ListedSince(a: Account, k: nat, o: Order) {
    a.open && k < |a.ops| && a.ops[k].Add? && a.ops[k].order == o && KeptAlive(a.ops, k, o)
  }

  lemma SparedStaysListed(calls: seq<Call>, k: nat, o: Order)
    requires calls != [] && ListedSince(AccountOf(calls[..|calls| - 1], o.marketId), k, o)
    requires Spares(calls[|calls| - 1], o)
    ensures ListedSince(AccountOf(calls, o.marketId), k, o)
    ensures AccountOf(calls, o.marketId).past == AccountOf(calls[..|calls| - 1], o.marketId).past
  {
    hide FitsU64, SameMarket, Run, KeptAlive, Enters;
    var a, call := AccountOf(calls[..|calls| - 1], o.marketId), calls[|calls| - 1];
    if call.CancelOrderCall? && call.txId != o.txId { OneMoreKept(a.ops, k, o, Remove(call.txId)); }
    if OffersOrder(call) && o.deadline > call.now + 30 { OneMoreKept(a.ops, k, o, Add(call.order, call.now)); }
  }

  lemma OneMoreKept(ops: seq<Op>, k: nat, o: Order, op: Op)
    requires KeptAlive(ops, k, o)
    requires match op case Add(_, now) => o.deadline > now + 30 case Remove(txId) => txId != o.txId
    ensures KeptAlive(ops + [op], k, o)
  {
    hide FitsU64;
  }

  lemma EnteredIsListed(calls: seq<Call>)
    requires calls != [] && Enters(calls[..|calls| - 1], calls[|calls| - 1])
    ensures var call := calls[|calls| - 1];
            OffersOrder(call) && (Spares(call, call.order) ==>
              var a := AccountOf(calls, call.order.marketId);
              |a.ops| > 0 && ListedSince(a, |a.ops| - 1, call.order))
    ensures AccountOf(calls, MarketOf(calls[|calls| - 1])).past
         == AccountOf(calls[..|calls| - 1], MarketOf(calls[|calls| - 1])).past
  {
    hide FitsU64, Run;
    assert SameMarket(MarketOf(calls[|calls| - 1]), MarketOf(calls[|calls| - 1]));
  }

  lemma {:induction false} StaysListed(calls: seq<Call>, i: nat) returns (k: nat)
    requires i < |calls| && Enters(calls[..i], calls[i]) && OffersOrder(calls[i])
    requires forall j :: i <= j < |calls| ==> Spares(calls[j], calls[i].order)
    ensures ListedSince(AccountOf(calls, calls[i].order.marketId), k, calls[i].order)
    ensures AccountOf(calls, calls[i].order.marketId).past == AccountOf(calls[..i], calls[i].order.marketId).past
    decreases |calls|
  {
    hide FitsU64, SameMarket, AccountOf, Enters, Spares, ListedSince;
    var n := |calls| - 1;
    if i == n {
      EnteredIsListed(calls);
      k := |AccountOf(calls, calls[i].order.marketId).ops| - 1;
    } else {
      assert calls[..n][..i] == calls[..i] && forall j :: i <= j < n ==> calls[..n][j] == calls[j];
      k := StaysListed(calls[..n], i);
      SparedStaysListed(calls, k, calls[i].order);
    }
  }

  /** The fills a market had made when an order was offered do not involve it. */
  lemma PastIsOthers(calls: seq<Call>, i: nat)
    requires WellCalled(calls) && i < |calls| && OffersOrder(calls[i])
    ensures Untouched(AccountOf(calls[..i], calls[i].order.marketId).past, calls[i].order.arrival)
  {
    hide FitsU64, SameMarket, WellCalled, AccountOf, OfferedBy, Run;
    var o := calls[i].order;
    assert calls[..i + 1][..i] == calls[..i] && calls[..i + 1][i] == calls[i];
    WellCalledUpTo(calls, i + 1);
    WellCalledUpTo(calls, i);
    LastOffer(calls[..i + 1]);
    MarketsAreApart(calls[..i], o.marketId);
    var a := AccountOf(calls[..i], o.marketId);
    forall m | m in a.past ensures !Involves(m, o.arrival) {
      assert m in a.Fills();
      OfferedEarlier(calls[..i], o.marketId, m.bid, o.arrival);
      OfferedEarlier(calls[..i], o.marketId, m.ask, o.arrival);
    }
  }

  lemma OfferedEarlier(calls: seq<Call>, id: string, p: Order, time: nat)
    requires OfferedFor(p, id, calls) && forall o :: o in OfferedBy(calls) ==> o.arrival < time
    ensures p.arrival < time
  {
    hide FitsU64, SameMarket, OfferedBy;
  }

  lemma {:induction false} WellCalledUpTo(calls: seq<Call>, i: nat)
    requires WellCalled(calls) && i <= |calls|
    ensures WellCalled(calls[..i])
    decreases |calls|
  {
    hide FitsU64, WellCalled;
    if i == |calls| {
      assert calls[..i] == calls;
    } else {
      WellCalledBefore(calls);
      assert calls[..|calls| - 1][..i] == calls[..i];
      WellCalledUpTo(calls[..|calls| - 1], i);
    }
  }

  /** No order is lost: one that a call entered is in its market's book, advanced by the
      market's fills, if those leave it shares, and since then it was not cancelled, its market
      not closed, and no order added there near its deadline. */
  lemma LiveOrderIsListed(calls: seq<Call>, i: nat)
    requires WellCalled(calls) && i < |calls| && Enters(calls[..i], calls[i]) && OffersOrder(calls[i])
    requires forall j :: i <= j < |calls| ==> Spares(calls[j], calls[i].order)
    requires var o := calls[i].order;
             o.sharesFilled + TallyOf(AccountOf(calls, o.marketId).Fills(), o.arrival).shares < o.qty
    ensures var o, c := calls[i].order, Served(calls);
            && KeyOf(o.marketId) in c.books
            && exists p :: p in c.books[KeyOf(o.marketId)].Orders()
                 && Advanced(o, p, AccountOf(calls, o.marketId).Fills())
  {
    hide FitsU64, SameMarket, KeyOf, TallyOf, Run, Served, AccountOf, Enters, Spares, WellCalled, KeptAlive, Placed, Stamped;
    var o := calls[i].order;
    var k := StaysListed(calls, i);
    var a := AccountOf(calls, o.marketId);
    PastIsOthers(calls, i);
    UntouchedTally(a.past, o.arrival);
    TallyAppend(a.past, Run(a.ops).log, o.arrival);
    AccountsAreWell(calls, o.marketId);
    AccountIsStamped(a, o.marketId, calls);
    BooksAreAccounts(calls, o.marketId);
    LiveOrderRests(a.ops, k, o);
  }
}
